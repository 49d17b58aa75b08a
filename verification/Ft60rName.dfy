/** Channel names of the FT-60R: six characters coded by their place in a 65-character set. */
module Ft60rName {
  import opened Bytes

  const NAME_LENGTH := 6
  const NCHARS := 65
  const SPACE: byte := 36
  const OPENBOX: byte := 64

  const DIGITS := "0123456789"
  const LETTERS := "ABCDEFGHIJKLMNOPQRSTUVWXYZ"
  const SIGNS := " !`o$%&'()*+,-./|;/=>?@[~]^__"

  const CHARSET: string := DIGITS + LETTERS + SIGNS

  /** The character encode_char searches for. */
  function Folded(c: char): char {
    if c == '_' then ' '
    else if 'a' <= c <= 'z' then c - 'a' + 'A'
    else c
  }

  ghost predicate InCharset(c: char) {
    exists i :: 0 <= i < NCHARS && CHARSET[i] == c
  }

  /** The first place of a character of the set at or after `from`. */
  function PlaceFrom(c: char, from: nat): (i: nat)
    requires from <= NCHARS
    ensures from <= i <= NCHARS
    ensures i < NCHARS ==> CHARSET[i] == c
    ensures forall j :: from <= j < i ==> CHARSET[j] != c
    decreases NCHARS - from
  {
    if from == NCHARS then NCHARS
    else if CHARSET[from] == c then from
    else PlaceFrom(c, from + 1)
  }

  function GlyphOf(c: char): (code: byte)
  {
    var i := PlaceFrom(Folded(c), 0);
    if i < NCHARS then AsByte(i) else OPENBOX
  }

  lemma GlyphIsPlace(c: char, i: nat)
    requires PlaceFrom(Folded(c), 0) == i
    ensures GlyphOf(c) == if i < NCHARS then AsByte(i) else OPENBOX
  {
  }

  /** encode_char. */
  method EncodeChar(c: char) returns (code: byte)
    ensures code == GlyphOf(c)
  {
    assert |CHARSET| == NCHARS;
    hide CHARSET;
    var sought := c;
    if sought == '_' {
      sought := ' ';
    }
    if 'a' <= sought <= 'z' {
      sought := sought - 'a' + 'A';
    }
    assert sought == Folded(c);
    hide Folded, GlyphOf;
    for i := 0 to NCHARS
      invariant PlaceFrom(sought, 0) == PlaceFrom(sought, i)
    {
      if sought == CHARSET[i] {
        GlyphIsPlace(c, i);
        return AsByte(i);
      }
    }
    GlyphIsPlace(c, NCHARS);
    return OPENBOX;
  }

  /** One decoded character: codes outside the set and spaces show as underscores. */
  function CharOf(code: byte): char {
    var c := if code as int < NCHARS then CHARSET[code as int] else ' ';
    if c == ' ' then '_' else c
  }

  function Strip(s: string): (t: string)
    ensures |t| <= |s| && t == s[..|t|]
    ensures t != [] ==> t[|t| - 1] != '_'
    ensures forall k :: |t| <= k < |s| ==> s[k] == '_'
  {
    if s != [] && s[|s| - 1] == '_' then Strip(s[..|s| - 1]) else s
  }

  /** A name that is absent, empty or starts with '-' is not stored. */
  predicate Clears(name: string) {
    name == "" || name[0] == '-'
  }

  /** The eight bytes at a channel's place in the name table; of the last two only the top bit is written. */
  function NameMask(name: string, k: nat): Mask
    requires k < 8
  {
    if k < NAME_LENGTH then
      Mask(0, if Clears(name) then 0xff else if k < |name| then GlyphOf(name[k]) else SPACE)
    else
      Mask(0x7f, if Clears(name) then 0 else 0x80)
  }

  /** decode_name on the eight bytes of the table. */
  function ReadName(e: seq<byte>): string
    requires |e| == 8
  {
    if e[6] & 0x80 != 0 && e[7] & 0x80 != 0 then
      Strip(seq(NAME_LENGTH, k requires 0 <= k < NAME_LENGTH => CharOf(e[k])))
    else ""
  }

  /** What a character is shown as after storing: upper case, with underscores for spaces and unknown characters. */
  ghost function Shown(c: char): char {
    if Folded(c) != ' ' && InCharset(Folded(c)) then Folded(c) else '_'
  }

  ghost function Truncated(name: string): string {
    seq(if |name| < NAME_LENGTH then |name| else NAME_LENGTH, k requires 0 <= k < |name| => Shown(name[k]))
  }

  /** The name a written name reads back as. */
  ghost function StoredName(name: string): string {
    if Clears(name) then "" else Strip(Truncated(name))
  }

  lemma CharRoundTrip(c: char)
    ensures CharOf(GlyphOf(c)) == Shown(c)
  {
    var i := PlaceFrom(Folded(c), 0);
    SmallByte(i);
    assert CHARSET[36] == ' ' && CHARSET[64] == '_';
  }

  lemma PaddingShows()
    ensures CharOf(SPACE) == '_'
  {
    assert CHARSET[36] == ' ';
  }

  /** Underscores at the end do not change what is stripped to. */
  lemma {:induction false} StripPadding(s: string, t: string)
    requires |s| <= |t| && s == t[..|s|]
    requires forall k :: |s| <= k < |t| ==> t[k] == '_'
    ensures Strip(t) == Strip(s)
    decreases |t|
  {
    if |s| == |t| {
      assert s == t;
    } else {
      StripPadding(s, t[..|t| - 1]);
    }
  }

  /** The name round trip, whatever the eight bytes held before. */
  lemma NameRoundTrip(name: string, before: seq<byte>, after: seq<byte>)
    requires |before| == 8 && |after| == 8
    requires forall k :: 0 <= k < 8 ==> after[k] == Overwrite(before[k], NameMask(name, k))
    ensures ReadName(after) == StoredName(name)
  {
    assert after[6] == Overwrite(before[6], NameMask(name, 6));
    assert after[7] == Overwrite(before[7], NameMask(name, 7));
    if !Clears(name) {
      var shown := seq(NAME_LENGTH, k requires 0 <= k < NAME_LENGTH => CharOf(after[k]));
      var n := |Truncated(name)|;
      forall k | 0 <= k < NAME_LENGTH
        ensures shown[k] == if k < n then Truncated(name)[k] else '_'
      {
        if k < n { CharRoundTrip(name[k]); } else { PaddingShows(); }
      }
      assert Truncated(name) == shown[..n];
      StripPadding(Truncated(name), shown);
    }
  }

  lemma ShownTwice(c: char)
    ensures Shown(Shown(c)) == Shown(c)
    ensures Shown(c) == '-' ==> c == '-'
  {
    assert CHARSET[0] == '0';
  }

  /** Storing a name that was read back stores the same name. */
  lemma StoredNameTwice(name: string)
    ensures StoredName(StoredName(name)) == StoredName(name)
  {
    var once := StoredName(name);
    if once != "" {
      var t := Truncated(name);
      ShownTwice(name[0]);
      assert once[0] == t[0];
      forall k | 0 <= k < |once|
        ensures Shown(once[k]) == once[k]
      {
        ShownTwice(name[k]);
      }
      assert Truncated(once) == once;
    }
  }

  // ---- In numbers ----

  lemma CharsetInNumbers(k: nat)
    ensures k < 10 ==> CHARSET[k] == '0' + k as char
    ensures 10 <= k < 36 ==> CHARSET[k] == 'A' + (k - 10) as char
    ensures 36 <= k < 65 ==> CHARSET[k] == SIGNS[k - 36]
  {
  }

  lemma SignsAreNoLetters(k: nat)
    requires k < 29
    ensures !('0' <= SIGNS[k] <= '9') && !('A' <= SIGNS[k] <= 'Z')
  {
  }

  /** The codes a radio shows as characters; a space shows as an underscore, and so does every code above 64. */
  lemma CharsInNumbers(code: byte)
    ensures code as int < 10 ==> CharOf(code) == '0' + code as char
    ensures 10 <= code as int < 36 ==> CharOf(code) == 'A' + (code as int - 10) as char
    ensures code as int > 64 ==> CharOf(code) == '_'
  {
    if code as int < 36 {
      CharsetInNumbers(code as int);
    }
  }

  lemma SignsInNumbers(k: nat)
    requires k < 29
    ensures CHARSET[36 + k] == " !`o$%&'()*+,-./|;/=>?@[~]^__"[k]
  {
  }

  /** The signs are codes 36 to 64, in this order. */
  lemma SignsShow(code: byte)
    requires 36 <= code as int < 65
    ensures CharOf(code) == "_!`o$%&'()*+,-./|;/=>?@[~]^__"[code as int - 36]
  {
    SignsInNumbers(code as int - 36);
  }

  lemma SignsDiffer(j: nat, k: nat)
    requires j < k < 27 && k != 18
    ensures SIGNS[j] != SIGNS[k]
  {
  }

  lemma SignPlace(k: nat)
    requires 1 <= k < 27 && k != 18
    ensures PlaceFrom(CHARSET[36 + k], 0) == 36 + k
  {
    var p := PlaceFrom(CHARSET[36 + k], 0);
    CharsetInNumbers(p);
    CharsetInNumbers(36 + k);
    SignsAreNoLetters(k);
    if 36 <= p < 36 + k {
      SignsDiffer(p - 36, k);
      assert false;
    }
  }

  /** A sign is stored under its place in the list; the second slash and the small letter are never found. */
  lemma SignGlyph(k: nat)
    requires 1 <= k < 27 && k != 3 && k != 18
    ensures GlyphOf(" !`o$%&'()*+,-./|;/=>?@[~]^__"[k]) as int == 36 + k
  {
    hide PlaceFrom, GlyphOf;
    SignsInNumbers(k);
    var c := CHARSET[36 + k];
    CharsetInNumbers(36 + k);
    SignIsNoSmall(k);
    assert Folded(c) == c;
    SignPlace(k);
    GlyphIsPlace(c, 36 + k);
  }

  lemma SignIsNoSmall(k: nat)
    requires 1 <= k < 27 && k != 3
    ensures !('a' <= SIGNS[k] <= 'z') && SIGNS[k] != '_' && SIGNS[k] != ' '
  {
  }

  lemma PlaceIs(c: char, i: nat)
    requires i < 36 && c == CHARSET[i]
    ensures PlaceFrom(c, 0) == i
  {
    var p := PlaceFrom(c, 0);
    CharsetInNumbers(i);
    CharsetInNumbers(p);
  }

  lemma BlankIsPlaced(i: nat)
    requires i == 36
    ensures PlaceFrom(' ', 0) == i
  {
    var p := PlaceFrom(' ', 0);
    assert CHARSET[36] == ' ';
    CharsetInNumbers(p);
  }

  lemma GlyphOfPlaced(c: char, i: nat)
    requires i < 36 && Folded(c) == CHARSET[i]
    ensures GlyphOf(c) as int == i
  {
    hide CHARSET, PlaceFrom;
    PlaceIs(Folded(c), i);
  }

  /** The codes characters are stored under: digits, letters of either case, blanks and underscores. */
  lemma GlyphsInNumbers(c: char)
    ensures '0' <= c <= '9' ==> GlyphOf(c) as int == (c - '0') as int
    ensures 'A' <= c <= 'Z' ==> GlyphOf(c) as int == 10 + (c - 'A') as int
    ensures 'a' <= c <= 'z' ==> GlyphOf(c) as int == 10 + (c - 'a') as int
    ensures c == ' ' || c == '_' ==> GlyphOf(c) as int == 36
  {
    hide CHARSET, PlaceFrom, GlyphOf;
    var u := Folded(c);
    if '0' <= u <= '9' {
      CharsetInNumbers((u - '0') as int);
      GlyphOfPlaced(c, (u - '0') as int);
    } else if 'A' <= u <= 'Z' {
      CharsetInNumbers(10 + (u - 'A') as int);
      GlyphOfPlaced(c, 10 + (u - 'A') as int);
    } else if u == ' ' {
      BlankIsPlaced(36);
      GlyphIsPlace(c, 36);
    }
  }

  /** A character outside the set is stored as the box, code 64. */
  lemma UnknownInNumbers(c: char)
    requires !('0' <= c <= '9') && !('A' <= c <= 'Z') && !('a' <= c <= 'z')
    requires c !in " !`$%&'()*+,-./|;=>?@[~]^_"
    ensures GlyphOf(c) as int == 64
  {
    hide CHARSET, SIGNS;
    var p := PlaceFrom(c, 0);
    if p < 36 {
      CharsetInNumbers(p);
    } else if p < 65 {
      CharsetInNumbers(p);
      SignIsListed(p - 36);
    }
  }

  lemma SignIsListed(k: nat)
    requires k < 29
    ensures SIGNS[k] in " !`$%&'()*+,-./|;=>?@[~]^_" || SIGNS[k] == 'o'
  {
  }

  /** The eight bytes of a name: six codes with blanks behind, and two bytes whose top bit says that there is a name.
      A missing name, an empty one, or one that starts with '-' leaves 0xff six times and clears both bits. */
  lemma NameInNumbers(name: string, k: nat)
    requires k < 8
    ensures var cleared := name == "" || name[0] == '-';
            forall b: byte :: Overwrite(b, NameMask(name, k)) ==
              if k >= 6 then (if cleared then b & 0x7f else b | 0x80)
              else if cleared then 0xff
              else if k < |name| then GlyphOf(name[k])
              else 36
  {
    forall b: byte
      ensures Overwrite(b, Mask(0x7f, 0x80)) == b | 0x80 && Overwrite(b, Mask(0x7f, 0)) == b & 0x7f
      ensures forall v: byte :: Overwrite(b, Mask(0, v)) == v
    {
    }
  }

  /** A name as it is read: absent unless both bits are set, otherwise its characters up to the last one shown. */
  lemma ReadNameInNumbers(e: seq<byte>)
    requires |e| == 8
    ensures var name := ReadName(e);
            if e[6] & 0x80 == 0 || e[7] & 0x80 == 0 then name == ""
            else
              && |name| <= 6 && (name != "" ==> name[|name| - 1] != '_')
              && forall k :: 0 <= k < 6 ==> CharOf(e[k]) == if k < |name| then name[k] else '_'
  {
    if e[6] & 0x80 != 0 && e[7] & 0x80 != 0 {
      var shown := seq(NAME_LENGTH, k requires 0 <= k < NAME_LENGTH => CharOf(e[k]));
      assert forall k :: 0 <= k < 6 ==> shown[k] == CharOf(e[k]);
      var t := Strip(shown);
      assert t == shown[..|t|];
      assert forall k :: 0 <= k < |t| ==> t[k] == shown[k];
    }
  }
}

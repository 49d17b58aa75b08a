/** The sender's escape decoder: a specification over texts, and the loop that decodes a buffer into itself. */
module Unescape {

  type octet = x: int | 0 <= x < 256

  const BACKSLASH: octet := 92

  function Ascii(c: char): octet
    requires c < 256 as char
  {
    c as int
  }

  predicate Octal(c: octet) {
    Ascii('0') <= c <= Ascii('7')
  }

  /** isxdigit. */
  predicate Hex(c: octet) {
    || Ascii('0') <= c <= Ascii('9')
    || Ascii('A') <= c <= Ascii('F')
    || Ascii('a') <= c <= Ascii('f')
  }

  /** hex2bin. */
  function HexValue(c: octet): (v: octet)
    requires Hex(c)
    ensures v < 16
  {
    if c <= Ascii('9') then c - Ascii('0')
    else if c <= Ascii('F') then c - Ascii('A') + 10
    else c - Ascii('a') + 10
  }

  // ---- The decoder as a function of the text ----

  /** What the head of a text stands for, and how many of its characters say so. */
  datatype Token = Token(out: seq<octet>, used: nat)

  /** Up to three octal digits, the first of them at `i`, in a byte that wraps. */
  function OctalToken(s: seq<octet>, i: nat): Token
    requires i < |s| && Octal(s[i])
  {
    var v := s[i] - Ascii('0');
    if i + 1 < |s| && Octal(s[i + 1]) then
      var w := 8 * v + (s[i + 1] - Ascii('0'));
      if i + 2 < |s| && Octal(s[i + 2]) then Token([(8 * w + (s[i + 2] - Ascii('0'))) % 256], i + 3)
      else Token([w], i + 2)
    else Token([v], i + 1)
  }

  function HexToken(s: seq<octet>): Token
    requires |s| >= 2
  {
    if |s| == 2 || !Hex(s[2]) then Token([s[1], s[1]], 2)
    else if |s| == 3 || !Hex(s[3]) then Token([HexValue(s[2])], 3)
    else Token([16 * HexValue(s[2]) + HexValue(s[3])], 4)
  }

  /** The characters with a one-letter escape. */
  function Letter(c: octet): (v: octet) {
    if c == Ascii('e') then 27
    else if c == Ascii('f') then 12
    else if c == Ascii('n') then 10
    else if c == Ascii('r') then 13
    else if c == Ascii('t') then 9
    else if c == Ascii('v') then 11
    else c
  }

  predicate HasLetter(c: octet) {
    c == Ascii('e') || c == Ascii('f') || c == Ascii('n') || c == Ascii('r') || c == Ascii('t') || c == Ascii('v')
  }

  /** The first token. An escape nobody knows stands for its character, twice. */
  function Next(s: seq<octet>): (t: Token)
    requires s != []
    ensures 1 <= |t.out| <= t.used <= |s|
  {
    if s[0] != BACKSLASH || |s| == 1 then Token([s[0]], 1)
    else if HasLetter(s[1]) then Token([Letter(s[1])], 2)
    else if s[1] == Ascii('x') then HexToken(s)
    else if s[1] == Ascii('0') then (if |s| > 2 && Octal(s[2]) then OctalToken(s, 2) else Token([0], 2))
    else if Octal(s[1]) then OctalToken(s, 1)
    else if s[1] == BACKSLASH then Token([BACKSLASH], 2)
    else Token([s[1], s[1]], 2)
  }

  function Decode(s: seq<octet>): (r: seq<octet>)
    ensures |r| <= |s|
  {
    if s == [] then [] else Next(s).out + Decode(s[Next(s).used..])
  }

  predicate Plain(s: seq<octet>) {
    forall i :: 0 <= i < |s| - 1 ==> s[i] != BACKSLASH
  }

  lemma DecodePlainHead(s: seq<octet>)
    requires s != [] && (s[0] != BACKSLASH || |s| == 1)
    ensures Decode(s) == [s[0]] + Decode(s[1..])
  {
    hide HexToken, OctalToken, HasLetter, Letter, Octal;
  }

  /** Decoding leaves a text alone exactly when no backslash has anything after it. */
  lemma {:induction false} DecodeFixes(s: seq<octet>)
    ensures Decode(s) == s <==> Plain(s)
  {
    if s == [] {
    } else if s[0] != BACKSLASH || |s| == 1 {
      hide Decode, Next;
      DecodePlainHead(s);
      DecodeFixes(s[1..]);
      assert s == [s[0]] + s[1..];
      assert Decode(s)[1..] == Decode(s[1..]);
      assert Plain(s) <==> Plain(s[1..]) by {
        assert forall i :: 0 <= i < |s| - 2 ==> s[1..][i] == s[i + 1];
        if Plain(s[1..]) {
          forall i | 0 <= i < |s| - 1
            ensures s[i] != BACKSLASH
          {
            if i > 0 { assert s[1..][i - 1] == s[i]; }
          }
        }
      }
    } else {
      hide Decode, Next;
      EscapeChanges(s);
      assert !Plain(s);
    }
  }

  lemma EscapeChanges(s: seq<octet>)
    requires |s| > 1 && s[0] == BACKSLASH
    ensures Decode(s) != s
  {
    var t := Next(s);
    if |t.out| == t.used {
      assert Decode(s)[0] == t.out[0] != s[0];
    } else {
      assert |Decode(s)| < |s|;
    }
  }


  // ---- In numbers ----

  /** The escapes of one letter, the backslash itself, and what nobody knows. */
  lemma LettersInNumbers(s: seq<octet>)
    requires |s| >= 2 && s[0] == 92
    ensures s[1] == 'e' as int ==> Next(s) == Token([27], 2)
    ensures s[1] == 'f' as int ==> Next(s) == Token([12], 2)
    ensures s[1] == 'n' as int ==> Next(s) == Token([10], 2)
    ensures s[1] == 'r' as int ==> Next(s) == Token([13], 2)
    ensures s[1] == 't' as int ==> Next(s) == Token([9], 2)
    ensures s[1] == 'v' as int ==> Next(s) == Token([11], 2)
    ensures s[1] == 92 ==> Next(s) == Token([92], 2)
    ensures s[1] !in {92, 101, 102, 110, 114, 116, 118, 120} && !(48 <= s[1] <= 55) ==>
              Next(s) == Token([s[1], s[1]], 2)
  {
  }

  lemma HexInNumbers(c: octet)
    ensures Hex(c) <==> 48 <= c <= 57 || 65 <= c <= 70 || 97 <= c <= 102
    ensures Hex(c) ==> HexValue(c) == if c <= 57 then c - 48 else if c <= 70 then c - 55 else c - 87
  {
  }

  /** Up to two hexadecimal digits behind an x; without any the x is written twice. */
  lemma HexEscape(s: seq<octet>)
    requires |s| >= 2 && s[0] == 92 && s[1] == 'x' as int
    ensures Next(s) ==
            if |s| == 2 || !Hex(s[2]) then Token([120, 120], 2)
            else if |s| == 3 || !Hex(s[3]) then Token([HexValue(s[2])], 3)
            else Token([16 * HexValue(s[2]) + HexValue(s[3])], 4)
  {
  }

  /** Up to three octal digits, of which only the value modulo 256 stays. */
  lemma OctalEscape(s: seq<octet>)
    requires |s| >= 2 && s[0] == 92 && 49 <= s[1] <= 55
    ensures var a: int := s[1] - 48;
            if |s| == 2 || !(48 <= s[2] <= 55) then Next(s) == Token([a], 2)
            else
              var b: int := s[2] - 48;
              if |s| == 3 || !(48 <= s[3] <= 55) then Next(s) == Token([8 * a + b], 3)
              else var c: int := s[3] - 48; Next(s) == Token([(64 * a + 8 * b + c) % 256], 4)
  {
  }

  /** A zero in front of them does not count; alone it is the zero byte. */
  lemma ZeroEscape(s: seq<octet>)
    requires |s| >= 2 && s[0] == 92 && s[1] == 48
    ensures if |s| == 2 || !(48 <= s[2] <= 55) then Next(s) == Token([0], 2)
            else
              var a: int := s[2] - 48;
              if |s| == 3 || !(48 <= s[3] <= 55) then Next(s) == Token([a], 3)
              else
                var b: int := s[3] - 48;
                if |s| == 4 || !(48 <= s[4] <= 55) then Next(s) == Token([8 * a + b], 4)
                else var c: int := s[4] - 48; Next(s) == Token([(64 * a + 8 * b + c) % 256], 5)
  {
  }

  // ---- The loop ----

  /** The index of the first zero byte. */
  function StringEnd(a: seq<octet>): (n: nat)
    requires 0 in a
    ensures n < |a| && a[n] == 0 && forall k :: 0 <= k < n ==> a[k] != 0
  {
    if a[0] == 0 then 0 else 1 + StringEnd(a[1..])
  }

  /** The C string a buffer holds. */
  function TextOf(a: seq<octet>): (text: seq<octet>)
    requires 0 in a
    ensures |text| < |a| && text == a[..|text|] && a[|text|] == 0 && forall k :: 0 <= k < |text| ==> a[k] != 0
  {
    a[..StringEnd(a)]
  }

  predicate TextIn(a: array<octet>, start: nat, end: nat)
    reads a
  {
    start <= end < a.Length && a[end] == 0 && forall k :: start <= k < end ==> a[k] != 0
  }

  /** The digits after the first one of an octal escape. */
  method ReadOctal(a: array<octet>, at: nat, ghost start: nat, ghost end: nat) returns (c: octet, s: nat)
    requires start <= at < end && TextIn(a, start, end) && Octal(a[at])
    ensures at < s <= end
    ensures Token([c], s - start) == OctalToken(a[start..end], at - start)
  {
    ghost var text := a[start..end];
    assert text[at - start] == a[at];
    c := a[at] - Ascii('0');
    s := at + 1;
    assert s < end ==> text[s - start] == a[s];
    assert !Octal(0);
    if Octal(a[s]) {
      assert 8 * c + (a[s] - Ascii('0')) < 64;
      c := (c * 8 + (a[s] - Ascii('0'))) % 256;
      s := s + 1;
      assert s < end ==> text[s - start] == a[s];
      if Octal(a[s]) {
        c := (c * 8 + (a[s] - Ascii('0'))) % 256;
        s := s + 1;
      }
    }
  }

  /** One escape: the character it yields, where reading goes on, and whether the character is written twice. */
  method ReadEscape(a: array<octet>, start: nat, ghost end: nat) returns (c: octet, s: nat, twice: bool)
    requires TextIn(a, start, end) && start + 1 < end && a[start] == BACKSLASH
    ensures start < s <= end
    ensures Token(if twice then [c, c] else [c], s - start) == Next(a[start..end])
  {
    hide OctalToken;
    ghost var text := a[start..end];
    assert text[0] == a[start] && text[1] == a[start + 1];
    assert start + 2 < end ==> text[2] == a[start + 2];
    assert start + 3 < end ==> text[3] == a[start + 3];
    c := a[start + 1];
    s := start + 2;
    twice := false;
    if HasLetter(c) {
      c := Letter(c);
    } else if c == Ascii('x') {
      if !Hex(a[s]) {
        twice := true;
      } else {
        c := HexValue(a[s]);
        s := s + 1;
        if Hex(a[s]) {
          c := (c * 16 + HexValue(a[s])) % 256;
          s := s + 1;
        }
      }
    } else if c == Ascii('0') {
      c := 0;
      if Octal(a[s]) {
        c, s := ReadOctal(a, s, start, end);
      }
    } else if Octal(c) {
      c, s := ReadOctal(a, s - 1, start, end);
    } else if c != BACKSLASH {
      twice := true;
    }
  }

  /** Between two escapes: `front` is decoded, and from the write index on the buffer is as it was. */
  predicate Progress(a: seq<octet>, was: seq<octet>, text: seq<octet>, p: nat, s: nat) {
    && p <= s <= |text| < |a| == |was|
    && a[p..] == was[p..]
    && Decode(text) == a[..p] + Decode(text[s..])
  }

  lemma Advance(a: seq<octet>, was: seq<octet>, text: seq<octet>, p: nat, s: nat, b: seq<octet>)
    requires Progress(a, was, text, p, s) && s < |text|
    requires var out := Next(text[s..]).out; p + |out| <= |a| && b == a[..p] + out + a[p + |out|..]
    ensures var t := Next(text[s..]); p + |t.out| <= s + t.used && Progress(b, was, text, p + |t.out|, s + t.used)
  {
    hide Next;
    var t := Next(text[s..]);
    var q := p + |t.out|;
    assert b[..q] == a[..p] + t.out;
    assert b[q..] == a[q..] == a[p..][|t.out|..] == was[p..][|t.out|..] == was[q..];
    assert text[s..][t.used..] == text[s + t.used..];
    assert Decode(text[s..]) == t.out + Decode(text[s + t.used..]);
    assert a[..p] + (t.out + Decode(text[s + t.used..])) == a[..p] + t.out + Decode(text[s + t.used..]);
  }

  /** Unread characters are still those of the text. */
  lemma Unread(a: seq<octet>, was: seq<octet>, text: seq<octet>, p: nat, s: nat)
    requires Progress(a, was, text, p, s)
    requires text == was[..|text|] && was[|text|] == 0 && forall k :: 0 <= k < |text| ==> was[k] != 0
    ensures a[s..|text|] == text[s..] && a[|text|] == 0 && forall k :: s <= k < |text| ==> a[k] == text[k] != 0
  {
    hide Decode;
    assert forall k :: p <= k < |a| ==> a[k] == a[p..][k - p] == was[p..][k - p] == was[k];
  }

  method Emit(a: array<octet>, p: nat, c: octet, twice: bool) returns (q: nat)
    requires p + (if twice then 2 else 1) <= a.Length
    modifies a
    ensures q == p + if twice then 2 else 1
    ensures a[..] == old(a[..p]) + (if twice then [c, c] else [c]) + old(a[q..])
  {
    q := p;
    if twice {
      a[q] := c;
      q := q + 1;
    }
    a[q] := c;
    q := q + 1;
  }

  lemma PlainToken(rest: seq<octet>)
    requires rest != [] && (rest[0] != BACKSLASH || |rest| == 1)
    ensures Next(rest) == Token([rest[0]], 1)
  {
  }

  method ReadToken(a: array<octet>, start: nat, ghost end: nat) returns (c: octet, s: nat, twice: bool)
    requires TextIn(a, start, end) && start < end
    ensures start < s <= end
    ensures Token(if twice then [c, c] else [c], s - start) == Next(a[start..end])
  {
    hide Next;
    c, s, twice := a[start], start + 1, false;
    if c == BACKSLASH && a[s] != 0 {
      c, s, twice := ReadEscape(a, start, end);
    } else {
      PlainToken(a[start..end]);
    }
  }

  /** One round of the loop. */
  method DecodeOne(a: array<octet>, s: nat, p: nat, ghost was: seq<octet>, ghost text: seq<octet>)
    returns (s': nat, p': nat)
    requires p <= s < |text| < a.Length == |was| && Progress(a[..], was, text, p, s)
    requires text == was[..|text|] && was[|text|] == 0 && forall k :: 0 <= k < |text| ==> was[k] != 0
    modifies a
    ensures s < s' <= |text| && p' <= s' && Progress(a[..], was, text, p', s')
  {
    hide Next, Decode, Progress;
    Unread(a[..], was, text, p, s);
    ghost var before := a[..];
    var c, twice;
    c, s', twice := ReadToken(a, s, |text|);
    p' := Emit(a, p, c, twice);
    Advance(before, was, text, p, s, a[..]);
  }

  /** zc_unescape. The result is the length of the decoded text, which stands at the front of the buffer. */
  method UnescapeInPlace(a: array<octet>) returns (n: nat)
    requires 0 in a[..]
    modifies a
    ensures var text := TextOf(old(a[..])); n == |Decode(text)| <= |text| && a[..n] == Decode(text)
    ensures a[n] == 0 && a[n + 1..] == old(a[n + 1..])
  {
    hide Next, Decode, Progress, TextOf;
    ghost var was := a[..];
    ghost var text := TextOf(was);
    var s: nat, p: nat := 0, 0;
    Begin(was, text);
    Unread(was, was, text, 0, 0);
    while a[s] != 0
      invariant p <= s <= |text| < a.Length
      invariant Progress(a[..], was, text, p, s)
      invariant forall k :: s <= k < |text| ==> a[k] != 0
      invariant a[|text|] == 0
      decreases |text| - s
    {
      s, p := DecodeOne(a, s, p, was, text);
      Unread(a[..], was, text, p, s);
    }
    End(a[..], was, text, p, s);
    ghost var done := a[..];
    a[p] := 0;
    n := p;
    assert a[..n] == done[..n] && a[n + 1..] == done[n + 1..];
  }

  lemma Begin(was: seq<octet>, text: seq<octet>)
    requires |text| < |was|
    ensures Progress(was, was, text, 0, 0)
  {
    hide Decode;
    assert text[0..] == text && was[..0] == [];
  }

  lemma End(a: seq<octet>, was: seq<octet>, text: seq<octet>, p: nat, s: nat)
    requires Progress(a, was, text, p, s) && s == |text|
    ensures p <= s < |a| && Decode(text) == a[..p] && a[p + 1..] == was[p + 1..]
  {
    assert text[s..] == [];
    assert a[p + 1..] == a[p..][1..] && was[p + 1..] == was[p..][1..];
  }
}

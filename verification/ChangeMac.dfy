/** The Atheros EEPROM editor: patch one field of a flash image, then make the xor of its words come out right. */
module ChangeMac {
  import opened Bytes
  import opened Words

  const START: nat := 0x1200
  const CRC: nat := START + 0x02
  const ANTENNA: nat := START + 0x08
  const WLAN_MAC: nat := START + 0x0c
  const COUNTRY: nat := START + 0x12
  const MAX_SIZE: nat := 131072

  /** What the command line asks for. The text of an address must have seventeen characters; a mode the tool does
      not know only recomputes the checksum. */
  datatype Request =
    | Recompute
    | Mac(textLength: nat, mac: seq<byte>)
    | Country(country: seq<byte>)
    | Antenna(antenna: seq<byte>)

  predicate WellFormed(r: Request) {
    match r
    case Recompute => true
    case Mac(_, mac) => |mac| == 6
    case Country(country) => |country| == 2
    case Antenna(antenna) => |antenna| == 2
  }

  /** Where a request writes, and what. */
  function Place(r: Request): nat {
    match r
    case Recompute => COUNTRY
    case Mac(_, _) => WLAN_MAC
    case Country(_) => COUNTRY
    case Antenna(_) => ANTENNA
  }

  function Field(r: Request): seq<byte> {
    match r
    case Recompute => []
    case Mac(_, mac) => mac
    case Country(country) => country
    case Antenna(antenna) => antenna
  }

  predicate Refused(r: Request) {
    r.Mac? && r.textLength != 17
  }

  // ---- Words of the EEPROM, low byte first ----

  function Word(low: byte, high: byte): word {
    (low as word) | (high as word << 8)
  }

  lemma WordParts(w: word)
    ensures Word(Lo8(w), Hi8(w)) == w
  {
  }

  lemma PartsOfWord(low: byte, high: byte)
    ensures Lo8(Word(low, high)) == low && Hi8(Word(low, high)) == high
  {
  }

  function WordAt(f: seq<byte>, k: nat): word
    requires START + 2 * k + 2 <= |f|
  {
    Word(f[START + 2 * k], f[START + 2 * k + 1])
  }

  /** The size the image itself declares. */
  function Size(f: seq<byte>): nat
    requires START + 2 <= |f|
  {
    WordAt(f, 0) as nat
  }

  /** How many words the loop visits. */
  function WordCount(f: seq<byte>): nat
    requires START + 2 <= |f|
  {
    (Size(f) + 1) / 2
  }

  /** Images on which the tool stays inside its buffer. */
  predicate Fits(f: seq<byte>) {
    COUNTRY + 2 <= |f| && START + 2 * WordCount(f) <= |f|
  }

  /** The xor of the first `n` words, with and without the checksum word. */
  function Sum(f: seq<byte>, n: nat): word
    requires START + 2 * n <= |f|
  {
    if n == 0 then 0 else Xor(Sum(f, n - 1), WordAt(f, n - 1))
  }

  function SumOfRest(f: seq<byte>, n: nat): word
    requires START + 2 * n <= |f|
  {
    if n == 0 then 0
    else if n == 2 then SumOfRest(f, 1)
    else Xor(SumOfRest(f, n - 1), WordAt(f, n - 1))
  }

  function Checksum(f: seq<byte>): word
    requires Fits(f)
  {
    Xor(SumOfRest(f, WordCount(f)), 0xffff)
  }

  predicate Sound(f: seq<byte>)
    requires Fits(f)
  {
    Sum(f, WordCount(f)) == 0xffff
  }

  // ---- The tool ----

  function Patched(f: seq<byte>, r: Request): (g: seq<byte>)
    requires COUNTRY + 2 <= |f| && WellFormed(r)
    ensures |g| == |f|
  {
    Splice(f, Place(r), Field(r))
  }

  function Fixed(f: seq<byte>): (g: seq<byte>)
    requires Fits(f)
    ensures |g| == |f|
  {
    Splice(f, CRC, [Lo8(Checksum(f)), Hi8(Checksum(f))])
  }

  method ComputeChecksum(a: array<byte>, size: nat) returns (crc: word)
    requires Fits(a[..]) && size == Size(a[..])
    ensures crc == Checksum(a[..])
  {
    hide Xor, Word;
    crc := 0;
    var i := 0;
    while i < size
      invariant i % 2 == 0 && i / 2 <= WordCount(a[..])
      invariant crc == SumOfRest(a[..], i / 2)
    {
      if i != 2 {
        var data := Word(a[START + i], a[START + i + 1]);
        assert data == WordAt(a[..], i / 2);
        crc := Xor(crc, data);
      }
      i := i + 2;
    }
    crc := Xor(crc, 0xffff);
  }

  datatype Outcome = NothingWritten | Written(bytes: seq<byte>)

  /** The whole run, from the source file to the result file. */
  method Run(source: seq<byte>, r: Request) returns (result: Outcome)
    requires |source| <= MAX_SIZE ==> Fits(source)
    requires WellFormed(r)
    ensures result == if |source| > MAX_SIZE || Refused(r) then NothingWritten else Written(Rewritten(source, r))
  {
    hide Checksum, Splice, Word;
    if |source| > MAX_SIZE {
      return NothingWritten;
    }
    var eeprom := new byte[|source|](k requires 0 <= k < |source| => source[k]);
    assert eeprom[..] == source;
    var size := Word(eeprom[START], eeprom[START + 1]) as nat;
    match r {
      case Recompute =>
        SpliceNothing(source, COUNTRY);
      case Mac(textLength, mac) =>
        if textLength == 17 {
          CopyInto(eeprom, WLAN_MAC, mac);
        } else {
          return NothingWritten;
        }
      case Country(country) =>
        CopyInto(eeprom, COUNTRY, country);
      case Antenna(antenna) =>
        CopyInto(eeprom, ANTENNA, antenna);
    }
    assert eeprom[..] == Patched(source, r);
    PatchKeepsSize(source, r);
    var crc := ComputeChecksum(eeprom, size);
    CopyInto(eeprom, CRC, [Lo8(crc), Hi8(crc)]);
    result := Written(eeprom[..]);
  }

  /** No request touches the size word or the checksum word. */
  lemma PatchKeepsSize(f: seq<byte>, r: Request)
    requires COUNTRY + 2 <= |f| && WellFormed(r)
    ensures forall k :: 0 <= k < START + 8 ==> Patched(f, r)[k] == f[k]
    ensures Size(Patched(f, r)) == Size(f) && (Fits(f) ==> Fits(Patched(f, r)))
  {
    hide Splice, Word;
    forall k | 0 <= k < START + 8
      ensures Patched(f, r)[k] == f[k]
    {
      SpliceAt(f, Place(r), Field(r), k);
    }
  }

  function Rewritten(f: seq<byte>, r: Request): (g: seq<byte>)
    requires Fits(f) && WellFormed(r)
    ensures |g| == |f|
  {
    PatchKeepsSize(f, r);
    Fixed(Patched(f, r))
  }

  // ---- What the tool promises ----

  lemma XorCancels(x: word, y: word)
    ensures Xor(x, Xor(x, y)) == y && Xor(x, 0) == x
    ensures Xor(x, y) == 0xffff <==> y == Xor(x, 0xffff)
  {
  }

  lemma {:induction false} SumWithChecksum(f: seq<byte>, n: nat)
    requires START + 2 * n <= |f|
    ensures Sum(f, n) == if n > 1 then Xor(SumOfRest(f, n), WordAt(f, 1)) else SumOfRest(f, n)
  {
    hide Xor, WordAt;
    if n == 0 {
    } else {
      SumWithChecksum(f, n - 1);
      if n > 2 {
        XorSwap(SumOfRest(f, n - 1), WordAt(f, 1), WordAt(f, n - 1));
      }
    }
  }

  /** The checksum stored is the checksum computed. */
  predicate ChecksumStored(f: seq<byte>)
    requires Fits(f)
  {
    f[CRC] == Lo8(Checksum(f)) && f[CRC + 1] == Hi8(Checksum(f))
  }

  lemma StoredWord(f: seq<byte>)
    requires Fits(f)
    ensures ChecksumStored(f) <==> WordAt(f, 1) == Checksum(f)
  {
    hide Checksum, Word, Lo8, Hi8;
    WordParts(Checksum(f));
    PartsOfWord(f[CRC], f[CRC + 1]);
  }

  /** The xor of all words is 0xFFFF exactly when the image reaches its own checksum and holds the right one. */
  lemma SoundIffStored(f: seq<byte>)
    requires Fits(f)
    ensures Sound(f) <==> Size(f) > 2 && ChecksumStored(f)
  {
    hide Xor, WordAt, Sum, SumOfRest;
    var n := WordCount(f);
    StoredWord(f);
    SumWithChecksum(f, n);
    XorCancels(SumOfRest(f, n), WordAt(f, 1));
    if Size(f) <= 2 {
      TinySums(f, n);
    }
  }

  lemma TinySums(f: seq<byte>, n: nat)
    requires n <= 1 && START + 2 <= |f| && Size(f) <= 2
    ensures Sum(f, n) != 0xffff
  {
    hide Word;
    assert WordAt(f, 0) != 0xffff;
    assert n == 1 ==> Sum(f, n) == Xor(Sum(f, 0), WordAt(f, 0));
  }

  /** The two images agree on everything the checksum covers. */
  predicate AgreeOffChecksum(f: seq<byte>, g: seq<byte>) {
    |f| == |g| && forall k :: 0 <= k < |f| && k != CRC && k != CRC + 1 ==> f[k] == g[k]
  }

  lemma {:induction false} RestDepends(f: seq<byte>, g: seq<byte>, n: nat)
    requires AgreeOffChecksum(f, g) && START + 2 * n <= |f|
    ensures SumOfRest(f, n) == SumOfRest(g, n)
  {
    hide Xor, Word;
    if n == 0 {
    } else {
      RestDepends(f, g, n - 1);
      if n != 2 {
        assert f[START + 2 * (n - 1)] == g[START + 2 * (n - 1)];
        assert f[START + 2 * (n - 1) + 1] == g[START + 2 * (n - 1) + 1];
      }
    }
  }

  lemma SizeDepends(f: seq<byte>, g: seq<byte>)
    requires AgreeOffChecksum(f, g) && START + 2 <= |f|
    ensures Size(f) == Size(g)
  {
    hide Word;
    assert f[START] == g[START] && f[START + 1] == g[START + 1];
  }

  lemma ChecksumIs(f: seq<byte>)
    requires Fits(f)
    ensures START + 2 * WordCount(f) <= |f| && Checksum(f) == Xor(SumOfRest(f, WordCount(f)), 0xffff)
  {
    hide Xor, SumOfRest, WordCount;
  }

  lemma ChecksumDepends(f: seq<byte>, g: seq<byte>)
    requires AgreeOffChecksum(f, g) && Fits(f)
    ensures Size(f) == Size(g) && Fits(g) && Checksum(f) == Checksum(g)
  {
    SizeDepends(f, g);
    assert |f| == |g|;
    assert WordCount(f) == WordCount(g) && Fits(g);
    hide *;
    RestDepends(f, g, WordCount(f));
    ChecksumIs(f);
    ChecksumIs(g);
  }

  lemma FixedAgrees(f: seq<byte>)
    requires Fits(f)
    ensures AgreeOffChecksum(f, Fixed(f)) && Fits(Fixed(f)) && Size(Fixed(f)) == Size(f)
    ensures Checksum(Fixed(f)) == Checksum(f) && ChecksumStored(Fixed(f))
  {
    hide Checksum, Splice;
    forall k | 0 <= k < |f|
      ensures Fixed(f)[k] == if k == CRC then Lo8(Checksum(f)) else if k == CRC + 1 then Hi8(Checksum(f)) else f[k]
    {
      SpliceAt(f, CRC, [Lo8(Checksum(f)), Hi8(Checksum(f))], k);
    }
    ChecksumDepends(f, Fixed(f));
  }

  /** Fixing looks at everything but the stored checksum. */
  lemma FixedDepends(f: seq<byte>, g: seq<byte>)
    requires AgreeOffChecksum(f, g) && Fits(f)
    ensures Fits(g) && Fixed(f) == Fixed(g)
  {
    hide Checksum, Splice;
    ChecksumDepends(f, g);
    var field := [Lo8(Checksum(f)), Hi8(Checksum(f))];
    forall k | 0 <= k < |f|
      ensures Fixed(f)[k] == Fixed(g)[k]
    {
      SpliceAt(f, CRC, field, k);
      SpliceAt(g, CRC, field, k);
    }
  }

  lemma FixedIsIdentity(f: seq<byte>)
    requires Fits(f)
    ensures Fixed(f) == f <==> ChecksumStored(f)
  {
    hide Checksum, Splice;
    FixedAgrees(f);
    forall k | 0 <= k < |f|
      ensures Fixed(f)[k] == if k == CRC then Lo8(Checksum(f)) else if k == CRC + 1 then Hi8(Checksum(f)) else f[k]
    {
      SpliceAt(f, CRC, [Lo8(Checksum(f)), Hi8(Checksum(f))], k);
    }
  }

  /** After the tool the xor of all words is 0xFFFF, unless the declared size stops short of the checksum. */
  lemma RewrittenIsSound(f: seq<byte>, r: Request)
    requires Fits(f) && WellFormed(r)
    ensures Fits(Rewritten(f, r)) && (Sound(Rewritten(f, r)) <==> Size(f) > 2)
  {
    hide Fixed, Patched, Checksum, Sound;
    PatchKeepsSize(f, r);
    FixedAgrees(Patched(f, r));
    SoundIffStored(Rewritten(f, r));
  }

  /** Only the field and the two checksum bytes change. */
  lemma RewrittenKeeps(f: seq<byte>, r: Request, k: nat)
    requires Fits(f) && WellFormed(r) && k < |f|
    ensures !(Place(r) <= k < Place(r) + |Field(r)|) && k != CRC && k != CRC + 1 ==> Rewritten(f, r)[k] == f[k]
    ensures Place(r) <= k < Place(r) + |Field(r)| ==> Rewritten(f, r)[k] == Field(r)[k - Place(r)]
  {
    hide Fixed, Splice, Checksum;
    PatchKeepsSize(f, r);
    FixedAgrees(Patched(f, r));
    SpliceAt(f, Place(r), Field(r), k);
  }

  lemma PatchedAgrees(f: seq<byte>, g: seq<byte>, r: Request)
    requires AgreeOffChecksum(f, g) && COUNTRY + 2 <= |f| && WellFormed(r)
    ensures AgreeOffChecksum(Patched(f, r), Patched(g, r))
  {
    hide Splice;
    forall k | 0 <= k < |f| && k != CRC && k != CRC + 1
      ensures Patched(f, r)[k] == Patched(g, r)[k]
    {
      SpliceAt(f, Place(r), Field(r), k);
      SpliceAt(g, Place(r), Field(r), k);
    }
  }

  predicate AllWellFormed(rs: seq<Request>) {
    forall k :: 0 <= k < |rs| ==> WellFormed(rs[k])
  }

  /** Runs of the tool, each on the result of the one before. */
  function RewrittenAll(f: seq<byte>, rs: seq<Request>): (g: seq<byte>)
    requires Fits(f) && AllWellFormed(rs)
    ensures |g| == |f| && Fits(g)
  {
    if rs == [] then f
    else
      var g := RewrittenAll(f, rs[..|rs| - 1]);
      PatchKeepsSize(g, rs[|rs| - 1]);
      FixedAgrees(Patched(g, rs[|rs| - 1]));
      Rewritten(g, rs[|rs| - 1])
  }

  function PatchedAll(f: seq<byte>, rs: seq<Request>): (g: seq<byte>)
    requires Fits(f) && AllWellFormed(rs)
    ensures |g| == |f| && Fits(g)
  {
    if rs == [] then f
    else
      var g := PatchedAll(f, rs[..|rs| - 1]);
      PatchKeepsSize(g, rs[|rs| - 1]);
      Patched(g, rs[|rs| - 1])
  }

  lemma {:induction false} RunsAgree(f: seq<byte>, rs: seq<Request>)
    requires Fits(f) && AllWellFormed(rs)
    ensures AgreeOffChecksum(PatchedAll(f, rs), RewrittenAll(f, rs))
    ensures rs != [] ==> RewrittenAll(f, rs) == Fixed(PatchedAll(f, rs))
  {
    hide Patched, Fixed, Checksum, Fits;
    if rs == [] {
    } else {
      var n := |rs| - 1;
      RunsAgree(f, rs[..n]);
      var g, h := PatchedAll(f, rs[..n]), RewrittenAll(f, rs[..n]);
      RoomForFields(g);
      PatchedAgrees(g, h, rs[n]);
      PatchKeepsSize(g, rs[n]);
      FixedDepends(Patched(g, rs[n]), Patched(h, rs[n]));
      FixedAgrees(Patched(g, rs[n]));
    }
  }

  lemma RoomForFields(f: seq<byte>)
    requires Fits(f)
    ensures COUNTRY + 2 <= |f|
  {
  }

  /** Any series of runs leaves what patching all the fields and computing the checksum once would leave. */
  lemma SeriesOfRuns(f: seq<byte>, rs: seq<Request>)
    requires Fits(f) && AllWellFormed(rs) && rs != []
    ensures RewrittenAll(f, rs) == Fixed(PatchedAll(f, rs))
  {
    hide *;
    RunsAgree(f, rs);
  }

  /** A second run that only recomputes, or repeats the same request, changes nothing. */
  lemma SecondRunChangesNothing(f: seq<byte>, r: Request)
    requires Fits(f) && WellFormed(r)
    ensures Fits(Rewritten(f, r))
    ensures Rewritten(Rewritten(f, r), Recompute) == Rewritten(f, r)
    ensures Rewritten(Rewritten(f, r), r) == Rewritten(f, r)
  {
    hide Fixed, Splice, Checksum;
    PatchKeepsSize(f, r);
    var p := Patched(f, r);
    var g := Fixed(p);
    FixedAgrees(p);
    FixedIsIdentity(g);
    SpliceNothing(g, COUNTRY);
    assert Patched(g, r) == g by {
      forall k | 0 <= k < |f|
        ensures Patched(g, r)[k] == g[k]
      {
        SpliceAt(f, Place(r), Field(r), k);
        SpliceAt(g, Place(r), Field(r), k);
      }
    }
  }

  /** Writing the old field back restores the image exactly when its checksum was right to begin with. */
  lemma UndoRestores(f: seq<byte>, r: Request, back: Request)
    requires Fits(f) && WellFormed(r) && WellFormed(back)
    requires Place(back) == Place(r) && |Field(back)| == |Field(r)|
    requires Field(back) == f[Place(r)..Place(r) + |Field(r)|]
    ensures Fits(Rewritten(f, r))
    ensures Rewritten(Rewritten(f, r), back) == f <==> ChecksumStored(f)
    ensures Size(f) > 2 ==> (Rewritten(Rewritten(f, r), back) == f <==> Sound(f))
  {
    hide Fixed, Splice, Checksum, Sound, ChecksumStored;
    PatchKeepsSize(f, r);
    var p := Patched(f, r);
    FixedAgrees(p);
    var g := Fixed(p);
    PatchedAgrees(p, g, back);
    assert Patched(p, back) == f by {
      forall k | 0 <= k < |f|
        ensures Patched(p, back)[k] == f[k]
      {
        SpliceAt(f, Place(r), Field(r), k);
        SpliceAt(p, Place(r), Field(back), k);
      }
    }
    FixedDepends(f, Patched(g, back));
    FixedIsIdentity(f);
    SoundIffStored(f);
  }

  lemma {:induction false} SumDiffersAt(f: seq<byte>, g: seq<byte>, n: nat, k: nat)
    requires |f| == |g| && START + 2 * n <= |f|
    requires forall i :: 0 <= i < n && i != k ==> WordAt(f, i) == WordAt(g, i)
    ensures if k < n then Xor(Sum(f, n), Sum(g, n)) == Xor(WordAt(f, k), WordAt(g, k)) else Sum(f, n) == Sum(g, n)
  {
    hide Xor, WordAt;
    if n == 0 {
    } else {
      SumDiffersAt(f, g, n - 1, k);
      XorOfSums(Sum(f, n - 1), WordAt(f, n - 1), Sum(g, n - 1), WordAt(g, n - 1));
    }
  }

  lemma XorOfSums(a: word, x: word, b: word, y: word)
    ensures a == b ==> Xor(Xor(a, x), Xor(b, y)) == Xor(x, y)
    ensures x == y ==> Xor(Xor(a, x), Xor(b, y)) == Xor(a, b)
  {
  }

  /** A sound image with one of its words altered, the size word apart, is not sound. */
  lemma OneWordShows(f: seq<byte>, g: seq<byte>, k: nat)
    requires Fits(f) && |g| == |f| && 0 < k < WordCount(f)
    requires forall i :: 0 <= i < WordCount(f) && i != k ==> WordAt(f, i) == WordAt(g, i)
    ensures Fits(g) && (Sound(f) && WordAt(f, k) != WordAt(g, k) ==> !Sound(g))
  {
    hide Xor, Sum, Word;
    assert WordAt(f, 0) == WordAt(g, 0);
    SumDiffersAt(f, g, WordCount(f), k);
    if Sum(f, WordCount(f)) == Sum(g, WordCount(f)) {
      XorSame(Sum(f, WordCount(f)));
      XorZero(WordAt(f, k), WordAt(g, k));
    }
  }

  // ---- In numbers ----

  /** Every byte of the result: an address goes to 0x120c, a country to 0x1212, antennas to 0x1208, the checksum to
      0x1202 and 0x1203, and everything else stays. */
  lemma ResultInNumbers(f: seq<byte>, r: Request, k: nat)
    requires Fits(f) && WellFormed(r) && k < |f|
    ensures r.Mac? && 0x120c <= k < 0x1212 ==> Rewritten(f, r)[k] == r.mac[k - 0x120c]
    ensures r.Country? && 0x1212 <= k < 0x1214 ==> Rewritten(f, r)[k] == r.country[k - 0x1212]
    ensures r.Antenna? && 0x1208 <= k < 0x120a ==> Rewritten(f, r)[k] == r.antenna[k - 0x1208]
    ensures (r.Mac? && 0x120c <= k < 0x1212) || (r.Country? && 0x1212 <= k < 0x1214)
            || (r.Antenna? && 0x1208 <= k < 0x120a) || k == 0x1202 || k == 0x1203 || Rewritten(f, r)[k] == f[k]
  {
    hide Rewritten;
    RewrittenKeeps(f, r, k);
  }

  /** What is refused: an address whose text has not seventeen characters, and files above 128 KiB. */
  lemma RefusalsInNumbers(r: Request)
    ensures Refused(r) <==> r.Mac? && r.textLength != 17
    ensures MAX_SIZE == 128 * 1024
  {
  }

  lemma WordIs(low: byte, high: byte) ensures Word(low, high) == (low as word) | (high as word << 8) {}

  lemma WordAtIs(f: seq<byte>, k: nat)
    requires 0x1202 + 2 * k <= |f|
    ensures WordAt(f, k) == (f[0x1200 + 2 * k] as word) | (f[0x1201 + 2 * k] as word << 8)
  {
    hide Word;
    WordIs(f[0x1200 + 2 * k], f[0x1201 + 2 * k]);
  }

  lemma SoundIs(f: seq<byte>, size: word)
    requires Fits(f) && size == Word(f[START], f[START + 1])
    ensures WordCount(f) == (size as nat + 1) / 2
    ensures Sound(f) <==> Sum(f, WordCount(f)) == 0xffff
  {
    hide Sum, Word;
  }

  lemma {:induction false} SumIsTotal(f: seq<byte>, n: nat, words: seq<word>, t: seq<word>)
    requires START + 2 * n <= |f| && n <= |words| && |t| > n && t[0] == 0
    requires forall k :: 0 <= k < n ==> words[k] == WordAt(f, k)
    requires forall k :: 0 <= k < n ==> t[k + 1] == Xor(t[k], words[k])
    ensures Sum(f, n) == t[n]
  {
    hide Xor, Word;
    if n == 0 {
    } else {
      SumIsTotal(f, n - 1, words, t);
      assert t[n - 1 + 1] == Xor(t[n - 1], words[n - 1]);
    }
  }

  /** Soundness against the words from 0x1200 on, low byte first, and their running exclusive ors; the first word
      declares how many bytes they are, an odd one counted in full. */
  lemma SoundInNumbers(f: seq<byte>, size: word, n: nat, words: seq<word>, t: seq<word>)
    requires Fits(f) && size == (f[0x1200] as word) | (f[0x1201] as word << 8) && n == (size as nat + 1) / 2
    requires |words| == n && |t| == n + 1 && t[0] == 0 && 0x1200 + 2 * n <= |f|
    requires forall k :: 0 <= k < n ==> words[k] == (f[0x1200 + 2 * k] as word) | (f[0x1201 + 2 * k] as word << 8)
    requires forall k :: 0 <= k < n ==> t[k + 1] == t[k] ^ words[k]
    ensures Sound(f) <==> t[n] == 0xffff
  {
    hide Sum, Xor, Word, Sound, WordCount;
    WordIs(f[0x1200], f[0x1201]);
    SoundIs(f, size);
    forall k | 0 <= k < n
      ensures words[k] == WordAt(f, k)
    {
      WordAtIs(f, k);
    }
    forall k | 0 <= k < n
      ensures t[k + 1] == Xor(t[k], words[k])
    {
      XorIs(t[k], words[k]);
    }
    SumIsTotal(f, n, words, t);
  }
}

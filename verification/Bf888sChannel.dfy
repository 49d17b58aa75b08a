/** BF-888S channel records: BCD frequencies, squelch words and flag bits, sixteen bytes a channel. */
module Bf888sChannel {
  import opened Bytes
  import opened Bcd
  import opened SquelchSettings

  const NCHAN := 16
  const RECORD := 16
  const TABLE := 0x10

  // ---- Squelch ----

  /** Four digits in nibbles; the thousands get a whole nibble, so they may go up to fifteen. */
  function SquelchWord(val: nat): (w: nat)
    ensures w < 0x1_0000
  {
    FourNibbles(val / 1000 % 16, val / 100 % 10, val / 10 % 10, val % 10)
  }

  function FourNibbles(a: nat, b: nat, c: nat, d: nat): nat {
    a * 0x1000 + b * 0x100 + c * 0x10 + d
  }

  function EncodeSquelch(t: Tone): (w: nat)
    ensures w < 0x1_0000
  {
    match t
    case Off => 0
    case Ctcss(tenths) => SquelchWord(tenths)
    case Dcs(code, inverted) =>
      if code < 1 || code >= 999 then 0 else SquelchWord(code + if inverted then 12000 else 8000)
  }

  function SquelchIndex(w: nat): nat {
    w / 0x1000 % 16 * 1000 + w / 0x100 % 16 * 100 + w / 0x10 % 16 * 10 + w % 16
  }

  function DecodeSquelch(w: nat): Squelch {
    if w == 0 || w == 0xffff then Squelch(0, 0)
    else
      var index := SquelchIndex(w);
      if index < 8000 then Squelch(index, 0)
      else if index < 12000 then Squelch(0, index - 8000)
      else Squelch(0, -(index - 12000))
  }

  lemma NibblesOfSquelch(a: nat, b: nat, c: nat, d: nat)
    requires a < 16 && b < 10 && c < 10 && d < 10
    ensures SquelchIndex(FourNibbles(a, b, c, d)) == a * 1000 + b * 100 + c * 10 + d
  {
    assert FourNibbles(a, b, c, d) == Weighted16(d, c, b, a, 0, 0, 0, 0);
    hide FourNibbles, Weighted16;
    NibblesOf(d, c, b, a, 0, 0, 0, 0);
  }

  lemma SpecialWords(a: nat, b: nat, c: nat, d: nat)
    requires a < 16 && b < 10 && c < 10 && d < 10
    ensures var w := FourNibbles(a, b, c, d); w != 0xffff && (w == 0 <==> a * 1000 + b * 100 + c * 10 + d == 0)
  {
  }

  lemma FourDigitsOf(val: nat)
    ensures val / 1000 * 1000 + val / 100 % 10 * 100 + val / 10 % 10 * 10 + val % 10 == val
    ensures val < 16000 ==> val / 1000 % 16 == val / 1000 < 16
  {
    var v1, v2 := val / 10, val / 100;
    assert v1 / 10 == v2 && v2 / 10 == val / 1000;
  }

  lemma SquelchWordReads(val: nat)
    requires val < 16000
    ensures SquelchWord(val) != 0xffff && (SquelchWord(val) == 0 <==> val == 0)
    ensures SquelchIndex(SquelchWord(val)) == val
  {
    hide FourNibbles, SquelchIndex;
    FourDigitsOf(val);
    NibblesOfSquelch(val / 1000 % 16, val / 100 % 10, val / 10 % 10, val % 10);
    SpecialWords(val / 1000 % 16, val / 100 % 10, val / 10 % 10, val % 10);
  }

  /** Settings that fit the squelch word. */
  predicate Fits(t: Tone) {
    match t
    case Off => true
    case Ctcss(tenths) => tenths < 8000
    case Dcs(code, _) => code < 999
  }

  /** A setting reads back as written exactly when it fits: a tone of 800 Hz or more does not. */
  lemma SquelchRoundTrip(t: Tone)
    ensures DecodeSquelch(EncodeSquelch(t)) == Meaning(t) <==> Fits(t)
  {
    hide SquelchWord, SquelchIndex;
    match t {
      case Off =>
      case Ctcss(tenths) =>
        if tenths < 8000 { SquelchWordReads(tenths); }
      case Dcs(code, inverted) =>
        if 1 <= code < 999 { SquelchWordReads(code + if inverted then 12000 else 8000); }
    }
  }

  /** For example, a tone of 802.3 Hz comes back as the code 23. */
  lemma HighToneBecomesCode()
    ensures DecodeSquelch(EncodeSquelch(Ctcss(8023))) == Squelch(0, 23)
  {
    hide SquelchWord, SquelchIndex;
    SquelchWordReads(8023);
  }

  // ---- Little-endian words ----

  function Word16(w: nat): (b: seq<byte>)
    ensures |b| == 2
  {
    [AsByte(w % 256), AsByte(w / 256 % 256)]
  }

  function Word32(w: nat): (b: seq<byte>)
    ensures |b| == 4
  {
    Word16(w % 0x1_0000) + Word16(w / 0x1_0000)
  }

  function Read16(b: seq<byte>): (w: nat)
    requires |b| == 2
    ensures w < 0x1_0000
  {
    b[0] as nat + 0x100 * b[1] as nat
  }

  function Read32(b: seq<byte>): nat
    requires |b| == 4
  {
    Read16(b[..2]) + 0x1_0000 * Read16(b[2..])
  }

  lemma Word16Reads(w: nat)
    requires w < 0x1_0000
    ensures Read16(Word16(w)) == w
  {
    hide AsByte, Read16;
    var low, high := w % 256, w / 256;
    assert high % 256 == high;
    assert Word16(w) == [AsByte(low), AsByte(high)];
    TwoBytes(AsByte(low), AsByte(high), low, high);
  }

  lemma TwoBytes(a: byte, b: byte, low: nat, high: nat)
    requires a as int == low && b as int == high
    ensures Read16([a, b]) == low + 0x100 * high
  {
  }

  lemma Word32Reads(w: nat)
    requires w < WORD_LIMIT
    ensures Read32(Word32(w)) == w
  {
    hide Word16, Read16;
    Word16Reads(w % 0x1_0000);
    Word16Reads(w / 0x1_0000);
    assert Word32(w)[..2] == Word16(w % 0x1_0000) && Word32(w)[2..] == Word16(w / 0x1_0000);
  }

  // ---- Records ----

  /** Frequencies are in units of 10 Hz. */
  datatype Channel = Channel(rx: nat, tx: nat, rxTone: Tone, txTone: Tone,
                             highPower: bool, wide: bool, scan: bool, bcl: bool, scramble: bool)

  /** What decode_channel reports, frequencies in Hz. */
  datatype View = View(rxHz: nat, txHz: nat, rxSquelch: Squelch, txSquelch: Squelch,
                       lowPower: bool, wide: bool, scan: bool, bcl: bool, scramble: bool)

  datatype Decoded = Disabled | Enabled(view: View)

  /** The flag byte: four of its five flags are stored negated, and the unused bits are set. */
  function FlagByte(ch: Channel): byte {
    0xe0 | (if ch.bcl then 0 else 0x01) | (if ch.scramble then 0 else 0x02) | (if ch.wide then 0 else 0x04)
    | (if ch.highPower then 0x08 else 0) | (if ch.scan then 0 else 0x10)
  }

  lemma FlagsRead(ch: Channel)
    ensures BitSet(FlagByte(ch), 0) == !ch.bcl && BitSet(FlagByte(ch), 1) == !ch.scramble
    ensures BitSet(FlagByte(ch), 2) == !ch.wide && BitSet(FlagByte(ch), 3) == ch.highPower
    ensures BitSet(FlagByte(ch), 4) == !ch.scan
  {
  }

  function Record(ch: Channel): (r: seq<byte>)
    ensures |r| == RECORD
  {
    Word32(IntToBcd(ch.rx) % WORD_LIMIT) + Word32(IntToBcd(ch.tx) % WORD_LIMIT)
    + Word16(EncodeSquelch(ch.rxTone)) + Word16(EncodeSquelch(ch.txTone)) + [FlagByte(ch), 0xff, 0xff, 0xff]
  }

  function DecodeRecord(r: seq<byte>): Decoded
    requires |r| == RECORD
  {
    var rx := Read32(r[0..4]);
    if rx == 0 || rx == 0xffff_ffff then Disabled
    else Enabled(View(BcdToInt(rx) * 10, BcdToInt(Read32(r[4..8])) * 10,
                      DecodeSquelch(Read16(r[8..10])), DecodeSquelch(Read16(r[10..12])),
                      !BitSet(r[12], 3), !BitSet(r[12], 2), !BitSet(r[12], 4), !BitSet(r[12], 0), !BitSet(r[12], 1)))
  }

  lemma RecordParts(ch: Channel)
    ensures var r := Record(ch);
            && r[0..4] == Word32(IntToBcd(ch.rx) % WORD_LIMIT) && r[4..8] == Word32(IntToBcd(ch.tx) % WORD_LIMIT)
            && r[8..10] == Word16(EncodeSquelch(ch.rxTone)) && r[10..12] == Word16(EncodeSquelch(ch.txTone))
            && r[12] == FlagByte(ch)
  {
    hide Word32, Word16, IntToBcd, EncodeSquelch, FlagByte;
  }

  /** Coding looks at the eight low digits only. */
  lemma SameDigits(v: nat, u: nat)
    requires v % INT_LIMIT == u % INT_LIMIT
    ensures IntToBcd(v) == IntToBcd(u)
  {
    hide IntToBcd, BcdToInt, Canonical;
    IntRoundTrip(v);
    IntRoundTrip(u);
    BcdRoundTrip(IntToBcd(v));
    BcdRoundTrip(IntToBcd(u));
  }

  lemma AllOnes(w: nat)
    requires Canonical(w)
    ensures w != 0xffff_ffff
  {
    assert w % 16 < 10;
    hide Canonical;
  }

  lemma BcdWord(v: nat)
    ensures Read32(Word32(IntToBcd(v) % WORD_LIMIT)) == IntToBcd(v) != 0xffff_ffff
    ensures BcdToInt(IntToBcd(v)) == v % INT_LIMIT && (IntToBcd(v) == 0 <==> v % INT_LIMIT == 0)
  {
    hide IntToBcd, BcdToInt, Canonical, Word32, Read32;
    ZeroWord();
    IntRoundTrip(v);
    AllOnes(IntToBcd(v));
    if v % INT_LIMIT == 0 {
      SameDigits(v, 0);
    }
    Word32Reads(IntToBcd(v));
  }

  /** What a stored channel reads back as: eight digits of each frequency, the tones that fit, and every flag. A
      receive frequency whose eight digits are all zero disables the channel. */
  lemma RecordRoundTrip(ch: Channel)
    ensures match DecodeRecord(Record(ch))
            case Disabled => ch.rx % INT_LIMIT == 0
            case Enabled(v) =>
              && ch.rx % INT_LIMIT != 0
              && v.rxHz == ch.rx % INT_LIMIT * 10 && v.txHz == ch.tx % INT_LIMIT * 10
              && (v.rxSquelch == Meaning(ch.rxTone) <==> Fits(ch.rxTone))
              && (v.txSquelch == Meaning(ch.txTone) <==> Fits(ch.txTone))
              && v.lowPower == !ch.highPower && v.wide == ch.wide && v.scan == ch.scan
              && v.bcl == ch.bcl && v.scramble == ch.scramble
  {
    hide Record, IntToBcd, BcdToInt, EncodeSquelch, DecodeSquelch, FlagByte, BitSet, Word32, Word16, Read32,
        Read16, Fits, Meaning;
    RecordParts(ch);
    BcdWord(ch.rx);
    BcdWord(ch.tx);
    Word16Reads(EncodeSquelch(ch.rxTone));
    Word16Reads(EncodeSquelch(ch.txTone));
    SquelchRoundTrip(ch.rxTone);
    SquelchRoundTrip(ch.txTone);
    FlagsRead(ch);
  }

  // ---- In numbers ----

  lemma BytesOfWord(w: nat)
    requires w < 0x1_0000_0000
    ensures var b := Word32(w);
            && b[0] as int == w % 256 && b[1] as int == w / 0x100 % 256
            && b[2] as int == w / 0x1_0000 % 256 && b[3] as int == w / 0x100_0000
  {
    hide AsByte;
    WordQuotients(w);
    var low, high := w % 0x1_0000, w / 0x1_0000;
    assert Word32(w)[0] == AsByte(low % 256) && Word32(w)[1] == AsByte(low / 256 % 256);
    assert Word32(w)[2] == AsByte(high % 256) && Word32(w)[3] == AsByte(high / 256 % 256);
  }

  lemma WordQuotients(w: nat)
    requires w < 0x1_0000_0000
    ensures w % 0x1_0000 % 256 == w % 256 && w % 0x1_0000 / 256 % 256 == w / 0x100 % 256
    ensures w / 0x1_0000 / 256 % 256 == w / 0x100_0000
  {
    var q, r := w / 0x1_0000, w % 0x1_0000;
    var a, b := r / 256, r % 256;
    assert w == 256 * (256 * q + a) + b;
    assert w % 256 == b && w / 0x100 == 256 * q + a;
    assert w / 0x100_0000 == q / 256 && q / 256 < 256;
  }

  lemma PairOfNibbles(q: nat)
    ensures q % 256 == q % 16 + 16 * (q / 16 % 16)
  {
    var a, b, c := q / 16, q % 16, q / 16 / 16;
    assert q == 256 * c + (16 * (a % 16) + b);
  }

  lemma PairsOfNibbles(w: nat)
    requires w < 0x1_0000_0000
    ensures w % 256 == w % 16 + 16 * (w / 0x10 % 16)
    ensures w / 0x100 % 256 == w / 0x100 % 16 + 16 * (w / 0x1000 % 16)
    ensures w / 0x1_0000 % 256 == w / 0x1_0000 % 16 + 16 * (w / 0x10_0000 % 16)
    ensures w / 0x100_0000 == w / 0x100_0000 % 16 + 16 * (w / 0x1000_0000 % 16)
  {
    SixteenQuotients(w);
    var a, b, c := w / 0x100, w / 0x1_0000, w / 0x100_0000;
    assert a / 16 == w / 0x1000 && b / 16 == w / 0x10_0000 && c / 16 == w / 0x1000_0000 && c < 256;
    PairOfNibbles(w);
    PairOfNibbles(a);
    PairOfNibbles(b);
    PairOfNibbles(c);
  }

  lemma FrequencyBytes(v: nat)
    ensures var b := Word32(IntToBcd(v) % WORD_LIMIT);
            && b[0] as int == v % 10 + 16 * (v / 10 % 10) && b[1] as int == v / 100 % 10 + 16 * (v / 1000 % 10)
            && b[2] as int == v / 10_000 % 10 + 16 * (v / 100_000 % 10)
            && b[3] as int == v / 1_000_000 % 10 + 16 * (v / 10_000_000 % 10)
  {
    hide IntToBcd, Word32;
    NibblesInNumbers(v);
    BytesOfWord(IntToBcd(v));
    PairsOfNibbles(IntToBcd(v));
  }

  /** The frequencies in a record: eight decimal digits in units of 10 Hz, two to a byte, the last two first. */
  lemma FrequenciesInNumbers(ch: Channel)
    ensures var r, v := Record(ch), ch.rx;
            && r[0] as int == v % 10 + 16 * (v / 10 % 10) && r[1] as int == v / 100 % 10 + 16 * (v / 1000 % 10)
            && r[2] as int == v / 10_000 % 10 + 16 * (v / 100_000 % 10)
            && r[3] as int == v / 1_000_000 % 10 + 16 * (v / 10_000_000 % 10)
    ensures var r, v := Record(ch), ch.tx;
            && r[4] as int == v % 10 + 16 * (v / 10 % 10) && r[5] as int == v / 100 % 10 + 16 * (v / 1000 % 10)
            && r[6] as int == v / 10_000 % 10 + 16 * (v / 100_000 % 10)
            && r[7] as int == v / 1_000_000 % 10 + 16 * (v / 10_000_000 % 10)
  {
    hide IntToBcd, Word32, Record;
    RecordParts(ch);
    FrequencyBytes(ch.rx);
    FrequencyBytes(ch.tx);
    var r := Record(ch);
    assert r[0] == r[0..4][0] && r[1] == r[0..4][1] && r[2] == r[0..4][2] && r[3] == r[0..4][3];
    assert r[4] == r[4..8][0] && r[5] == r[4..8][1] && r[6] == r[4..8][2] && r[7] == r[4..8][3];
  }

  /** The word of a squelch setting: four digits, a tone as it is, a code from 8000 or, inverted, from 12000 on. */
  lemma SquelchInNumbers(t: Tone)
    ensures var w := EncodeSquelch(t);
            match t
            case Off => w == 0
            case Ctcss(v) => w == v % 10 + 16 * (v / 10 % 10) + 256 * (v / 100 % 10) + 4096 * (v / 1000 % 16)
            case Dcs(code, inverted) =>
              if code < 1 || code >= 999 then w == 0
              else
                var v := code + if inverted then 12000 else 8000;
                w == v % 10 + 16 * (v / 10 % 10) + 256 * (v / 100 % 10) + 4096 * (v / 1000 % 16)
  {
  }

  /** Both words low byte first, the flags, and three bytes of ones. */
  lemma TailInNumbers(ch: Channel)
    ensures var r := Record(ch);
            && r[8] as int + 256 * r[9] as int == EncodeSquelch(ch.rxTone)
            && r[10] as int + 256 * r[11] as int == EncodeSquelch(ch.txTone)
            && (r[12] & 1 == 0 <==> ch.bcl) && (r[12] & 2 == 0 <==> ch.scramble) && (r[12] & 4 == 0 <==> ch.wide)
            && (r[12] & 8 != 0 <==> ch.highPower) && (r[12] & 16 == 0 <==> ch.scan) && r[12] >> 5 == 7
            && r[13] == r[14] == r[15] == 0xff
  {
    hide Word16, Word32, IntToBcd, EncodeSquelch, FlagByte, Read16;
    RecordParts(ch);
    Word16Reads(EncodeSquelch(ch.rxTone));
    Word16Reads(EncodeSquelch(ch.txTone));
    var r := Record(ch);
    Read16Is(r[8..10]);
    Read16Is(r[10..12]);
    FlagBitsAre(ch);
  }

  lemma Read16Is(b: seq<byte>)
    requires |b| == 2
    ensures Read16(b) == b[0] as int + 256 * b[1] as int
  {
  }

  lemma FlagBitsAre(ch: Channel)
    ensures var f := FlagByte(ch);
            && (f & 1 == 0 <==> ch.bcl) && (f & 2 == 0 <==> ch.scramble) && (f & 4 == 0 <==> ch.wide)
            && (f & 8 != 0 <==> ch.highPower) && (f & 16 == 0 <==> ch.scan) && f >> 5 == 7
  {
  }

  lemma Read32Is(b: seq<byte>)
    requires |b| == 4
    ensures Read32(b) == b[0] as int + 0x100 * b[1] as int + 0x1_0000 * b[2] as int + 0x100_0000 * b[3] as int
  {
  }

  lemma Read32From(r: seq<byte>, at: nat)
    requires at + 4 <= |r|
    ensures Read32(r[at..at + 4])
         == r[at] as int + 0x100 * r[at + 1] as int + 0x1_0000 * r[at + 2] as int + 0x100_0000 * r[at + 3] as int
  {
    hide Read32;
    var b := r[at..at + 4];
    assert b[0] == r[at] && b[1] == r[at + 1] && b[2] == r[at + 2] && b[3] == r[at + 3];
    Read32Is(b);
  }

  lemma EnabledIs(r: seq<byte>, rx: nat, tx: nat)
    requires |r| == RECORD && rx == Read32(r[0..4]) && tx == Read32(r[4..8])
    ensures match DecodeRecord(r)
            case Disabled => rx == 0 || rx == 0xffff_ffff
            case Enabled(v) =>
              rx != 0 && rx != 0xffff_ffff && v.rxHz == 10 * BcdToInt(rx) && v.txHz == 10 * BcdToInt(tx)
  {
    hide Read32, BcdToInt, DecodeSquelch, BitSet, Read16;
  }

  /** Any record: it is not in use when its receive frequency is all zeros or all ones; otherwise both frequencies are
      the digits of their nibbles, in units of 10 Hz. */
  lemma ReadFrequencies(r: seq<byte>, w: nat, u: nat)
    requires |r| == RECORD
    requires w == r[0] as int + 0x100 * r[1] as int + 0x1_0000 * r[2] as int + 0x100_0000 * r[3] as int
    requires u == r[4] as int + 0x100 * r[5] as int + 0x1_0000 * r[6] as int + 0x100_0000 * r[7] as int
    ensures match DecodeRecord(r)
            case Disabled => w == 0 || w == 0xffff_ffff
            case Enabled(v) =>
              w != 0 && w != 0xffff_ffff && v.rxHz == 10 * BcdToInt(w) && v.txHz == 10 * BcdToInt(u)
  {
    hide Read32, BcdToInt, DecodeRecord;
    Read32From(r, 0);
    Read32From(r, 4);
    EnabledIs(r, w, u);
  }

  lemma TopNibble(w: nat)
    requires w < 0x1_0000
    ensures SquelchIndex(w) == w % 16 + 10 * (w / 0x10 % 16) + 100 * (w / 0x100 % 16) + 1000 * (w / 0x1000)
  {
    assert w / 0x1000 < 16;
  }

  /** Any squelch word: nothing, a tone below 8000, a code, or an inverted code as a negative number. */
  lemma ReadSquelchInNumbers(w: nat)
    requires w < 0x1_0000
    ensures var index := w % 16 + 10 * (w / 0x10 % 16) + 100 * (w / 0x100 % 16) + 1000 * (w / 0x1000);
            DecodeSquelch(w) ==
              if w == 0 || w == 0xffff then Squelch(0, 0)
              else if index < 8000 then Squelch(index, 0)
              else if index < 12000 then Squelch(0, index - 8000)
              else Squelch(0, 12000 - index)
  {
    hide SquelchIndex;
    TopNibble(w);
  }

  lemma ReadSettings(r: seq<byte>)
    requires |r| == RECORD && DecodeRecord(r).Enabled?
    ensures var v := DecodeRecord(r).view;
            && v.rxSquelch == DecodeSquelch(r[8] as int + 256 * r[9] as int)
            && v.txSquelch == DecodeSquelch(r[10] as int + 256 * r[11] as int)
            && (v.bcl <==> r[12] & 1 == 0) && (v.scramble <==> r[12] & 2 == 0) && (v.wide <==> r[12] & 4 == 0)
            && (v.lowPower <==> r[12] & 8 == 0) && (v.scan <==> r[12] & 16 == 0)
  {
    hide Read32, Read16, BcdToInt, DecodeSquelch;
    Read16Is(r[8..10]);
    Read16Is(r[10..12]);
  }
}

/** The 16-byte FT-60R channel record: what setup_channel writes and what decode_channel reads. */
module Ft60rRecord {
  import opened Bytes
  import opened Decimal
  import Ft60rSquelch

  const D_SIMPLEX: byte := 0
  const D_NEG_OFFSET: byte := 2
  const D_POS_OFFSET: byte := 3
  const D_CROSS_BAND: byte := 4

  const STEP_5: byte := 0
  const STEP_12_5: byte := 2

  const RECORD := 16

  /** Offsets below this go into the one-byte offset field, in 50 kHz steps. */
  const OFFSET_LIMIT := 12_800_000
  const OFFSET_STEP := 50_000
  const UHF := 400_000_000

  /** The arguments of setup_channel that end up in the record. */
  datatype Tuning = Tuning(rx: Hz, tx: Hz, squelch: Ft60rSquelch.Stored, power: nat, wide: bool, am: bool)
  {
    /** The ranges the parsers produce; each fits its bit field. */
    predicate Fits() {
      squelch.tmode < 8 && squelch.tone < 64 && squelch.dtcs < 128 && power < 4
    }
  }

  /** An offset rounded to the nearest 50 kHz, as the byte field keeps it. */
  function OffsetSteps(offset: nat): (steps: nat)
    ensures steps < 256
  {
    (offset + OFFSET_STEP / 2) / OFFSET_STEP % 256
  }

  function Duplex(rx: Hz, tx: Hz): (d: byte)
    ensures d <= 4
  {
    if tx == rx then D_SIMPLEX
    else if rx < tx < rx + OFFSET_LIMIT then D_POS_OFFSET
    else if rx - OFFSET_LIMIT < tx < rx then D_NEG_OFFSET
    else D_CROSS_BAND
  }

  function Offset(rx: Hz, tx: Hz): (steps: nat)
    ensures steps < 256
  {
    if rx < tx < rx + OFFSET_LIMIT then OffsetSteps(tx - rx)
    else if rx - OFFSET_LIMIT < tx < rx then OffsetSteps(rx - tx)
    else 0
  }

  function CrossBand(rx: Hz, tx: Hz): (bcd: seq<byte>)
    ensures |bcd| == 3
  {
    if Duplex(rx, tx) == D_CROSS_BAND then HzToFreq(tx) else [0, 0, 0]
  }

  /** Bit fields are allocated from the low bit up. */
  function FlagBits(am: bool, wide: bool, used: bool): byte {
    (if am then 0x10 else 0) | (if wide then 0 else 0x20) | (if used then 0x80 else 0)
  }

  function ModeBits(tmode: byte, uhf: bool): byte {
    tmode | ((if uhf then STEP_12_5 else STEP_5) << 3) | (if uhf then 0x40 else 0)
  }

  function ToneBits(tone: byte, power: byte): byte {
    tone | (power << 6)
  }

  /** The record written for a tuning. */
  function Record(t: Tuning): (r: seq<byte>)
    requires t.Fits()
    ensures |r| == RECORD
  {
    LowHalf(t) + HighHalf(t)
  }

  function LowHalf(t: Tuning): (r: seq<byte>)
    requires t.Fits()
    ensures |r| == 8
  {
    var f, x := HzToFreq(t.rx), CrossBand(t.rx, t.tx);
    [Duplex(t.rx, t.tx) | FlagBits(t.am, t.wide, t.rx > 0),
     f[0], f[1], f[2],
     ModeBits(AsByte(t.squelch.tmode), t.rx >= UHF),
     x[0], x[1], x[2]]
  }

  function HighHalf(t: Tuning): (r: seq<byte>)
    requires t.Fits()
    ensures |r| == 8
  {
    [ToneBits(AsByte(t.squelch.tone), AsByte(t.power)),
     AsByte(t.squelch.dtcs),
     15, 0,
     AsByte(Offset(t.rx, t.tx)),
     0, 0, 0]
  }

  /** What decode_channel extracts from one record. */
  datatype Fields = Fields(rx: int, tx: int, squelch: Ft60rSquelch.Decoded,
                           power: nat, wide: bool, am: bool, step: nat)

  /** All out-parameters cleared. */
  const BLANK := Fields(0, 0, Ft60rSquelch.Decoded(0, 0, 0, 0), 0, false, false, 0)

  predicate Used(r: seq<byte>)
    requires |r| == RECORD
  {
    r[0] & 0x80 != 0
  }

  function ReadTx(r: seq<byte>, rx: int): int
    requires |r| == RECORD
  {
    var duplex := r[0] & 15;
    if duplex == D_NEG_OFFSET then rx - r[12] as int * OFFSET_STEP
    else if duplex == D_POS_OFFSET then rx + r[12] as int * OFFSET_STEP
    else if duplex == D_CROSS_BAND then FreqToHz(r[5], r[6], r[7])
    else rx
  }

  function ReadSquelch(r: seq<byte>): Ft60rSquelch.Stored
    requires |r| == RECORD
  {
    Ft60rSquelch.Stored((r[4] & 7) as nat, (r[8] & 63) as nat, (r[9] & 127) as nat)
  }

  function ReadFields(r: seq<byte>): Fields
    requires |r| == RECORD
  {
    var rx := FreqToHz(r[1], r[2], r[3]);
    Fields(rx, ReadTx(r, rx), Ft60rSquelch.Decode(ReadSquelch(r)),
           (r[8] >> 6) as nat, r[0] & 0x20 == 0, r[0] & 0x10 != 0, ((r[4] >> 3) & 7) as nat)
  }

  /** The transmit frequency a written pair reads back as. */
  function TxReadBack(rx: Hz, tx: Hz): int {
    var base := rx - rx % 2500;
    if tx == rx then base
    else if rx < tx < rx + OFFSET_LIMIT then base + OffsetSteps(tx - rx) * OFFSET_STEP
    else if rx - OFFSET_LIMIT < tx < rx then base - OffsetSteps(rx - tx) * OFFSET_STEP
    else tx - tx % 2500
  }

  /** The fields a written tuning reads back as. */
  function ReadBack(t: Tuning): Fields {
    Fields(t.rx - t.rx % 2500, TxReadBack(t.rx, t.tx), Ft60rSquelch.Decode(t.squelch),
           t.power, t.wide, t.am, if t.rx >= UHF then STEP_12_5 as nat else STEP_5 as nat)
  }

  lemma FlagByte(d: byte, am: bool, wide: bool, used: bool)
    requires d <= 4
    ensures var b := d | FlagBits(am, wide, used);
            b & 15 == d && (b & 0x10 != 0) == am && (b & 0x20 == 0) == wide && (b & 0x80 != 0) == used
  {
  }

  lemma ModeFields(x: byte, uhf: bool)
    requires x & 0xf8 == 0
    ensures ModeBits(x, uhf) & 7 == x
    ensures (ModeBits(x, uhf) >> 3) & 7 == if uhf then STEP_12_5 else STEP_5
  {
  }

  lemma ModeByte(x: nat, uhf: bool)
    requires x < 8
    ensures var b := ModeBits(AsByte(x), uhf);
            (b & 7) as nat == x && ((b >> 3) & 7) as nat == if uhf then STEP_12_5 as nat else STEP_5 as nat
  {
    hide ModeBits;
    SmallByte(x);
    ModeFields(AsByte(x), uhf);
  }

  lemma ToneFields(tone: byte, power: byte)
    requires tone & 0xc0 == 0 && power & 0xfc == 0
    ensures ToneBits(tone, power) & 63 == tone
    ensures ToneBits(tone, power) >> 6 == power
  {
  }

  lemma ToneByte(tone: nat, power: nat)
    requires tone < 64 && power < 4
    ensures var b := ToneBits(AsByte(tone), AsByte(power));
            (b & 63) as nat == tone && (b >> 6) as nat == power
  {
    hide ToneBits;
    SmallByte(tone);
    SmallByte(power);
    ToneFields(AsByte(tone), AsByte(power));
  }

  lemma DtcsBits(b: byte)
    requires b & 0x80 == 0
    ensures b & 127 == b
  {
  }

  lemma DtcsByte(dtcs: nat)
    requires dtcs < 128
    ensures (AsByte(dtcs) & 127) as nat == dtcs
  {
    SmallByte(dtcs);
    DtcsBits(AsByte(dtcs));
  }

  lemma RecordBytes(t: Tuning)
    requires t.Fits()
    ensures var r, f, x := Record(t), HzToFreq(t.rx), CrossBand(t.rx, t.tx);
            && r[0] == Duplex(t.rx, t.tx) | FlagBits(t.am, t.wide, t.rx > 0)
            && r[1] == f[0] && r[2] == f[1] && r[3] == f[2]
            && r[4] == ModeBits(AsByte(t.squelch.tmode), t.rx >= UHF)
            && r[5] == x[0] && r[6] == x[1] && r[7] == x[2]
            && r[8] == ToneBits(AsByte(t.squelch.tone), AsByte(t.power))
            && r[9] == AsByte(t.squelch.dtcs)
            && r[12] == AsByte(Offset(t.rx, t.tx))
  {
    hide HzToFreq, CrossBand, Offset, Duplex, FlagBits, ModeBits, ToneBits, AsByte, LowHalf, HighHalf;
    LowBytes(t);
    HighBytes(t);
    var r := Record(t);
    assert r[..8] == LowHalf(t) && r[8..] == HighHalf(t);
  }

  lemma LowBytes(t: Tuning)
    requires t.Fits()
    ensures var r, f, x := LowHalf(t), HzToFreq(t.rx), CrossBand(t.rx, t.tx);
            && r[0] == Duplex(t.rx, t.tx) | FlagBits(t.am, t.wide, t.rx > 0)
            && r[1] == f[0] && r[2] == f[1] && r[3] == f[2]
            && r[4] == ModeBits(AsByte(t.squelch.tmode), t.rx >= UHF)
            && r[5] == x[0] && r[6] == x[1] && r[7] == x[2]
  {
    hide HzToFreq, CrossBand, Offset, Duplex, FlagBits, ModeBits, ToneBits, AsByte;
  }

  lemma HighBytes(t: Tuning)
    requires t.Fits()
    ensures var r := HighHalf(t);
            && r[0] == ToneBits(AsByte(t.squelch.tone), AsByte(t.power))
            && r[1] == AsByte(t.squelch.dtcs)
            && r[4] == AsByte(Offset(t.rx, t.tx))
  {
    hide HzToFreq, CrossBand, Offset, Duplex, FlagBits, ModeBits, ToneBits, AsByte;
  }

  lemma FlagsReadBack(t: Tuning)
    requires t.Fits()
    ensures var b := Record(t)[0];
            (b & 0x10 != 0) == t.am && (b & 0x20 == 0) == t.wide && (b & 0x80 != 0) == (t.rx > 0)
  {
    hide Record, HzToFreq, CrossBand, Offset, FlagBits, ModeBits, ToneBits, AsByte;
    RecordBytes(t);
    FlagByte(Duplex(t.rx, t.tx), t.am, t.wide, t.rx > 0);
  }

  lemma RxReadsBack(t: Tuning)
    requires t.Fits()
    ensures var r := Record(t); FreqToHz(r[1], r[2], r[3]) == t.rx - t.rx % 2500
  {
    hide Record, HzToFreq, FreqToHz, CrossBand, Offset, Duplex, FlagBits, ModeBits, ToneBits, AsByte;
    RecordBytes(t);
    FreqRoundTrip(t.rx);
  }

  lemma SettingsReadBack(t: Tuning)
    requires t.Fits()
    ensures var r := Record(t);
            && ReadSquelch(r) == t.squelch && (r[8] >> 6) as nat == t.power
            && ((r[4] >> 3) & 7) as nat == if t.rx >= UHF then STEP_12_5 as nat else STEP_5 as nat
  {
    hide Record, HzToFreq, CrossBand, Offset, Duplex, FlagBits, ModeBits, ToneBits, AsByte;
    RecordBytes(t);
    ModeByte(t.squelch.tmode, t.rx >= UHF);
    ToneByte(t.squelch.tone, t.power);
    DtcsByte(t.squelch.dtcs);
  }

  lemma TxReadsBack(t: Tuning)
    requires t.Fits()
    ensures ReadTx(Record(t), t.rx - t.rx % 2500) == TxReadBack(t.rx, t.tx)
  {
    hide Record, HzToFreq, FreqToHz, OffsetSteps, FlagBits, ModeBits, ToneBits;
    RecordBytes(t);
    FlagByte(Duplex(t.rx, t.tx), t.am, t.wide, t.rx > 0);
    SmallByte(Offset(t.rx, t.tx));
    FreqRoundTrip(t.tx);
  }

  /** The record round trip: every field decodes to what was written, frequencies up to their resolution. */
  lemma RecordRoundTrip(t: Tuning)
    requires t.Fits()
    ensures ReadFields(Record(t)) == ReadBack(t)
    ensures Used(Record(t)) <==> t.rx > 0
  {
    hide Record, FreqToHz, ReadTx, TxReadBack, ReadSquelch, Ft60rSquelch.Decode;
    FlagsReadBack(t);
    RxReadsBack(t);
    TxReadsBack(t);
    SettingsReadBack(t);
  }

  /**
   * Exactly which frequency pairs survive: the receiver on the 2.5 kHz grid, and the transmitter equal to it,
   * or a multiple of 50 kHz away by less than 12.8 MHz, or at least 12.8 MHz away and on the grid itself.
   */
  lemma FrequenciesExact(rx: Hz, tx: Hz)
    ensures (rx - rx % 2500 == rx && TxReadBack(rx, tx) == tx) <==>
            && rx % 2500 == 0
            && if rx - OFFSET_LIMIT < tx < rx + OFFSET_LIMIT then (tx - rx) % OFFSET_STEP == 0 else tx % 2500 == 0
  {
    if rx < tx < rx + OFFSET_LIMIT {
      StepsExact(tx - rx);
    } else if rx - OFFSET_LIMIT < tx < rx {
      StepsExact(rx - tx);
      assert (tx - rx) % OFFSET_STEP == 0 <==> (rx - tx) % OFFSET_STEP == 0;
    }
  }

  lemma StepsExact(offset: nat)
    requires offset < OFFSET_LIMIT
    ensures OffsetSteps(offset) * OFFSET_STEP == offset <==> offset % OFFSET_STEP == 0
  {
  }

  /** An offset just under 12.8 MHz, up or down, rounds to 256 steps, wraps to none, and the transmitter reads back on
      the receiver. */
  lemma TopOffsetsWrap(rx: Hz, tx: Hz)
    requires var offset := if tx < rx then rx - tx else tx - rx;
             OFFSET_LIMIT - OFFSET_STEP / 2 <= offset < OFFSET_LIMIT
    ensures TxReadBack(rx, tx) == rx - rx % 2500
  {
  }

  // ---- In numbers: the bytes a radio and this program exchange ----

  lemma FirstByteBits(d: byte, am: bool, wide: bool, used: bool)
    requires d <= 4
    ensures var b := d | FlagBits(am, wide, used);
            && b & 15 == d && b & 0x40 == 0
            && (b & 0x10 != 0 <==> am) && (b & 0x20 != 0 <==> !wide) && (b & 0x80 != 0 <==> used)
  {
  }

  /** The low four bits of the first byte and the offset byte: no shift, up, down, or a second frequency. */
  lemma ShiftInNumbers(t: Tuning)
    requires t.Fits()
    ensures Record(t)[0] & 15 ==
            if t.tx == t.rx then 0
            else if 0 < t.tx - t.rx < 12_800_000 then 3
            else if 0 < t.rx - t.tx < 12_800_000 then 2
            else 4
    ensures Record(t)[12] as int ==
            if 0 < t.tx - t.rx < 12_800_000 then (t.tx - t.rx + 25_000) / 50_000 % 256
            else if 0 < t.rx - t.tx < 12_800_000 then (t.rx - t.tx + 25_000) / 50_000 % 256
            else 0
  {
    hide Record, HzToFreq, CrossBand, FlagBits, ModeBits, ToneBits;
    RecordBytes(t);
    FirstByteBits(Duplex(t.rx, t.tx), t.am, t.wide, t.rx > 0);
  }

  /** The flags of the first byte; its seventh bit is clear. */
  lemma FlagsInNumbers(t: Tuning)
    requires t.Fits()
    ensures (Record(t)[0] & 0x10 != 0 <==> t.am) && (Record(t)[0] & 0x20 != 0 <==> !t.wide)
    ensures Record(t)[0] & 0x40 == 0 && (Record(t)[0] & 0x80 != 0 <==> t.rx > 0)
  {
    hide Record, HzToFreq, CrossBand, FlagBits, ModeBits, ToneBits, Duplex;
    RecordBytes(t);
    FirstByteBits(Duplex(t.rx, t.tx), t.am, t.wide, t.rx > 0);
  }

  /** The receive frequency, digit by digit. */
  lemma ReceiverInNumbers(t: Tuning)
    requires t.Fits()
    ensures var r := Record(t);
            && r[1] & 0x30 == 0
            && (r[1] >> 6) as int == t.rx / 2500 % 4 && (r[1] & 15) as int == t.rx / 100_000_000 % 10
            && (r[2] >> 4) as int == t.rx / 10_000_000 % 10 && (r[2] & 15) as int == t.rx / 1_000_000 % 10
            && (r[3] >> 4) as int == t.rx / 100_000 % 10 && (r[3] & 15) as int == t.rx / 10_000 % 10
  {
    hide Record, HzToFreq, FlagBits, ModeBits, ToneBits, CrossBand;
    RecordBytes(t);
    DigitsInNumbers(t.rx);
  }

  lemma CrossBandIs(rx: Hz, tx: Hz)
    ensures CrossBand(rx, tx) == if -12_800_000 < tx - rx < 12_800_000 then [0, 0, 0] else HzToFreq(tx)
  {
    hide HzToFreq;
  }

  /** The transmit frequency is stored only when it is 12.8 MHz or more away. */
  lemma TransmitterInNumbers(t: Tuning)
    requires t.Fits()
    ensures var r := Record(t);
            if -12_800_000 < t.tx - t.rx < 12_800_000 then r[5] == r[6] == r[7] == 0
            else
              && r[5] & 0x30 == 0
              && (r[5] >> 6) as int == t.tx / 2500 % 4 && (r[5] & 15) as int == t.tx / 100_000_000 % 10
              && (r[6] >> 4) as int == t.tx / 10_000_000 % 10 && (r[6] & 15) as int == t.tx / 1_000_000 % 10
              && (r[7] >> 4) as int == t.tx / 100_000 % 10 && (r[7] & 15) as int == t.tx / 10_000 % 10
  {
    hide Record, HzToFreq, FlagBits, ModeBits, ToneBits, CrossBand;
    RecordBytes(t);
    CrossBandIs(t.rx, t.tx);
    DigitsInNumbers(t.tx);
  }

  lemma ModeByteBits(x: byte, uhf: bool)
    requires x & 0xf8 == 0
    ensures var b := ModeBits(x, uhf);
            && b & 7 == x && (b >> 3) & 7 == (if uhf then 2 else 0) && b >> 6 == if uhf then 1 else 0
  {
  }

  /** Tone mode, step and the bit for frequencies from 400 MHz on; tone and power; code; and the constant bytes. */
  lemma SettingsInNumbers(t: Tuning)
    requires t.Fits()
    ensures var r := Record(t);
            && (r[4] & 7) as int == t.squelch.tmode
            && (r[4] >> 3) & 7 == (if t.rx >= 400_000_000 then 2 else 0)
            && r[4] >> 6 == (if t.rx >= 400_000_000 then 1 else 0)
            && (r[8] & 63) as int == t.squelch.tone && (r[8] >> 6) as int == t.power
            && r[9] as int == t.squelch.dtcs
            && r[10] == 15 && r[11] == 0 && r[13] == r[14] == r[15] == 0
  {
    hide HzToFreq, CrossBand, FlagBits, ModeBits, ToneBits, LowHalf, Duplex, Offset;
    SmallByte(t.squelch.tmode);
    ModeByteBits(AsByte(t.squelch.tmode), t.rx >= UHF);
    ToneByte(t.squelch.tone, t.power);
    RecordBytes(t);
    assert Record(t)[8..] == HighHalf(t);
    assert Record(t)[10] == Record(t)[8..][2] && Record(t)[11] == Record(t)[8..][3];
    assert Record(t)[13] == Record(t)[8..][5] && Record(t)[14] == Record(t)[8..][6];
    assert Record(t)[15] == Record(t)[8..][7];
  }

  /** Any record, from whatever radio: the frequencies. */
  lemma ReadFrequencies(r: seq<byte>)
    requires |r| == RECORD
    ensures var f := ReadFields(r);
            && f.rx == (r[1] & 15) as int * 100_000_000 + (r[2] >> 4) as int * 10_000_000
                       + (r[2] & 15) as int * 1_000_000 + (r[3] >> 4) as int * 100_000
                       + (r[3] & 15) as int * 10_000 + (r[1] >> 6) as int * 2500
            && f.tx == if r[0] & 15 == 2 then f.rx - 50_000 * r[12] as int
                       else if r[0] & 15 == 3 then f.rx + 50_000 * r[12] as int
                       else if r[0] & 15 == 4 then
                         (r[5] & 15) as int * 100_000_000 + (r[6] >> 4) as int * 10_000_000
                         + (r[6] & 15) as int * 1_000_000 + (r[7] >> 4) as int * 100_000
                         + (r[7] & 15) as int * 10_000 + (r[5] >> 6) as int * 2500
                       else f.rx
  {
    hide FreqToHz, ReadSquelch, Ft60rSquelch.Decode;
    DigitsRead(r[1], r[2], r[3]);
    DigitsRead(r[5], r[6], r[7]);
  }

  /** Any record: the other fields. A reversed receive tone is negative; a tone or code the mode does not use is 0. */
  lemma ReadSettings(r: seq<byte>)
    requires |r| == RECORD
    ensures Used(r) <==> r[0] & 0x80 != 0
    ensures var f := ReadFields(r);
            && (f.am <==> r[0] & 0x10 != 0) && (f.wide <==> r[0] & 0x20 == 0)
            && f.power == (r[8] >> 6) as int && f.step == ((r[4] >> 3) & 7) as int
    ensures var d, mode := ReadFields(r).squelch, r[4] & 7;
            var tone, code := Ft60rSquelch.ToneAt((r[8] & 63) as nat), Ft60rSquelch.CodeAt((r[9] & 127) as nat);
            && d.txCtcs == (if mode == 1 || mode == 2 || mode == 3 || mode == 6 then tone else 0)
            && d.rxCtcs == (if mode == 2 || mode == 7 then tone else if mode == 3 then -tone else 0)
            && d.txDcs == (if mode == 4 || mode == 5 || mode == 7 then code else 0)
            && d.rxDcs == if mode == 4 || mode == 6 then code else 0
  {
    hide FreqToHz, ReadTx, Ft60rSquelch.ToneAt, Ft60rSquelch.CodeAt;
    SmallMode(r[4] & 7);
  }

  lemma SmallMode(mode: byte)
    requires mode <= 7
    ensures (mode as nat == 0 <==> mode == 0) && (mode as nat == 1 <==> mode == 1)
    ensures (mode as nat == 2 <==> mode == 2) && (mode as nat == 3 <==> mode == 3)
    ensures (mode as nat == 4 <==> mode == 4) && (mode as nat == 5 <==> mode == 5)
    ensures (mode as nat == 6 <==> mode == 6) && (mode as nat == 7 <==> mode == 7)
  {
  }
}

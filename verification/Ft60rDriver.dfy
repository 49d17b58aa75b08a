/** The FT-60R driver working in place on its memory array, proved against the edits of Ft60rImage. */
module Ft60rDriver {
  import opened Bytes
  import opened Decimal
  import opened ConfigText
  import opened Ft60rRecord
  import opened Ft60rName
  import opened Ft60rImage
  import opened Ft60rEdits
  import opened Ft60rRuns
  import opened Ft60rConfig
  import opened Ft60rSquelch

  /** hz_to_freq. */
  method PutFrequency(mem: array<byte>, at: nat, hz: Hz)
    requires at + 3 <= mem.Length
    modifies mem
    ensures forall k :: 0 <= k < 3 ==> mem[at + k] == HzToFreq(hz)[k]
    ensures forall a :: 0 <= a < mem.Length && !(at <= a < at + 3) ==> mem[a] == old(mem[a])
  {
    mem[at] := (AsByte(hz / 2500 % 4) << 6) | AsByte(hz / 100_000_000 % 10);
    mem[at + 1] := (AsByte(hz / 10_000_000 % 10) << 4) | AsByte(hz / 1_000_000 % 10);
    mem[at + 2] := (AsByte(hz / 100_000 % 10) << 4) | AsByte(hz / 10_000 % 10);
  }

  /** An assignment to a bit field: the bits of `keep` stay, `put` is or-ed in. */
  method PutField(mem: array<byte>, at: nat, keep: byte, put: byte)
    requires at < mem.Length
    modifies mem
    ensures mem[at] == Overwrite(old(mem[at]), Mask(keep, put))
    ensures forall a :: 0 <= a < mem.Length && a != at ==> mem[a] == old(mem[a])
  {
    mem[at] := (mem[at] & keep) | put;
  }

  /** Dropping the underscores at the end of a name. */
  method StripTrailing(s: string) returns (t: string)
    ensures t == Strip(s)
  {
    var n: nat := |s|;
    while n > 0 && s[n - 1] == '_'
      invariant n <= |s| && Strip(s) == Strip(s[..n])
    {
      assert s[..n][..n - 1] == s[..n - 1];
      n := n - 1;
    }
    return s[..n];
  }

  /** `*p |= 1 << k` or `*p &= ~(1 << k)`. */
  method PutBit(mem: array<byte>, at: nat, k: nat, on: bool)
    requires at < mem.Length && k < 8
    modifies mem
    ensures mem[at] == Overwrite(old(mem[at]), BitMask(k, on))
    ensures forall a :: 0 <= a < mem.Length && a != at ==> mem[a] == old(mem[a])
  {
    hide OneShifted, Overwrite, BitMask;
    var b := mem[at];
    if on {
      b := b | OneShifted(k);
    } else {
      b := b & !OneShifted(k);
    }
    OrOrAndWrites(mem[at], k, on);
    mem[at] := b;
  }

  /** The bytes holding a channel's ten bank bits. */
  predicate InColumn(i: nat, a: int) {
    OFFSET_BANKS <= a < OFFSET_BANKS + NBANKS * PLANE && (a - OFFSET_BANKS) % PLANE == i / 8
  }

  function Plane(a: int): int {
    (a - OFFSET_BANKS) / PLANE
  }

  lemma ColumnStep(i: nat, b: nat, a: int)
    requires b < NBANKS && i < NCHAN
    ensures (InColumn(i, a) && Plane(a) == b) <==> a == OFFSET_BANKS + b * PLANE + i / 8
    ensures InColumn(i, a) ==> 0 <= Plane(a) < NBANKS
  {
    BankAddress(b, i / 8);
  }

  lemma FlagStores(b: byte, used: bool, wide: bool, am: bool)
    ensures var u := Mask(0x7f, if used then 0x80 else 0);
            var n := Mask(0xdf, if wide then 0 else 0x20);
            var m := Mask(0xef, if am then 0x10 else 0);
            Overwrite(Overwrite(Overwrite(Overwrite(b, u), n), m), Mask(0xbf, 0))
            == Overwrite(b, Mask(0x0f, FlagBits(am, wide, used)))
  {
  }

  lemma ModeStores(b: byte, tmode: byte, uhf: bool)
    requires tmode & 0xf8 == 0
    ensures Overwrite(Overwrite(Overwrite(b, Mask(0xf8, tmode)), Mask(0xc7, (if uhf then STEP_12_5 else STEP_5) << 3)),
                      Mask(0x3f, if uhf then 0x40 else 0))
         == ModeBits(tmode, uhf)
  {
  }

  lemma ToneStores(b: byte, tone: byte, power: byte)
    requires tone & 0xc0 == 0
    ensures Overwrite(Overwrite(b, Mask(0xc0, tone)), Mask(0x3f, power << 6)) == ToneBits(tone, power)
  {
  }

  lemma DtcsStores(b: byte, dtcs: byte)
    requires dtcs & 0x80 == 0
    ensures Overwrite(Overwrite(b, Mask(0x80, dtcs)), Mask(0x7f, 0)) == dtcs
  {
  }

  lemma FirstByte(b: byte, d: byte, used: bool, wide: bool, am: bool)
    requires d <= 4
    ensures Overwrite(Overwrite(b, Mask(0xf0, d)), Mask(0x0f, FlagBits(am, wide, used))) == d | FlagBits(am, wide, used)
  {
  }

  /**
   * The bit-field assignments of setup_channel in source order, on the four bytes they share. Each byte is
   * collected in a local before it is stored.
   */
  method SharedBytes(old0: byte, old4: byte, old8: byte, old9: byte, t: Tuning)
    returns (b0: byte, b4: byte, b8: byte, b9: byte)
    requires t.Fits()
    ensures b0 == Overwrite(old0, Mask(0x0f, FlagBits(t.am, t.wide, t.rx > 0)))
    ensures b4 == ModeBits(AsByte(t.squelch.tmode), t.rx >= UHF)
    ensures b8 == ToneBits(AsByte(t.squelch.tone), AsByte(t.power))
    ensures b9 == AsByte(t.squelch.dtcs)
  {
    hide AsByte, Overwrite, FlagBits, ModeBits, ToneBits;
    b0, b4, b8, b9 := old0, old4, old8, old9;
    var uhf := t.rx >= UHF;
    SmallByte(t.squelch.tmode);
    SmallByte(t.squelch.tone);
    SmallByte(t.squelch.dtcs);
    var tmode, tone := AsByte(t.squelch.tmode), AsByte(t.squelch.tone);
    var dtcs, power := AsByte(t.squelch.dtcs), AsByte(t.power);
    b0 := Overwrite(b0, Mask(0x7f, if t.rx > 0 then 0x80 else 0));
    b4 := Overwrite(b4, Mask(0xf8, tmode));
    b8 := Overwrite(b8, Mask(0xc0, tone));
    b9 := Overwrite(b9, Mask(0x80, dtcs));
    b8 := Overwrite(b8, Mask(0x3f, power << 6));
    b0 := Overwrite(b0, Mask(0xdf, if t.wide then 0 else 0x20));
    b0 := Overwrite(b0, Mask(0xef, if t.am then 0x10 else 0));
    b4 := Overwrite(b4, Mask(0xc7, (if uhf then STEP_12_5 else STEP_5) << 3));
    b0 := Overwrite(b0, Mask(0xbf, 0));
    b4 := Overwrite(b4, Mask(0x3f, if uhf then 0x40 else 0));
    b9 := Overwrite(b9, Mask(0x7f, 0));
    FlagStores(old0, t.rx > 0, t.wide, t.am);
    ModeStores(old4, tmode, uhf);
    ToneStores(old8, tone, power);
    DtcsStores(old9, dtcs);
  }

  ghost function FirstOf(t: Tuning): byte {
    Duplex(t.rx, t.tx) | FlagBits(t.am, t.wide, t.rx > 0)
  }

  lemma FirstOfStores(b: byte, t: Tuning)
    ensures Overwrite(Overwrite(b, Mask(0xf0, Duplex(t.rx, t.tx))), Mask(0x0f, FlagBits(t.am, t.wide, t.rx > 0)))
         == FirstOf(t)
  {
    hide Overwrite, FlagBits;
    FirstByte(b, Duplex(t.rx, t.tx), t.rx > 0, t.wide, t.am);
  }

  lemma FilledRecord(r: seq<byte>, t: Tuning)
    requires |r| == RECORD && t.Fits()
    requires r[0] == FirstOf(t)
    requires forall k :: 0 <= k < 3 ==> r[1 + k] == HzToFreq(t.rx)[k]
    requires forall k :: 0 <= k < 3 ==> r[5 + k] == CrossBand(t.rx, t.tx)[k]
    requires r[4] == ModeBits(AsByte(t.squelch.tmode), t.rx >= UHF)
    requires r[8] == ToneBits(AsByte(t.squelch.tone), AsByte(t.power))
    requires r[9] == AsByte(t.squelch.dtcs) && r[10] == 15 && r[11] == 0 && r[12] == AsByte(Offset(t.rx, t.tx))
    requires r[13] == 0 && r[14] == 0 && r[15] == 0
    ensures r == Record(t)
  {
    hide HzToFreq, CrossBand, Offset, Duplex, FlagBits, ModeBits, ToneBits, AsByte;
    assert r[1] == r[1 + 0] && r[2] == r[1 + 1] && r[3] == r[1 + 2];
    assert r[5] == r[5 + 0] && r[6] == r[5 + 1] && r[7] == r[5 + 2];
    assert r[..8] == LowHalf(t);
    assert r[8..] == HighHalf(t);
    assert r == r[..8] + r[8..];
  }

  /** Once a line was bad nothing after it matters. */
  lemma {:induction false} BadLineStops(lines: seq<string>, scan: Scanner, n: nat)
    requires n <= |lines| && !Parse(lines[..n], scan).ok
    ensures Parse(lines, scan) == Parse(lines[..n], scan)
    decreases |lines|
  {
    if n < |lines| {
      var k := |lines| - 1;
      assert lines[..k][..n] == lines[..n];
      BadLineStops(lines[..k], scan, n);
    } else {
      assert lines[..n] == lines;
    }
  }

  lemma RowRuns(edits: seq<Edit>, dirty: bool, e: Edit, m: Image)
    requires AllValid(edits) && e.Valid()
    ensures var all := NextEdits(edits, dirty, e);
            && AllValid(all)
            && Run(all, m) == Do(e, if dirty then Run(edits, m) else Run(Eraser(TableOf(e)), Run(edits, m)))
  {
    hide Do, Edit.Valid, Eraser;
    var erase := if dirty then [] else Eraser(TableOf(e));
    RunConcat(edits, erase, m);
    RunSnoc(edits + erase, e, m);
    assert dirty ==> edits + erase == edits;
  }

  lemma ErasersAre()
    ensures Eraser(ChannelTable) == ChannelEraser(NCHAN) && Eraser(PmsTable) == PmsEraser(NPMS)
    ensures Eraser(HomeTable) == []
  {
  }

  class Codeplug {
    /** radio_mem. */
    const mem: array<byte>

    ghost predicate Valid() {
      mem.Length == IMAGE
    }

    ghost function Contents(): Image
      requires Valid()
      reads mem
    {
      mem[..]
    }

    constructor ()
      ensures Valid() && fresh(mem)
    {
      mem := new byte[IMAGE](_ => 0);
    }

    /** On a memory that is there already. */
    constructor Over(mem: array<byte>)
      requires mem.Length == IMAGE
      ensures Valid() && this.mem == mem
    {
      this.mem := mem;
    }

    /** The duplex field and what goes with it: an offset, or a second frequency when cross-band. */
    method WriteDuplex(base: nat, rx: Hz, tx: Hz)
      requires Valid() && base + RECORD <= IMAGE
      modifies mem
      ensures mem[base] == Overwrite(old(mem[base]), Mask(0xf0, Duplex(rx, tx)))
      ensures forall k :: 0 <= k < 3 ==> mem[base + 5 + k] == CrossBand(rx, tx)[k]
      ensures mem[base + 12] == AsByte(Offset(rx, tx))
      ensures forall a :: 0 <= a < IMAGE && a != base && !(base + 5 <= a < base + 8) && a != base + 12 ==>
                mem[a] == old(mem[a])
    {
      hide HzToFreq, Overwrite, OffsetSteps, AsByte;
      var offset := tx - rx;
      mem[base + 12] := 0;
      mem[base + 5], mem[base + 6], mem[base + 7] := 0, 0, 0;
      if offset == 0 {
        PutField(mem, base, 0xf0, D_SIMPLEX);
      } else if 0 < offset < OFFSET_LIMIT {
        PutField(mem, base, 0xf0, D_POS_OFFSET);
        mem[base + 12] := AsByte(OffsetSteps(offset));
      } else if -OFFSET_LIMIT < offset < 0 {
        PutField(mem, base, 0xf0, D_NEG_OFFSET);
        mem[base + 12] := AsByte(OffsetSteps(-offset));
      } else {
        PutField(mem, base, 0xf0, D_CROSS_BAND);
        PutFrequency(mem, base + 5, tx);
      }
    }

    /** The remaining fields of the record. */
    method WriteFlags(base: nat, t: Tuning)
      requires Valid() && base + RECORD <= IMAGE && t.Fits()
      modifies mem
      ensures mem[base] == Overwrite(old(mem[base]), Mask(0x0f, FlagBits(t.am, t.wide, t.rx > 0)))
      ensures mem[base + 4] == ModeBits(AsByte(t.squelch.tmode), t.rx >= UHF)
      ensures mem[base + 8] == ToneBits(AsByte(t.squelch.tone), AsByte(t.power))
      ensures mem[base + 9] == AsByte(t.squelch.dtcs)
      ensures mem[base + 10] == 15 && mem[base + 11] == 0
      ensures mem[base + 13] == 0 && mem[base + 14] == 0 && mem[base + 15] == 0
      ensures forall a :: 0 <= a < IMAGE && a != base && a != base + 4 && !(base + 8 <= a < base + 12)
                       && !(base + 13 <= a < base + 16)
                ==> mem[a] == old(mem[a])
    {
      hide Overwrite, FlagBits, ModeBits, ToneBits, AsByte;
      var b0, b4, b8, b9 := SharedBytes(mem[base], mem[base + 4], mem[base + 8], mem[base + 9], t);
      mem[base], mem[base + 4], mem[base + 8], mem[base + 9] := b0, b4, b8, b9;
      mem[base + 10], mem[base + 11] := 15, 0;
      mem[base + 13], mem[base + 14], mem[base + 15] := 0, 0, 0;
    }

    /** Every byte of one record is replaced. */
    method FillRecord(base: nat, t: Tuning)
      requires Valid() && base + RECORD <= IMAGE && t.Fits()
      modifies mem
      ensures mem[base..base + RECORD] == Record(t)
      ensures forall a :: 0 <= a < IMAGE && !(base <= a < base + RECORD) ==> mem[a] == old(mem[a])
    {
      hide HzToFreq, Overwrite, CrossBand, Offset, Duplex, FlagBits, ModeBits, ToneBits, Record, AsByte, FirstOf;
      PutFrequency(mem, base + 1, t.rx);
      WriteDuplex(base, t.rx, t.tx);
      WriteFlags(base, t);
      FirstOfStores(old(mem[base]), t);
      assert forall k :: 0 <= k < 3 ==> mem[base + 1 + k] == HzToFreq(t.rx)[k];
      assert forall k :: 0 <= k < 3 ==> mem[base + 5 + k] == CrossBand(t.rx, t.tx)[k];
      FilledRecord(mem[base..base + RECORD], t);
    }

    /** The scan field, two bits at shift `2 * (i & 3)`. */
    method PutScan(i: nat, scan: nat)
      requires Valid() && i < NCHAN && scan < 4
      modifies mem
      ensures mem[OFFSET_SCAN + i / 4] == Overwrite(old(mem[OFFSET_SCAN + i / 4]), ScanMask(scan, i % 4))
      ensures forall a :: 0 <= a < IMAGE && a != OFFSET_SCAN + i / 4 ==> mem[a] == old(mem[a])
    {
      hide ShiftToSlot;
      var at := OFFSET_SCAN + i / 4;
      mem[at] := mem[at] & !ShiftToSlot(3, i % 4);
      mem[at] := mem[at] | ShiftToSlot(AsByte(scan), i % 4);
    }

    /** setup_banks. */
    method SetupBanks(i: nat, banks: set<nat>)
      requires Valid() && i < NCHAN
      modifies mem
      ensures forall a :: 0 <= a < IMAGE ==>
        mem[a] == if InColumn(i, a) then Overwrite(old(mem[a]), BitMask(i % 8, Plane(a) in banks)) else old(mem[a])
    {
      hide Overwrite, BitMask, InColumn, Plane;
      forall a ensures InColumn(i, a) ==> 0 <= Plane(a) < NBANKS {
        ColumnStep(i, 0, a);
      }
      for b := 0 to NBANKS
        invariant forall a :: 0 <= a < IMAGE ==>
          mem[a] == if InColumn(i, a) && Plane(a) < b then Overwrite(old(mem[a]), BitMask(i % 8, Plane(a) in banks))
                    else old(mem[a])
      {
        var at := OFFSET_BANKS + b * PLANE + i / 8;
        forall a ensures (InColumn(i, a) && Plane(a) == b) <==> a == at {
          ColumnStep(i, b, a);
        }
        PutBit(mem, at, i % 8, b in banks);
      }
    }

    /** The six characters of a name, padded with spaces. */
    method PutCharacters(base: nat, name: string)
      requires Valid() && base + NAME_LENGTH <= IMAGE
      modifies mem
      ensures forall a :: base <= a < base + NAME_LENGTH ==>
        mem[a] == if a - base < |name| then GlyphOf(name[a - base]) else SPACE
      ensures forall a :: 0 <= a < IMAGE && !(base <= a < base + NAME_LENGTH) ==> mem[a] == old(mem[a])
    {
      hide GlyphOf;
      var n := 0;
      while n < NAME_LENGTH && n < |name|
        invariant n <= NAME_LENGTH && n <= |name|
        invariant forall a :: base <= a < base + n ==> mem[a] == GlyphOf(name[a - base])
        invariant forall a :: 0 <= a < IMAGE && !(base <= a < base + n) ==> mem[a] == old(mem[a])
      {
        var glyph := EncodeChar(name[n]);
        mem[base + n] := glyph;
        n := n + 1;
      }
      while n < NAME_LENGTH
        invariant n <= NAME_LENGTH && (n < NAME_LENGTH ==> n >= |name|)
        invariant forall a :: base <= a < base + n ==>
          mem[a] == if a - base < |name| then GlyphOf(name[a - base]) else SPACE
        invariant forall a :: 0 <= a < IMAGE && !(base <= a < base + n) ==> mem[a] == old(mem[a])
      {
        mem[base + n] := SPACE;
        n := n + 1;
      }
    }

    method ClearCharacters(base: nat)
      requires Valid() && base + NAME_LENGTH <= IMAGE
      modifies mem
      ensures forall a :: base <= a < base + NAME_LENGTH ==> mem[a] == 0xff
      ensures forall a :: 0 <= a < IMAGE && !(base <= a < base + NAME_LENGTH) ==> mem[a] == old(mem[a])
    {
      for n := 0 to NAME_LENGTH
        invariant forall a :: base <= a < base + n ==> mem[a] == 0xff
        invariant forall a :: 0 <= a < IMAGE && !(base <= a < base + n) ==> mem[a] == old(mem[a])
      {
        mem[base + n] := 0xff;
      }
    }

    /** encode_name. */
    method EncodeName(i: nat, name: string)
      requires Valid() && i < NCHAN
      modifies mem
      ensures forall k :: 0 <= k < 8 ==>
        mem[OFFSET_NAMES + 8 * i + k] == Overwrite(old(mem[OFFSET_NAMES + 8 * i + k]), NameMask(name, k))
      ensures forall a :: 0 <= a < IMAGE && !(OFFSET_NAMES + 8 * i <= a < OFFSET_NAMES + 8 * (i + 1)) ==>
                mem[a] == old(mem[a])
    {
      hide GlyphOf, Overwrite;
      var base := OFFSET_NAMES + 8 * i;
      var on: byte := if Clears(name) then 0 else 0x80;
      PutField(mem, base + 7, 0x7f, on);
      PutField(mem, base + 6, 0x7f, on);
      if !Clears(name) {
        PutCharacters(base, name);
      } else {
        ClearCharacters(base);
      }
      forall k | 0 <= k < NAME_LENGTH
        ensures mem[base + k] == Overwrite(old(mem[base + k]), NameMask(name, k))
      {
        ReplacedByte(old(mem[base + k]), mem[base + k]);
      }
    }

    /** setup_channel. */
    method SetupChannel(i: nat, name: string, t: Tuning, scan: nat, banks: set<nat>)
      requires Valid() && PutChannel(i, name, t, scan, banks).Valid()
      modifies mem
      ensures mem[..] == Do(PutChannel(i, name, t, scan, banks), old(Contents()))
    {
      hide Do, Overwrite, Record, NameMask, BitMask, ScanMask;
      ghost var m0 := mem[..];
      FillRecord(OFFSET_CHANNELS + RECORD * i, t);
      ghost var m1 := mem[..];
      assert m1[OFFSET_CHANNELS + RECORD * i..OFFSET_CHANNELS + RECORD * i + RECORD] == Record(t);
      PutScan(i, scan);
      ghost var m2 := mem[..];
      SetupBanks(i, banks);
      ghost var m3 := mem[..];
      EncodeName(i, name);
      ghost var e := PutChannel(i, name, t, scan, banks);
      forall a: nat | a < IMAGE
        ensures mem[a] == Overwrite(m0[a], EditMask(e, a))
      {
        UntouchedKeeps(m0[a]);
        if OFFSET_CHANNELS + RECORD * i <= a < OFFSET_CHANNELS + RECORD * (i + 1) {
          var k := a - OFFSET_CHANNELS - RECORD * i;
          ReplacedByte(m0[a], Record(t)[k]);
          assert m1[a] == m1[OFFSET_CHANNELS + RECORD * i..OFFSET_CHANNELS + RECORD * i + RECORD][k];
        } else if OFFSET_NAMES + 8 * i <= a < OFFSET_NAMES + 8 * (i + 1) {
          var k := a - OFFSET_NAMES - 8 * i;
          assert mem[OFFSET_NAMES + 8 * i + k] == Overwrite(m3[a], NameMask(name, k));
        }
      }
      assert mem[..] == Do(e, m0);
    }

    /** setup_home. */
    method SetupHome(band: int, t: Tuning)
      requires Valid() && HomeIndex(band).Some? && t.Fits()
      modifies mem
      ensures mem[..] == Do(PutHome(HomeIndex(band).value, t), old(Contents()))
    {
      hide Do, Overwrite, Record;
      var base := OFFSET_HOME;
      match band {
        case 250 => base := base + RECORD;
        case 350 => base := base + 2 * RECORD;
        case 430 => base := base + 3 * RECORD;
        case 850 => base := base + 4 * RECORD;
        case _ =>
      }
      ghost var m0 := mem[..];
      ghost var e := PutHome(HomeIndex(band).value, t);
      FillRecord(base, t);
      ghost var stored := mem[base..base + RECORD];
      assert base == OFFSET_HOME + RECORD * e.band;
      forall a: nat | a < IMAGE
        ensures mem[a] == Overwrite(m0[a], EditMask(e, a))
      {
        UntouchedKeeps(m0[a]);
        if base <= a < base + RECORD {
          ReplacedByte(m0[a], Record(t)[a - base]);
          assert stored[a - base] == mem[base + (a - base)];
        }
      }
      assert mem[..] == Do(e, m0);
    }

    /** One record of a PMS pair. */
    method SetupLimit(base: nat, hz: Hz, clear: bool)
      requires Valid() && base + RECORD <= IMAGE
      modifies mem
      ensures forall a :: base <= a < base + RECORD ==>
        mem[a] == Overwrite(old(mem[a]), PmsHalfMask(hz, clear, a - base))
      ensures forall a :: 0 <= a < IMAGE && !(base <= a < base + RECORD) ==> mem[a] == old(mem[a])
    {
      hide Overwrite, HzToFreq;
      ghost var m0 := mem[..];
      if !clear {
        PutFrequency(mem, base + 1, hz);
      }
      PutField(mem, base, 0x7f, if clear then 0 else 0x80);
      forall a | base <= a < base + RECORD
        ensures mem[a] == Overwrite(m0[a], PmsHalfMask(hz, clear, a - base))
      {
        UntouchedKeeps(m0[a]);
        if base < a < base + 4 && !clear {
          ReplacedByte(m0[a], HzToFreq(hz)[a - base - 1]);
          assert mem[base + 1 + (a - base - 1)] == HzToFreq(hz)[a - base - 1];
        }
      }
    }

    /** setup_pms. */
    method SetupPms(pair: nat, lower: Hz, upper: Hz)
      requires Valid() && pair < NPMS
      modifies mem
      ensures mem[..] == Do(PutPms(pair, lower, upper), old(Contents()))
    {
      hide Do, Overwrite, PmsHalfMask;
      ghost var m0 := mem[..];
      ghost var e := PutPms(pair, lower, upper);
      var base := OFFSET_PMS + 2 * RECORD * pair;
      SetupLimit(base, lower, lower == 0);
      SetupLimit(base + RECORD, upper, lower == 0);
      forall a: nat | a < IMAGE
        ensures mem[a] == Overwrite(m0[a], EditMask(e, a))
      {
        UntouchedKeeps(m0[a]);
      }
      assert mem[..] == Do(e, m0);
    }

    /** The erase loop of parse_channel. */
    method EraseChannels()
      requires Valid()
      modifies mem
      ensures mem[..] == Run(ChannelEraser(NCHAN), old(Contents()))
    {
      hide Do, Edit.Valid;
      for i := 0 to NCHAN
        invariant mem[..] == Run(ChannelEraser(i), old(Contents()))
      {
        var e := EraseChannel(i);
        assert e == PutChannel(i, e.name, e.tuning, e.scan, e.banks);
        SetupChannel(i, e.name, e.tuning, e.scan, e.banks);
        RunSnoc(ChannelEraser(i), EraseChannel(i), old(Contents()));
        assert ChannelEraser(i + 1) == ChannelEraser(i) + [EraseChannel(i)];
      }
    }

    /** The erase loop of parse_pms. */
    method ErasePairs()
      requires Valid()
      modifies mem
      ensures mem[..] == Run(PmsEraser(NPMS), old(Contents()))
    {
      hide Do, Edit.Valid;
      for p := 0 to NPMS
        invariant mem[..] == Run(PmsEraser(p), old(Contents()))
      {
        SetupPms(p, 0, 0);
        RunSnoc(PmsEraser(p), ErasePair(p), old(Contents()));
        assert PmsEraser(p + 1) == PmsEraser(p) + [ErasePair(p)];
      }
    }

    // ---- Readers ----

    /** decode_banks. */
    method DecodeBanks(i: nat) returns (banks: set<nat>)
      requires Valid() && i < NCHAN
      ensures banks == ReadBanks(Contents(), i)
    {
      hide BitSet;
      banks := {};
      for b: nat := 0 to NBANKS
        invariant banks == set c: nat | c < b && InBank(Contents(), c, i)
      {
        var data := mem[OFFSET_BANKS + b * PLANE + i / 8];
        ShiftedBit(data, i % 8);
        if (data >> (i % 8)) & 1 == 1 {
          banks := banks + {b};
        }
      }
    }

    /** decode_name, into a name that is empty beforehand. */
    method DecodeName(i: nat) returns (name: string)
      requires Valid() && i < NCHAN
      ensures name == ReadName(NameAt(Contents(), i))
    {
      hide CharOf;
      var base := OFFSET_NAMES + 8 * i;
      ghost var e := NameAt(Contents(), i);
      assert forall k :: 0 <= k < 8 ==> e[k] == mem[base + k];
      name := "";
      if mem[base + 7] & 0x80 != 0 && mem[base + 6] & 0x80 != 0 {
        for n := 0 to NAME_LENGTH
          invariant |name| == n && forall k :: 0 <= k < n ==> name[k] == CharOf(e[k])
        {
          name := name + [CharOf(mem[base + n])];
        }
        assert name == seq(NAME_LENGTH, k requires 0 <= k < NAME_LENGTH => CharOf(e[k]));
        name := StripTrailing(name);
      }
    }

    /** The duplex switch of decode_channel. */
    method DecodeTx(base: nat, rxHz: int) returns (txHz: int)
      requires Valid() && base + RECORD <= IMAGE
      ensures txHz == ReadTx(RecordAt(Contents(), base), rxHz)
    {
      hide FreqToHz;
      ghost var r := RecordAt(Contents(), base);
      assert r[0] == mem[base] && r[12] == mem[base + 12];
      assert r[5] == mem[base + 5] && r[6] == mem[base + 6] && r[7] == mem[base + 7];
      txHz := rxHz;
      var duplex := mem[base] & 15;
      if duplex == D_NEG_OFFSET {
        txHz := txHz - mem[base + 12] as int * OFFSET_STEP;
      } else if duplex == D_POS_OFFSET {
        txHz := txHz + mem[base + 12] as int * OFFSET_STEP;
      } else if duplex == D_CROSS_BAND {
        txHz := FreqToHz(mem[base + 5], mem[base + 6], mem[base + 7]);
      }
    }

    /** The tone-mode switch of decode_channel. */
    method DecodeTones(base: nat) returns (rxCtcs: int, txCtcs: int, rxDcs: int, txDcs: int)
      requires Valid() && base + RECORD <= IMAGE
      ensures Decoded(rxCtcs, txCtcs, rxDcs, txDcs) == Decode(ReadSquelch(RecordAt(Contents(), base)))
    {
      hide ToneAt, CodeAt;
      ghost var r := RecordAt(Contents(), base);
      assert r[4] == mem[base + 4] && r[8] == mem[base + 8] && r[9] == mem[base + 9];
      rxCtcs, txCtcs, rxDcs, txDcs := 0, 0, 0, 0;
      var tmode := (mem[base + 4] & 7) as nat;
      var tone, code := ToneAt((mem[base + 8] & 63) as nat), CodeAt((mem[base + 9] & 127) as nat);
      if tmode == T_TONE {
        txCtcs := tone;
      } else if tmode == T_TSQL {
        txCtcs := tone;
        rxCtcs := tone;
      } else if tmode == T_TSQL_REV {
        txCtcs := tone;
        rxCtcs := -tone;
      } else if tmode == T_DTCS {
        txDcs := code;
        rxDcs := code;
      } else if tmode == T_D {
        txDcs := code;
      } else if tmode == T_T_DCS {
        txCtcs := tone;
        rxDcs := code;
      } else if tmode == T_D_TSQL {
        txDcs := code;
        rxCtcs := tone;
      }
    }

    /** What decode_channel extracts from a record in use. */
    method DecodeFields(base: nat) returns (f: Fields)
      requires Valid() && base + RECORD <= IMAGE
      ensures f == ReadFields(RecordAt(Contents(), base))
    {
      hide FreqToHz, ReadTx, ReadSquelch, Decode;
      ghost var r := RecordAt(Contents(), base);
      assert r[0] == mem[base] && r[4] == mem[base + 4] && r[8] == mem[base + 8];
      assert r[1] == mem[base + 1] && r[2] == mem[base + 2] && r[3] == mem[base + 3];
      var rxHz := FreqToHz(mem[base + 1], mem[base + 2], mem[base + 3]);
      var txHz := DecodeTx(base, rxHz);
      var rxCtcs, txCtcs, rxDcs, txDcs := DecodeTones(base);
      var power := (mem[base + 8] >> 6) as nat;
      var wide := mem[base] & 0x20 == 0;
      var am := mem[base] & 0x10 != 0;
      var step := ((mem[base + 4] >> 3) & 7) as nat;
      f := Fields(rxHz, txHz, Decoded(rxCtcs, txCtcs, rxDcs, txDcs), power, wide, am, step);
    }

    /** decode_channel for a memory channel. */
    method DecodeChannel(i: nat) returns (c: Channel, scan: nat)
      requires Valid() && i < NCHAN
      ensures c == ReadChannel(Contents(), i)
      ensures scan == ReadScan(Contents(), i)
    {
      hide ReadFields, ReadName, Slot;
      var base := OFFSET_CHANNELS + RECORD * i;
      c, scan := NO_CHANNEL, 0;
      assert RecordAt(Contents(), base)[0] == mem[base];
      if mem[base] & 0x80 == 0 {
        return;
      }
      var name := DecodeName(i);
      var fields := DecodeFields(base);
      scan := ScanFromTop(mem[OFFSET_SCAN + i / 4], i % 4);
      var banks := DecodeBanks(i);
      c := Channel(fields, name, banks);
    }

    /** decode_channel for a home channel: the used bit is not looked at. */
    method DecodeHome(band: nat) returns (f: Fields)
      requires Valid() && band < NHOME
      ensures f == ReadHome(Contents(), band)
    {
      f := DecodeFields(OFFSET_HOME + RECORD * band);
    }

    method DecodeLimit(base: nat) returns (hz: int)
      requires Valid() && base + RECORD <= IMAGE
      ensures hz == ReadLimit(RecordAt(Contents(), base))
    {
      hide FreqToHz;
      ghost var r := RecordAt(Contents(), base);
      assert r[0] == mem[base] && r[1] == mem[base + 1] && r[2] == mem[base + 2] && r[3] == mem[base + 3];
      hz := 0;
      if mem[base] & 0x80 != 0 {
        hz := FreqToHz(mem[base + 1], mem[base + 2], mem[base + 3]);
      }
    }

    /** decode_channel for both halves of a PMS pair; only the receive frequencies are wanted. */
    method DecodePms(pair: nat) returns (lower: int, upper: int)
      requires Valid() && pair < NPMS
      ensures (lower, upper) == ReadPms(Contents(), pair)
    {
      lower := DecodeLimit(OFFSET_PMS + 2 * RECORD * pair);
      upper := DecodeLimit(OFFSET_PMS + 2 * RECORD * pair + RECORD);
    }

    // ---- Configuration ----

    /** The tuning columns of a row, checked in the order of the source. */
    method ScanTuning(rx: Option<int>, tx: Option<Transmit>, rxSquelch: Squelch, txSquelch: Squelch,
                      power: string, modulation: string) returns (t: Option<Tuning>)
      ensures t == TuningOf(rx, tx, rxSquelch, txSquelch, power, modulation)
    {
      if rx.None? || !IsValidHz(rx.value) {
        return None;
      }
      if tx.None? || !IsValidHz(Absolute(tx.value, rx.value)) {
        return None;
      }
      var txHz := tx.value.hz;
      if tx.value.relative {
        txHz := txHz + rx.value;
      }
      var squelch := EncodeSquelch(rxSquelch, txSquelch);
      var p: nat;
      if SameWord("High", power) {
        p := 0;
      } else if SameWord("Mid", power) {
        p := 1;
      } else if SameWord("Low", power) {
        p := 2;
      } else {
        return None;
      }
      var wide, am := true, false;
      if SameWord("Wide", modulation) {
      } else if SameWord("Narrow", modulation) {
        wide := false;
      } else if SameWord("AM", modulation) {
        am := true;
      } else {
        return None;
      }
      return Some(Tuning(rx.value, txHz, squelch, p, wide, am));
    }

    /** parse_channel. Every check comes before the first store. */
    method ParseChannel(first: bool, c: Columns) returns (ok: bool)
      requires Valid() && c.ChannelRow?
      modifies mem
      ensures ok == EditOf(ChannelTable, c).Some?
      ensures ok ==>
                mem[..] == Do(EditOf(ChannelTable, c).value,
                              if first then Run(Eraser(ChannelTable), old(Contents())) else old(Contents()))
      ensures !ok ==> mem[..] == old(mem[..])
    {
      hide Do, Run, Eraser, Edit.Valid, TuningOf, ScanOf, BanksOf;
      assert Eraser(ChannelTable) == ChannelEraser(NCHAN) by { ErasersAre(); }
      if c.num < 1 || c.num > NCHAN {
        return false;
      }
      var t := ScanTuning(c.rx, c.tx, c.rxSquelch, c.txSquelch, c.power, c.modulation);
      if t.None? {
        return false;
      }
      var scan, banks := ScanOf(c.scan), BanksOf(c.banks);
      if scan.None? || banks.None? {
        return false;
      }
      assert EditOf(ChannelTable, c) == Some(PutChannel(c.num - 1, c.name, t.value, scan.value, banks.value));
      if first {
        EraseChannels();
      }
      SetupChannel(c.num - 1, c.name, t.value, scan.value, banks.value);
      return true;
    }

    /** parse_home: no erasing. */
    method ParseHome(first: bool, c: Columns) returns (ok: bool)
      requires Valid() && c.HomeRow?
      modifies mem
      ensures ok == EditOf(HomeTable, c).Some?
      ensures ok ==>
                mem[..] == Do(EditOf(HomeTable, c).value,
                              if first then Run(Eraser(HomeTable), old(Contents())) else old(Contents()))
      ensures !ok ==> mem[..] == old(mem[..])
    {
      hide Do, TuningOf;
      if HomeIndex(c.band).None? {
        return false;
      }
      var t := ScanTuning(c.rx, c.tx, c.rxSquelch, c.txSquelch, c.power, c.modulation);
      if t.None? {
        return false;
      }
      SetupHome(c.band, t.value);
      return true;
    }

    /** parse_pms. */
    method ParsePms(first: bool, c: Columns) returns (ok: bool)
      requires Valid() && c.PmsRow?
      modifies mem
      ensures ok == EditOf(PmsTable, c).Some?
      ensures ok ==>
                mem[..] == Do(EditOf(PmsTable, c).value,
                              if first then Run(Eraser(PmsTable), old(Contents())) else old(Contents()))
      ensures !ok ==> mem[..] == old(mem[..])
    {
      hide Do, Run, Eraser, Edit.Valid;
      assert Eraser(PmsTable) == PmsEraser(NPMS) by { ErasersAre(); }
      if c.num < 1 || c.num > NPMS {
        return false;
      }
      if c.lower.None? || !IsValidHz(c.lower.value) {
        return false;
      }
      if c.upper.None? || !IsValidHz(c.upper.value) {
        return false;
      }
      assert EditOf(PmsTable, c) == Some(PutPms(c.num - 1, c.lower.value, c.upper.value));
      if first {
        ErasePairs();
      }
      SetupPms(c.num - 1, c.lower.value, c.upper.value);
      return true;
    }

    /** parse_row: the dispatch on the table. */
    method ParseRow(table: Table, first: bool, c: Columns) returns (ok: bool)
      requires Valid()
      modifies mem
      ensures ok == EditOf(table, c).Some?
      ensures ok ==>
                mem[..] == Do(EditOf(table, c).value,
                              if first then Run(Eraser(table), old(Contents())) else old(Contents()))
      ensures !ok ==> mem[..] == old(mem[..])
    {
      hide Do, Run, Eraser, TuningOf, ScanOf, BanksOf;
      if table.ChannelTable? && c.ChannelRow? {
        ok := ParseChannel(first, c);
      } else if table.HomeTable? && c.HomeRow? {
        ok := ParseHome(first, c);
      } else if table.PmsTable? && c.PmsRow? {
        ok := ParsePms(first, c);
      } else {
        ok := false;
      }
    }

    /** radio_parse_config with this device: the lines edit the memory as they come, and a bad line ends it. */
    method ParseConfig(lines: seq<string>, scan: Scanner) returns (ok: bool)
      requires Valid()
      modifies mem
      ensures ok == Parse(lines, scan).ok
      ensures mem[..] == Configured(lines, scan, old(Contents()))
    {
      hide Do, Edit.Valid, EditOf, HeaderTable, ParameterAccepted, Eraser, NextEdits, Classify;
      var table: Option<Table> := None;
      var dirty := false;
      ghost var m0 := Contents();
      for n := 0 to |lines|
        invariant AllValid(Parse(lines[..n], scan).edits)
        invariant Parse(lines[..n], scan) == Progress(true, table, dirty, Parse(lines[..n], scan).edits)
        invariant mem[..] == Run(Parse(lines[..n], scan).edits, m0)
      {
        ghost var p := Parse(lines[..n], scan);
        assert lines[..n + 1][..n] == lines[..n];
        ParsedEditsValid(lines[..n + 1], scan);
        var item := ReadLine(lines[n]);
        match item {
          case Nothing =>
          case Header(text) =>
            table := HeaderTable(text);
            if table.None? {
              BadLineStops(lines, scan, n + 1);
              return false;
            }
            dirty := false;
          case Parameter(name, value) =>
            table := None;
            if !ParameterAccepted(name, value) {
              BadLineStops(lines, scan, n + 1);
              return false;
            }
          case Row(text) =>
            if table.None? {
              BadLineStops(lines, scan, n + 1);
              return false;
            }
            var good := ParseRow(table.value, !dirty, scan(table.value, text));
            if !good {
              BadLineStops(lines, scan, n + 1);
              return false;
            }
            RowRuns(p.edits, dirty, EditOf(table.value, scan(table.value, text)).value, m0);
            dirty := true;
        }
      }
      assert lines[..|lines|] == lines;
      return true;
    }
  }
}

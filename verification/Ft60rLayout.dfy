/** The FT-60R memory in numbers: where each edit writes, where each reader looks, and which bits are whose. */
module Ft60rLayout {
  import opened Bytes
  import opened Decimal
  import opened Ft60rRecord
  import opened Ft60rName
  import opened Ft60rImage
  import opened Ft60rEdits
  import opened Ft60rRuns
  import Ft60rSquelch

  // ---- What a channel edit writes ----

  /** The record of channel `i`, counted from 0, lies at 0x0248 + 16 * i. */
  lemma ChannelRecordPlace(e: Edit, m: Image, k: nat)
    requires e.PutChannel? && e.Valid() && k < 16
    ensures Do(e, m)[0x0248 + 16 * e.i + k] == Record(e.tuning)[k]
  {
    hide Record, Do;
    OwnRecord(e, m);
    assert RecordAt(Do(e, m), 0x0248 + 16 * e.i)[k] == Do(e, m)[0x0248 + 16 * e.i + k];
  }

  /** Its name lies at 0x4708 + 8 * i. */
  lemma ChannelNamePlace(e: Edit, m: Image, k: nat)
    requires e.PutChannel? && e.Valid() && k < 8
    ensures var was, now := m[0x4708 + 8 * e.i + k], Do(e, m)[0x4708 + 8 * e.i + k];
            var cleared := e.name == "" || e.name[0] == '-';
            now == if k >= 6 then (if cleared then was & 0x7f else was | 0x80)
                   else if cleared then 0xff
                   else if k < |e.name| then GlyphOf(e.name[k])
                   else 36
  {
    hide Record, GlyphOf, NameMask;
    NameInNumbers(e.name, k);
  }

  /** Bank `b` keeps one bit a channel from 0x69c8 + 0x80 * b on, eight to a byte, the first one lowest. */
  lemma BankBitPlace(e: Edit, m: Image, b: nat, j: nat)
    requires e.PutChannel? && e.Valid() && b < 10 && j < 1000
    ensures (Do(e, m)[0x69c8 + 0x80 * b + j / 8] >> (j % 8)) & 1
         == if j != e.i then (m[0x69c8 + 0x80 * b + j / 8] >> (j % 8)) & 1 else if b in e.banks then 1 else 0
  {
    hide Do, BitSet;
    BankAfter(e, m, b, j);
    BankBit(m, b, j);
    BankBit(Do(e, m), b, j);
    LowBit(m[0x69c8 + 0x80 * b + j / 8], j % 8);
    LowBit(Do(e, m)[0x69c8 + 0x80 * b + j / 8], j % 8);
  }

  lemma BankBit(m: Image, b: nat, j: nat)
    requires b < NBANKS && j < NCHAN
    ensures InBank(m, b, j) <==> (m[0x69c8 + 0x80 * b + j / 8] >> (j % 8)) & 1 == 1
  {
    ShiftedBit(m[0x69c8 + 0x80 * b + j / 8], j % 8);
  }

  lemma LowBit(b: byte, k: nat)
    requires k < 8
    ensures (b >> k) & 1 == 0 || (b >> k) & 1 == 1
  {
  }

  /** The scan modes take two bits a channel from 0x6ec8 on, four to a byte, written from the low end. */
  lemma ScanPlace(e: Edit, m: Image, slot: nat)
    requires e.PutChannel? && e.Valid() && slot < 4
    ensures Slot(Do(e, m)[0x6ec8 + e.i / 4], slot) as int
         == if slot == e.i % 4 then e.scan else Slot(m[0x6ec8 + e.i / 4], slot) as int
  {
    hide EditMask, Overwrite, ScanMask, Slot;
    ScanAddress(e);
    ScanMaskWrites(m[OFFSET_SCAN + e.i / 4], e.scan, e.i % 4, slot);
  }

  lemma SlotsInNumbers(b: byte)
    ensures Slot(b, 0) == b & 3 && Slot(b, 1) == (b >> 2) & 3
    ensures Slot(b, 2) == (b >> 4) & 3 && Slot(b, 3) == (b >> 6) & 3
  {
  }

  /** No other byte of the memory moves. */
  lemma ChannelLeavesOthers(e: Edit, m: Image, a: nat)
    requires e.PutChannel? && e.Valid() && a < 0x7000
    requires !(0x0248 + 16 * e.i <= a < 0x0248 + 16 * e.i + 16) && !(0x4708 + 8 * e.i <= a < 0x4708 + 8 * e.i + 8)
    requires !(0x69c8 <= a < 0x6ec8 && (a - 0x69c8) % 0x80 == e.i / 8) && a != 0x6ec8 + e.i / 4
    ensures Do(e, m)[a] == m[a]
  {
    hide Record, NameMask, Overwrite;
    UntouchedKeeps(m[a]);
  }

  // ---- What the other edits write ----

  /** The record of home channel `h` lies at 0x01c8 + 16 * h; nothing else moves. */
  lemma HomePlace(e: Edit, m: Image, a: nat)
    requires e.PutHome? && e.Valid() && a < 0x7000
    ensures var base := 0x01c8 + 16 * e.band;
            Do(e, m)[a] == if base <= a < base + 16 then Record(e.tuning)[a - base] else m[a]
  {
    hide Record, Overwrite;
    UntouchedKeeps(m[a]);
    if 0x01c8 + 16 * e.band <= a < 0x01c8 + 16 * e.band + 16 {
      ReplacedByte(m[a], Record(e.tuning)[a - 0x01c8 - 16 * e.band]);
    }
  }

  lemma UsedMask(b: byte)
    ensures Overwrite(b, Mask(0x7f, 0x80)) == b | 0x80 && Overwrite(b, Mask(0x7f, 0)) == b & 0x7f
  {
  }

  /** The halves of PMS pair `p` lie at 0x40c8 + 32 * p and 16 bytes on: a used bit, and three bytes of frequency. */
  lemma PmsPlaces(e: Edit, m: Image, a: nat)
    requires e.PutPms? && e.Valid() && a < 0x7000
    ensures var base := 0x40c8 + 32 * e.pair;
            Do(e, m)[a] ==
              if a == base || a == base + 16 then (if e.lower == 0 then m[a] & 0x7f else m[a] | 0x80)
              else if base < a < base + 4 && e.lower != 0 then HzToFreq(e.lower)[a - base - 1]
              else if base + 16 < a < base + 20 && e.lower != 0 then HzToFreq(e.upper)[a - base - 17]
              else m[a]
  {
    hide HzToFreq, Overwrite;
    UntouchedKeeps(m[a]);
    UsedMask(m[a]);
    var base := 0x40c8 + 32 * e.pair;
    if base < a < base + 4 && e.lower != 0 {
      ReplacedByte(m[a], HzToFreq(e.lower)[a - base - 1]);
    } else if base + 16 < a < base + 20 && e.lower != 0 {
      ReplacedByte(m[a], HzToFreq(e.upper)[a - base - 17]);
    }
  }

  /** The record left by erasing a channel: tone 12, the constant 15, and zeros. */
  lemma ErasedRecord(i: nat, m: Image, k: nat)
    requires i < 1000 && k < 16
    ensures Do(EraseChannel(i), m)[0x0248 + 16 * i + k] == if k == 8 then 12 else if k == 10 then 15 else 0
  {
    hide Record, Do, EraseChannel;
    EraseChannelIs(i);
    ChannelRecordPlace(EraseChannel(i), m, k);
    ErasedTuning(EraseChannel(i).tuning, k);
  }

  /** Erasing a PMS pair clears its two used bits and no other bit. */
  lemma ErasedPair(p: nat, m: Image, a: nat)
    requires p < 50 && a < 0x7000
    ensures Do(ErasePair(p), m)[a]
         == if a == 0x40c8 + 32 * p || a == 0x40d8 + 32 * p then m[a] & 0x7f else m[a]
  {
    hide Do;
    PmsPlaces(ErasePair(p), m, a);
  }

  lemma EraseChannelIs(i: nat)
    requires i < NCHAN
    ensures var e := EraseChannel(i);
            && e.PutChannel? && e.i == i && e.name == "" && e.scan == 0 && e.banks == {}
            && e.tuning.rx == e.tuning.tx == 0 && e.tuning.power == 0 && e.tuning.wide && !e.tuning.am
            && e.tuning.squelch.tmode == 0 && e.tuning.squelch.tone == 12 && e.tuning.squelch.dtcs == 0
  {
  }

  lemma ErasedTuning(t: Tuning, k: nat)
    requires k < 16 && t.Fits() && t.rx == t.tx == 0 && t.power == 0 && t.wide && !t.am
    requires t.squelch.tmode == 0 && t.squelch.tone == 12 && t.squelch.dtcs == 0
    ensures Record(t)[k] == if k == 8 then 12 else if k == 10 then 15 else 0
  {
    hide Record;
    ShiftInNumbers(t);
    FlagsInNumbers(t);
    ReceiverInNumbers(t);
    TransmitterInNumbers(t);
    SettingsInNumbers(t);
    var r := Record(t);
    ZeroParts(r[0], r[4], r[8]);
    ZeroDigits(r[1]);
    ZeroDigits(r[2]);
    ZeroDigits(r[3]);
    ByteInjective(r[9], 0);
    ByteInjective(r[12], 0);
  }

  lemma ZeroParts(b0: byte, b4: byte, b8: byte)
    requires b0 & 15 == 0 && b0 & 0x10 == 0 && b0 & 0x20 == 0 && b0 & 0x40 == 0 && b0 & 0x80 == 0
    requires (b4 & 7) as int == 0 && (b4 >> 3) & 7 == 0 && b4 >> 6 == 0
    requires (b8 & 63) as int == 12 && (b8 >> 6) as int == 0
    ensures b0 == 0 && b4 == 0 && b8 == 12
  {
    assert b4 & 7 == 0 && b8 & 63 == 12 && b8 >> 6 == 0;
  }

  lemma ZeroDigits(b: byte)
    requires (b & 15) as int == 0
    ensures (b >> 4) as int == 0 ==> b == 0
    ensures b & 0x30 == 0 && (b >> 6) as int == 0 ==> b == 0
  {
  }

  // ---- Where the readers look ----

  /** What a channel that is not in use reads as. */
  function NothingRead(): Fields {
    Fields(0, 0, Ft60rSquelch.Decoded(0, 0, 0, 0), 0, false, false, 0)
  }

  /** A memory channel: nothing when its used bit is clear, and otherwise what its record and its name hold. */
  lemma ChannelIsReadFrom(m: Image, i: nat)
    requires i < 1000
    ensures var r, name := m[0x0248 + 16 * i..0x0248 + 16 * i + 16], m[0x4708 + 8 * i..0x4708 + 8 * i + 8];
            var c := ReadChannel(m, i);
            if r[0] & 0x80 == 0 then c == Channel(NothingRead(), "", {})
            else c.fields == ReadFields(r) && c.name == ReadName(name)
  {
    hide ReadFields, ReadName, ReadBanks;
  }

  /** Its banks, when it is in use. */
  lemma BanksAreReadFrom(m: Image, i: nat, b: nat)
    requires i < 1000 && m[0x0248 + 16 * i] & 0x80 != 0
    ensures b in ReadChannel(m, i).banks <==> b < 10 && (m[0x69c8 + 0x80 * b + i / 8] >> (i % 8)) & 1 == 1
  {
    hide ReadFields, ReadName, InBank;
    assert RecordAt(m, 0x0248 + 16 * i)[0] == m[0x0248 + 16 * i];
    if b < 10 {
      BankBit(m, b, i);
    }
  }

  /** The scan mode of a channel in use, slots counted from the high end. */
  lemma ScanIsReadFrom(m: Image, i: nat)
    requires i < 1000
    ensures ReadScan(m, i)
         == if m[0x0248 + 16 * i] & 0x80 == 0 then 0 else Slot(m[0x6ec8 + i / 4], 3 - i % 4) as int
  {
    hide Slot;
    assert RecordAt(m, 0x0248 + 16 * i)[0] == m[0x0248 + 16 * i];
  }

  /** Home channels and PMS pairs; the latter are 0 where the used bit is clear. */
  lemma HomeIsReadFrom(m: Image, h: nat)
    requires h < 5
    ensures ReadHome(m, h) == ReadFields(m[0x01c8 + 16 * h..0x01c8 + 16 * h + 16])
  {
    hide ReadFields;
  }

  lemma PmsIsReadFrom(m: Image, p: nat)
    requires p < 50
    ensures var base := 0x40c8 + 32 * p;
            && ReadPms(m, p).0 == (if m[base] & 0x80 == 0 then 0 else FreqToHz(m[base + 1], m[base + 2], m[base + 3]))
            && ReadPms(m, p).1
               == if m[base + 16] & 0x80 == 0 then 0 else FreqToHz(m[base + 17], m[base + 18], m[base + 19])
  {
    hide FreqToHz;
    var base := 0x40c8 + 32 * p;
    var low, high := RecordAt(m, base), RecordAt(m, base + 16);
    assert low[0] == m[base] && low[1] == m[base + 1] && low[2] == m[base + 2] && low[3] == m[base + 3];
    assert high[0] == m[base + 16] && high[1] == m[base + 17] && high[2] == m[base + 18] && high[3] == m[base + 19];
  }

  // ---- Whose bits are whose ----

  /** The bits a table may change at an address: whole records and places of names, banks and scan modes for channels,
      the used bits and three bytes of each half for PMS pairs. */
  lemma OwnedInNumbers(a: nat)
    ensures OwnedBits(ChannelTable, a) ==
            if 0x0248 <= a < 0x40c8 || 0x6ec8 <= a < 0x6fc2 then 0xff
            else if 0x4708 <= a < 0x6648 then (if a % 8 < 6 then 0xff else 0x80)
            else if 0x69c8 <= a < 0x6ec8 then (if (a - 0x69c8) % 0x80 < 125 then 0xff else 0)
            else 0
    ensures OwnedBits(HomeTable, a) == if 0x01c8 <= a < 0x0218 then 0xff else 0
    ensures OwnedBits(PmsTable, a) ==
            if !(0x40c8 <= a < 0x4708) then 0
            else if (a - 0x40c8) % 16 == 0 then 0x80
            else if (a - 0x40c8) % 16 < 4 then 0xff
            else 0
  {
  }

  /** For several tables together these are the bits any of them may change. */
  lemma OwnedTogether(tables: set<Table>, a: nat, bit: byte)
    ensures OwnedByAny(tables, a) & bit != 0
            <==> || (ChannelTable in tables && OwnedBits(ChannelTable, a) & bit != 0)
                 || (HomeTable in tables && OwnedBits(HomeTable, a) & bit != 0)
                 || (PmsTable in tables && OwnedBits(PmsTable, a) & bit != 0)
  {
    hide OwnedBits;
    var x := if ChannelTable in tables then OwnedBits(ChannelTable, a) else 0;
    var y := if HomeTable in tables then OwnedBits(HomeTable, a) else 0;
    var z := if PmsTable in tables then OwnedBits(PmsTable, a) else 0;
    BitOfUnion(x, y, z, bit);
    NoBit(bit);
  }

  lemma BitOfUnion(x: byte, y: byte, z: byte, bit: byte)
    ensures (x | y | z) & bit != 0 <==> x & bit != 0 || y & bit != 0 || z & bit != 0
  {
  }

  lemma NoBit(bit: byte)
    ensures 0 & bit == 0
  {
  }
}

/** What each FT-60R edit makes the readers see: at its own place what was written, everywhere else what was there. */
module Ft60rEdits {
  import opened Bytes
  import opened Decimal
  import opened Ft60rRecord
  import opened Ft60rName
  import opened Ft60rImage

  lemma OwnRecord(e: Edit, m: Image)
    requires e.PutChannel? && e.Valid()
    ensures RecordAt(Do(e, m), OFFSET_CHANNELS + RECORD * e.i) == Record(e.tuning)
  {
    hide Record;
    RecordReplaced(m, Do(e, m), OFFSET_CHANNELS + RECORD * e.i, Record(e.tuning));
  }

  lemma OwnName(e: Edit, m: Image)
    requires e.PutChannel? && e.Valid()
    ensures ReadName(NameAt(Do(e, m), e.i)) == StoredName(e.name)
  {
    hide Record, NameMask, ReadName, StoredName;
    var before, after := NameAt(m, e.i), NameAt(Do(e, m), e.i);
    forall k | 0 <= k < 8
      ensures after[k] == Overwrite(before[k], NameMask(e.name, k))
    {
      var a := OFFSET_NAMES + 8 * e.i + k;
      assert EditMask(e, a) == NameMask(e.name, k);
    }
    NameRoundTrip(e.name, before, after);
  }

  lemma BankAddress(b: nat, q: nat)
    requires b < NBANKS && q < PLANE
    ensures (b * PLANE + q) % PLANE == q && (b * PLANE + q) / PLANE == b
  {
  }

  /** The byte holding a bank bit gets exactly the one-bit mask, and only if it lies in the edited column. */
  lemma BankMask(e: Edit, b: nat, j: nat)
    requires e.PutChannel? && e.Valid() && b < NBANKS && j < NCHAN
    ensures EditMask(e, OFFSET_BANKS + b * PLANE + j / 8)
         == if j / 8 == e.i / 8 then BitMask(e.i % 8, b in e.banks) else UNTOUCHED
  {
    hide Record, NameMask;
    BankAddress(b, j / 8);
  }

  lemma BankAfter(e: Edit, m: Image, b: nat, j: nat)
    requires e.PutChannel? && e.Valid() && b < NBANKS && j < NCHAN
    ensures InBank(Do(e, m), b, j) == if j == e.i then b in e.banks else InBank(m, b, j)
  {
    hide ChannelMask, BitMask, Overwrite, BitSet;
    var a := OFFSET_BANKS + b * PLANE + j / 8;
    BankMask(e, b, j);
    if j / 8 == e.i / 8 {
      BitMaskWrites(m[a], e.i % 8, j % 8, b in e.banks);
    } else {
      UntouchedKeeps(m[a]);
    }
  }

  /** A written channel reads back as written, whatever the image held. */
  lemma ChannelReadsBack(e: Edit, m: Image)
    requires e.PutChannel? && e.Valid()
    ensures ReadChannel(Do(e, m), e.i) == StoredChannel(e.name, e.tuning, e.banks)
  {
    hide Do, Record, ReadFields, ReadBack, ReadName, StoredName, Used, InBank;
    OwnRecord(e, m);
    RecordRoundTrip(e.tuning);
    OwnName(e, m);
    forall b: nat | b < NBANKS
      ensures InBank(Do(e, m), b, e.i) == (b in e.banks)
    {
      BankAfter(e, m, b, e.i);
    }
    assert ReadBanks(Do(e, m), e.i) == set b | b in e.banks && b < NBANKS;
  }

  lemma OtherRecordMask(e: Edit, j: nat, a: nat)
    requires e.Valid() && j < NCHAN && (e.PutChannel? ==> j != e.i)
    requires OFFSET_CHANNELS + RECORD * j <= a < OFFSET_CHANNELS + RECORD * (j + 1)
    ensures EditMask(e, a) == UNTOUCHED
  {
    hide Record, NameMask, PmsHalfMask;
  }

  lemma OtherNameMask(e: Edit, j: nat, a: nat)
    requires e.Valid() && j < NCHAN && (e.PutChannel? ==> j != e.i)
    requires OFFSET_NAMES + 8 * j <= a < OFFSET_NAMES + 8 * (j + 1)
    ensures EditMask(e, a) == UNTOUCHED
  {
    hide Record, NameMask, PmsHalfMask;
  }

  lemma TablesAboveNames(e: Edit, a: nat)
    requires e.Valid() && !e.PutChannel? && a >= OFFSET_NAMES
    ensures EditMask(e, a) == UNTOUCHED
  {
    hide Record, NameMask, PmsHalfMask;
  }

  lemma OtherName(e: Edit, m: Image, j: nat)
    requires e.Valid() && j < NCHAN && (e.PutChannel? ==> j != e.i)
    ensures NameAt(Do(e, m), j) == NameAt(m, j)
  {
    hide EditMask, Overwrite;
    forall k | 0 <= k < 8
      ensures NameAt(Do(e, m), j)[k] == NameAt(m, j)[k]
    {
      var a := OFFSET_NAMES + 8 * j + k;
      OtherNameMask(e, j, a);
      UntouchedKeeps(m[a]);
    }
  }

  lemma OtherBank(e: Edit, m: Image, b: nat, j: nat)
    requires e.Valid() && b < NBANKS && j < NCHAN && (e.PutChannel? ==> j != e.i)
    ensures InBank(Do(e, m), b, j) == InBank(m, b, j)
  {
    if e.PutChannel? {
      BankAfter(e, m, b, j);
    } else {
      var a := OFFSET_BANKS + b * PLANE + j / 8;
      TablesAboveNames(e, a);
      UntouchedKeeps(m[a]);
    }
  }

  lemma OtherRecord(e: Edit, m: Image, j: nat)
    requires e.Valid() && j < NCHAN && (e.PutChannel? ==> j != e.i)
    ensures RecordAt(Do(e, m), OFFSET_CHANNELS + RECORD * j) == RecordAt(m, OFFSET_CHANNELS + RECORD * j)
  {
    hide EditMask, Overwrite;
    forall a: nat | OFFSET_CHANNELS + RECORD * j <= a < OFFSET_CHANNELS + RECORD * j + RECORD
      ensures Do(e, m)[a] == Overwrite(m[a], UNTOUCHED)
    {
      OtherRecordMask(e, j, a);
    }
    RecordKept(m, Do(e, m), OFFSET_CHANNELS + RECORD * j);
  }

  /** No edit moves any other channel: record, name and all ten bank bits read as before. */
  lemma OtherChannelKept(e: Edit, m: Image, j: nat)
    requires e.Valid() && j < NCHAN && (e.PutChannel? ==> j != e.i)
    ensures ReadChannel(Do(e, m), j) == ReadChannel(m, j)
  {
    hide Do, ReadFields, ReadName, Used, InBank;
    OtherRecord(e, m, j);
    OtherName(e, m, j);
    forall b: nat | b < NBANKS
      ensures InBank(Do(e, m), b, j) == InBank(m, b, j)
    {
      OtherBank(e, m, b, j);
    }
    assert ReadBanks(Do(e, m), j) == ReadBanks(m, j);
  }

  // ---- Home channels ----

  lemma HomeReadsBack(e: Edit, m: Image)
    requires e.PutHome? && e.Valid()
    ensures ReadHome(Do(e, m), e.band) == ReadBack(e.tuning)
  {
    hide Record, ReadFields, ReadBack;
    RecordReplaced(m, Do(e, m), OFFSET_HOME + RECORD * e.band, Record(e.tuning));
    RecordRoundTrip(e.tuning);
  }

  lemma OtherHomeKept(e: Edit, m: Image, h: nat)
    requires e.Valid() && h < NHOME && (e.PutHome? ==> h != e.band)
    ensures ReadHome(Do(e, m), h) == ReadHome(m, h)
  {
    hide Overwrite, Record, NameMask, PmsHalfMask, ReadFields;
    RecordKept(m, Do(e, m), OFFSET_HOME + RECORD * h);
  }

  // ---- Programmable memory scan ----

  lemma HalfReadsBack(m: Image, m': Image, base: nat, hz: Hz, clear: bool)
    requires base + RECORD <= IMAGE
    requires forall k :: 0 <= k < RECORD ==> m'[base + k] == Overwrite(m[base + k], PmsHalfMask(hz, clear, k))
    ensures ReadLimit(RecordAt(m', base)) == if clear then 0 else hz - hz % 2500
  {
    hide FreqToHz, HzToFreq;
    var r := RecordAt(m', base);
    UsedBit(m[base], clear);
    assert m'[base + 0] == Overwrite(m[base], PmsHalfMask(hz, clear, 0));
    if !clear {
      forall k | 1 <= k < 4
        ensures r[k] == HzToFreq(hz)[k - 1]
      {
        ReplacedByte(m[base + k], HzToFreq(hz)[k - 1]);
        assert m'[base + k] == Overwrite(m[base + k], PmsHalfMask(hz, clear, k));
      }
      FreqRoundTrip(hz);
    }
  }

  lemma UsedBit(b: byte, clear: bool)
    ensures (Overwrite(b, Mask(0x7f, if clear then 0 else 0x80)) & 0x80 != 0) == !clear
  {
  }

  lemma OwnPmsMask(e: Edit, k: nat)
    requires e.PutPms? && e.Valid() && k < RECORD
    ensures var base := OFFSET_PMS + 2 * RECORD * e.pair;
            && EditMask(e, base + k) == PmsHalfMask(e.lower, e.lower == 0, k)
            && EditMask(e, base + RECORD + k) == PmsHalfMask(e.upper, e.lower == 0, k)
  {
    hide PmsHalfMask;
  }

  /** A written pair of scan limits reads back, and a cleared pair reads as zero, whatever the image held. */
  lemma PmsReadsBack(e: Edit, m: Image)
    requires e.PutPms? && e.Valid()
    ensures ReadPms(Do(e, m), e.pair) == StoredPms(e.lower, e.upper)
  {
    hide Overwrite, EditMask, PmsHalfMask, ReadLimit;
    var base := OFFSET_PMS + 2 * RECORD * e.pair;
    var clear := e.lower == 0;
    forall k | 0 <= k < RECORD
      ensures Do(e, m)[base + k] == Overwrite(m[base + k], PmsHalfMask(e.lower, clear, k))
      ensures Do(e, m)[base + RECORD + k] == Overwrite(m[base + RECORD + k], PmsHalfMask(e.upper, clear, k))
    {
      OwnPmsMask(e, k);
    }
    HalfReadsBack(m, Do(e, m), base, e.lower, clear);
    HalfReadsBack(m, Do(e, m), base + RECORD, e.upper, clear);
  }

  lemma OtherPmsMask(e: Edit, p: nat, a: nat)
    requires e.Valid() && p < NPMS && (e.PutPms? ==> p != e.pair)
    requires OFFSET_PMS + 2 * RECORD * p <= a < OFFSET_PMS + 2 * RECORD * (p + 1)
    ensures EditMask(e, a) == UNTOUCHED
  {
    hide Record, NameMask, PmsHalfMask;
  }

  lemma OtherPmsKept(e: Edit, m: Image, p: nat)
    requires e.Valid() && p < NPMS && (e.PutPms? ==> p != e.pair)
    ensures ReadPms(Do(e, m), p) == ReadPms(m, p)
  {
    hide EditMask, Overwrite, ReadLimit;
    var base := OFFSET_PMS + 2 * RECORD * p;
    forall a: nat | base <= a < base + 2 * RECORD
      ensures Do(e, m)[a] == Overwrite(m[a], UNTOUCHED)
    {
      OtherPmsMask(e, p, a);
    }
    RecordKept(m, Do(e, m), base);
    RecordKept(m, Do(e, m), base + RECORD);
  }

  // ---- The scan field: writer and reader disagree on the order of the four slots in a byte ----

  /** The slot the reader looks at when asked for channel `i`. */
  function Mirror(i: nat): (j: nat)
    ensures j / 4 == i / 4 && j % 4 == 3 - i % 4 && j != i
  {
    i / 4 * 4 + (3 - i % 4)
  }

  lemma SlotsOfOverwrite(b: byte, v: byte)
    requires v & 0xfc == 0
    ensures var w := Overwrite(b, Mask(!3, v));
            w & 3 == v && (w >> 2) & 3 == (b >> 2) & 3 && (w >> 4) & 3 == (b >> 4) & 3 && w >> 6 == b >> 6
    ensures var w := Overwrite(b, Mask(!(3 << 2), v << 2));
            w & 3 == b & 3 && (w >> 2) & 3 == v && (w >> 4) & 3 == (b >> 4) & 3 && w >> 6 == b >> 6
    ensures var w := Overwrite(b, Mask(!(3 << 4), v << 4));
            w & 3 == b & 3 && (w >> 2) & 3 == (b >> 2) & 3 && (w >> 4) & 3 == v && w >> 6 == b >> 6
    ensures var w := Overwrite(b, Mask(!(3 << 6), v << 6));
            w & 3 == b & 3 && (w >> 2) & 3 == (b >> 2) & 3 && (w >> 4) & 3 == (b >> 4) & 3 && w >> 6 == v
  {
  }

  lemma SlotWritten(b: byte, v: byte, slot: nat, other: nat)
    requires v & 0xfc == 0 && slot < 4 && other < 4
    ensures Slot(Overwrite(b, Mask(!ShiftToSlot(3, slot), ShiftToSlot(v, slot))), other)
         == if other == slot then v else Slot(b, other)
  {
    hide Overwrite;
    SlotsOfOverwrite(b, v);
  }

  lemma ScanMaskWrites(b: byte, scan: nat, slot: nat, other: nat)
    requires scan < 4 && slot < 4 && other < 4
    ensures Slot(Overwrite(b, ScanMask(scan, slot)), other) as nat
         == if other == slot then scan else Slot(b, other) as nat
  {
    hide Overwrite, Slot, ShiftToSlot;
    SmallByte(scan);
    SlotWritten(b, AsByte(scan), slot, other);
  }

  lemma ScanAddress(e: Edit)
    requires e.PutChannel? && e.Valid()
    ensures EditMask(e, OFFSET_SCAN + e.i / 4) == ScanMask(e.scan, e.i % 4)
  {
    hide Record, NameMask, ScanMask;
  }

  /** What channel `i` reads is what was written for its mirror in the group of four, never its own value. */
  lemma ScanReadsMirror(e: Edit, m: Image, j: nat)
    requires e.PutChannel? && e.Valid() && j < NCHAN && j / 4 == e.i / 4
    requires Used(RecordAt(Do(e, m), OFFSET_CHANNELS + RECORD * j))
    ensures ReadScan(Do(e, m), j) == if j == Mirror(e.i) then e.scan else ScanFromTop(m[OFFSET_SCAN + j / 4], j % 4)
  {
    hide EditMask, Overwrite, ScanMask, Slot, Used, RecordAt;
    ScanAddress(e);
    ScanMaskWrites(m[OFFSET_SCAN + j / 4], e.scan, e.i % 4, 3 - j % 4);
  }

  /**
   * So a channel's scan mode survives setup_channel exactly when the two bits of its mirror slot already held it:
   * a caller can tell before the call.
   */
  lemma ScanSurvivesExactly(e: Edit, m: Image)
    requires e.PutChannel? && e.Valid() && e.tuning.rx > 0
    ensures ReadScan(Do(e, m), e.i) == e.scan <==> ScanFromTop(m[OFFSET_SCAN + e.i / 4], e.i % 4) == e.scan
  {
    hide Do, Record, ScanFromTop;
    OwnRecord(e, m);
    RecordRoundTrip(e.tuning);
    ScanReadsMirror(e, m, e.i);
  }

  /** For example, on an erased scan byte the first channel's "only" reads back as "scan". */
  lemma ScanOnlyIsLost(e: Edit, m: Image)
    requires e.PutChannel? && e.Valid() && e.i == 0 && e.scan == 2 && e.tuning.rx > 0
    requires m[OFFSET_SCAN] == 0
    ensures ReadScan(Do(e, m), 0) == 0
  {
    hide Do, Record;
    OwnRecord(e, m);
    RecordRoundTrip(e.tuning);
    ScanReadsMirror(e, m, 0);
  }
}

/**
 * The FT-60R memory image as a value: what each edit does to it, byte by byte, and what the readers see.
 * Every edit is one masked overwrite per address, with masks that do not depend on the image.
 */
module Ft60rImage {
  import opened Bytes
  import opened Decimal
  import opened Ft60rRecord
  import opened Ft60rName

  const IMAGE := 0x7000
  const NCHAN := 1000
  const NPMS := 50
  const NHOME := 5
  const NBANKS := 10
  const PLANE := 0x80

  const OFFSET_HOME := 0x01c8
  const OFFSET_CHANNELS := 0x0248
  const OFFSET_PMS := 0x40c8
  const OFFSET_NAMES := 0x4708
  const OFFSET_BANKS := 0x69c8
  const OFFSET_SCAN := 0x6ec8

  type Image = m: seq<byte> | |m| == IMAGE witness seq(IMAGE, _ => 0)

  /** The calls of the setup functions. A bank mask is the set of its bits. */
  datatype Edit =
    | PutChannel(i: nat, name: string, tuning: Tuning, scan: nat, banks: set<nat>)
    | PutHome(band: nat, tuning: Tuning)
    | PutPms(pair: nat, lower: Hz, upper: Hz)
  {
    predicate Valid() {
      match this
      case PutChannel(i, _, t, scan, _) => i < NCHAN && t.Fits() && scan < 4
      case PutHome(band, t) => band < NHOME && t.Fits()
      case PutPms(pair, _, _) => pair < NPMS
    }
  }

  function ShiftToSlot(v: byte, slot: nat): byte
    requires slot < 4
  {
    match slot
    case 0 => v
    case 1 => v << 2
    case 2 => v << 4
    case 3 => v << 6
  }

  /** Two bits of a byte, slots counted from the low end. */
  function Slot(b: byte, slot: nat): byte
    requires slot < 4
  {
    match slot
    case 0 => b & 3
    case 1 => (b >> 2) & 3
    case 2 => (b >> 4) & 3
    case 3 => b >> 6
  }

  function ScanMask(scan: nat, slot: nat): Mask
    requires scan < 4 && slot < 4
  {
    Mask(!ShiftToSlot(3, slot), ShiftToSlot(AsByte(scan), slot))
  }

  /** The mask setup_channel applies at address `a`. */
  function ChannelMask(e: Edit, a: nat): Mask
    requires e.PutChannel? && e.Valid()
  {
    if OFFSET_CHANNELS + RECORD * e.i <= a < OFFSET_CHANNELS + RECORD * (e.i + 1) then
      Mask(0, Record(e.tuning)[a - OFFSET_CHANNELS - RECORD * e.i])
    else if OFFSET_NAMES + 8 * e.i <= a < OFFSET_NAMES + 8 * (e.i + 1) then
      NameMask(e.name, a - OFFSET_NAMES - 8 * e.i)
    else if OFFSET_BANKS <= a < OFFSET_BANKS + NBANKS * PLANE && (a - OFFSET_BANKS) % PLANE == e.i / 8 then
      BitMask(e.i % 8, (a - OFFSET_BANKS) / PLANE in e.banks)
    else if a == OFFSET_SCAN + e.i / 4 then
      ScanMask(e.scan, e.i % 4)
    else
      UNTOUCHED
  }

  function HomeMask(e: Edit, a: nat): Mask
    requires e.PutHome? && e.Valid()
  {
    if OFFSET_HOME + RECORD * e.band <= a < OFFSET_HOME + RECORD * (e.band + 1) then
      Mask(0, Record(e.tuning)[a - OFFSET_HOME - RECORD * e.band])
    else
      UNTOUCHED
  }

  /** One half of a PMS pair: the receive frequency and the used bit, or only the used bit when clearing. */
  function PmsHalfMask(hz: Hz, clear: bool, k: nat): Mask
    requires k < RECORD
  {
    if k == 0 then Mask(0x7f, if clear then 0 else 0x80)
    else if k < 4 && !clear then Mask(0, HzToFreq(hz)[k - 1])
    else UNTOUCHED
  }

  function PmsMask(e: Edit, a: nat): Mask
    requires e.PutPms? && e.Valid()
  {
    var base := OFFSET_PMS + 2 * RECORD * e.pair;
    if base <= a < base + RECORD then PmsHalfMask(e.lower, e.lower == 0, a - base)
    else if base + RECORD <= a < base + 2 * RECORD then PmsHalfMask(e.upper, e.lower == 0, a - base - RECORD)
    else UNTOUCHED
  }

  function EditMask(e: Edit, a: nat): Mask
    requires e.Valid()
  {
    match e
    case PutChannel(_, _, _, _, _) => ChannelMask(e, a)
    case PutHome(_, _) => HomeMask(e, a)
    case PutPms(_, _, _) => PmsMask(e, a)
  }

  /** The image after one edit. */
  function Do(e: Edit, m: Image): (after: Image)
    requires e.Valid()
    ensures forall a :: 0 <= a < IMAGE ==> after[a] == Overwrite(m[a], EditMask(e, a))
  {
    seq(IMAGE, a requires 0 <= a < IMAGE => Overwrite(m[a], EditMask(e, a)))
  }

  // ---- What the readers see ----

  function RecordAt(m: Image, base: nat): (r: seq<byte>)
    requires base + RECORD <= IMAGE
    ensures |r| == RECORD
  {
    m[base..base + RECORD]
  }

  function NameAt(m: Image, i: nat): (e: seq<byte>)
    requires i < NCHAN
    ensures |e| == 8
  {
    m[OFFSET_NAMES + 8 * i..OFFSET_NAMES + 8 * i + 8]
  }

  predicate InBank(m: Image, b: nat, i: nat)
    requires b < NBANKS && i < NCHAN
  {
    BitSet(m[OFFSET_BANKS + b * PLANE + i / 8], i % 8)
  }

  /** decode_banks. */
  function ReadBanks(m: Image, i: nat): set<nat>
    requires i < NCHAN
  {
    set b: nat | b < NBANKS && InBank(m, b, i)
  }

  datatype Channel = Channel(fields: Fields, name: string, banks: set<nat>)

  const NO_CHANNEL := Channel(BLANK, "", {})

  /** decode_channel with OFFSET_CHANNELS, all but the scan field. */
  function ReadChannel(m: Image, i: nat): Channel
    requires i < NCHAN
  {
    var r := RecordAt(m, OFFSET_CHANNELS + RECORD * i);
    if Used(r) then Channel(ReadFields(r), ReadName(NameAt(m, i)), ReadBanks(m, i)) else NO_CHANNEL
  }

  /** The scan field as decode_channel reads it: `b << 2 * slot >> 6 & 3`, the slots counted from the high end. */
  function ScanFromTop(b: byte, slot: nat): nat
    requires slot < 4
  {
    Slot(b, 3 - slot) as nat
  }

  function ReadScan(m: Image, i: nat): nat
    requires i < NCHAN
  {
    if Used(RecordAt(m, OFFSET_CHANNELS + RECORD * i)) then ScanFromTop(m[OFFSET_SCAN + i / 4], i % 4) else 0
  }

  /** decode_channel with OFFSET_HOME: no check of the used bit, no name, no banks. */
  function ReadHome(m: Image, band: nat): Fields
    requires band < NHOME
  {
    ReadFields(RecordAt(m, OFFSET_HOME + RECORD * band))
  }

  /** The receive frequency decode_channel yields with OFFSET_PMS. */
  function ReadLimit(r: seq<byte>): int
    requires |r| == RECORD
  {
    if Used(r) then FreqToHz(r[1], r[2], r[3]) else 0
  }

  function ReadPms(m: Image, pair: nat): (int, int)
    requires pair < NPMS
  {
    (ReadLimit(RecordAt(m, OFFSET_PMS + 2 * RECORD * pair)),
     ReadLimit(RecordAt(m, OFFSET_PMS + 2 * RECORD * pair + RECORD)))
  }

  // ---- What an edit stores ----

  ghost function StoredChannel(name: string, t: Tuning, banks: set<nat>): Channel {
    if t.rx == 0 then NO_CHANNEL
    else Channel(ReadBack(t), StoredName(name), set b | b in banks && b < NBANKS)
  }

  function StoredPms(lower: Hz, upper: Hz): (int, int) {
    if lower == 0 then (0, 0) else (lower - lower % 2500, upper - upper % 2500)
  }

  lemma RecordReplaced(m: Image, m': Image, base: nat, r: seq<byte>)
    requires base + RECORD <= IMAGE && |r| == RECORD
    requires forall a :: base <= a < base + RECORD ==> m'[a] == Overwrite(m[a], Mask(0, r[a - base]))
    ensures RecordAt(m', base) == r
  {
    forall k | 0 <= k < RECORD
      ensures RecordAt(m', base)[k] == r[k]
    {
      ReplacedByte(m[base + k], r[k]);
      assert m'[base + k] == Overwrite(m[base + k], Mask(0, r[base + k - base]));
    }
  }

  lemma ReplacedByte(b: byte, v: byte)
    ensures Overwrite(b, Mask(0, v)) == v
  {
  }

  lemma RecordKept(m: Image, m': Image, base: nat)
    requires base + RECORD <= IMAGE
    requires forall a :: base <= a < base + RECORD ==> m'[a] == Overwrite(m[a], UNTOUCHED)
    ensures RecordAt(m', base) == RecordAt(m, base)
  {
    forall k | 0 <= k < RECORD
      ensures RecordAt(m', base)[k] == RecordAt(m, base)[k]
    {
      UntouchedKeeps(m[base + k]);
      assert m'[base + k] == Overwrite(m[base + k], UNTOUCHED);
    }
  }
}

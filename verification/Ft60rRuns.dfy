/** Sequences of FT-60R edits: they compose to one masked overwrite per address, and to one update per table. */
module Ft60rRuns {
  import opened Bytes
  import opened Decimal
  import opened Ft60rRecord
  import opened Ft60rImage
  import opened Ft60rEdits
  import Ft60rSquelch

  predicate AllValid(edits: seq<Edit>) {
    forall k :: 0 <= k < |edits| ==> edits[k].Valid()
  }

  /** The image after a sequence of edits. */
  function Run(edits: seq<Edit>, m: Image): Image
    requires AllValid(edits)
  {
    if edits == [] then m
    else
      var n := |edits| - 1;
      Do(edits[n], Run(edits[..n], m))
  }

  /** The one mask a sequence of edits amounts to at an address. */
  function RunMask(edits: seq<Edit>, a: nat): Mask
    requires AllValid(edits)
  {
    if edits == [] then UNTOUCHED
    else
      var n := |edits| - 1;
      Then(RunMask(edits[..n], a), EditMask(edits[n], a))
  }

  lemma {:induction false} RunIsOneOverwrite(edits: seq<Edit>, m: Image, a: nat)
    requires AllValid(edits) && a < IMAGE
    ensures Run(edits, m)[a] == Overwrite(m[a], RunMask(edits, a))
  {
    hide EditMask, Overwrite, Then;
    if edits == [] {
      UntouchedKeeps(m[a]);
    } else {
      var n := |edits| - 1;
      RunIsOneOverwrite(edits[..n], m, a);
      ThenIsSequence(m[a], RunMask(edits[..n], a), EditMask(edits[n], a));
    }
  }

  /** Doing the same edits again changes no byte. */
  lemma RunTwice(edits: seq<Edit>, m: Image)
    requires AllValid(edits)
    ensures Run(edits, Run(edits, m)) == Run(edits, m)
  {
    var once, twice := Run(edits, m), Run(edits, Run(edits, m));
    forall a | 0 <= a < IMAGE
      ensures twice[a] == once[a]
    {
      RunIsOneOverwrite(edits, m, a);
      RunIsOneOverwrite(edits, once, a);
      OverwriteTwice(m[a], RunMask(edits, a));
    }
  }

  lemma RunSnoc(edits: seq<Edit>, e: Edit, m: Image)
    requires AllValid(edits) && e.Valid()
    ensures AllValid(edits + [e])
    ensures Run(edits + [e], m) == Do(e, Run(edits, m))
  {
    hide Do, Edit.Valid;
    var all := edits + [e];
    assert all[..|edits|] == edits && all[|edits|] == e;
  }

  lemma {:induction false} RunConcat(first: seq<Edit>, second: seq<Edit>, m: Image)
    requires AllValid(first) && AllValid(second)
    ensures AllValid(first + second)
    ensures Run(first + second, m) == Run(second, Run(first, m))
    decreases |second|
  {
    hide Do, Edit.Valid;
    if second == [] {
      assert first + second == first;
    } else {
      var n := |second| - 1;
      RunConcat(first, second[..n], m);
      RunSnoc(first + second[..n], second[n], m);
      assert first + second[..n] + [second[n]] == first + second;
    }
  }

  // ---- The three tables ----

  /** Everything the printed configuration is made of, scan modes aside. */
  datatype Tables = Tables(channels: seq<Channel>, homes: seq<Fields>, pms: seq<(int, int)>) {
    predicate Sized() {
      |channels| == NCHAN && |homes| == NHOME && |pms| == NPMS
    }
  }

  function ReadTables(m: Image): (t: Tables)
    ensures t.Sized()
  {
    Tables(seq(NCHAN, i requires 0 <= i < NCHAN => ReadChannel(m, i)),
           seq(NHOME, h requires 0 <= h < NHOME => ReadHome(m, h)),
           seq(NPMS, p requires 0 <= p < NPMS => ReadPms(m, p)))
  }

  lemma RecordLooksInside(m: Image, m': Image, base: nat)
    requires base + RECORD <= IMAGE && forall a :: base <= a < base + RECORD ==> m[a] == m'[a]
    ensures RecordAt(m, base) == RecordAt(m', base)
  {
  }

  lemma ChannelLooksInside(m: Image, m': Image, i: nat)
    requires forall a :: OFFSET_HOME <= a < OFFSET_SCAN ==> m[a] == m'[a]
    requires i < NCHAN
    ensures ReadChannel(m, i) == ReadChannel(m', i)
  {
    hide RecordAt, Used, ReadFields;
    RecordLooksInside(m, m', OFFSET_CHANNELS + RECORD * i);
    assert NameAt(m, i) == NameAt(m', i);
    forall b: nat | b < NBANKS
      ensures InBank(m, b, i) == InBank(m', b, i)
    {
    }
    assert ReadBanks(m, i) == ReadBanks(m', i);
  }

  /** The tables are read from the bytes between the first home channel and the scan modes. */
  lemma TablesLookInside(m: Image, m': Image)
    requires forall a :: OFFSET_HOME <= a < OFFSET_SCAN ==> m[a] == m'[a]
    ensures ReadTables(m) == ReadTables(m')
  {
    hide ReadChannel, ReadFields, ReadLimit, RecordAt;
    forall i | 0 <= i < NCHAN
      ensures ReadChannel(m, i) == ReadChannel(m', i)
    {
      ChannelLooksInside(m, m', i);
    }
    forall h | 0 <= h < NHOME
      ensures ReadHome(m, h) == ReadHome(m', h)
    {
      RecordLooksInside(m, m', OFFSET_HOME + RECORD * h);
    }
    forall p | 0 <= p < NPMS
      ensures ReadPms(m, p) == ReadPms(m', p)
    {
      RecordLooksInside(m, m', OFFSET_PMS + 2 * RECORD * p);
      RecordLooksInside(m, m', OFFSET_PMS + 2 * RECORD * p + RECORD);
    }
  }

  /** A row replaces one entry of one table. */
  ghost function Update(e: Edit, t: Tables): (r: Tables)
    requires e.Valid() && t.Sized()
    ensures r.Sized()
  {
    match e
    case PutChannel(i, name, tuning, _, banks) => t.(channels := t.channels[i := StoredChannel(name, tuning, banks)])
    case PutHome(band, tuning) => t.(homes := t.homes[band := ReadBack(tuning)])
    case PutPms(pair, lower, upper) => t.(pms := t.pms[pair := StoredPms(lower, upper)])
  }

  ghost function Fold(edits: seq<Edit>, t: Tables): (r: Tables)
    requires AllValid(edits) && t.Sized()
    ensures r.Sized()
  {
    if edits == [] then t
    else
      var n := |edits| - 1;
      Update(edits[n], Fold(edits[..n], t))
  }

  lemma ChannelsAfterDo(e: Edit, m: Image)
    requires e.Valid()
    ensures ReadTables(Do(e, m)).channels == Update(e, ReadTables(m)).channels
  {
    hide Do, ReadChannel, StoredChannel;
    forall j | 0 <= j < NCHAN
      ensures ReadTables(Do(e, m)).channels[j] == Update(e, ReadTables(m)).channels[j]
    {
      if e.PutChannel? && j == e.i {
        ChannelReadsBack(e, m);
      } else {
        OtherChannelKept(e, m, j);
      }
    }
  }

  lemma HomesAfterDo(e: Edit, m: Image)
    requires e.Valid()
    ensures ReadTables(Do(e, m)).homes == Update(e, ReadTables(m)).homes
  {
    hide Do, ReadHome, ReadBack;
    forall h | 0 <= h < NHOME
      ensures ReadTables(Do(e, m)).homes[h] == Update(e, ReadTables(m)).homes[h]
    {
      if e.PutHome? && h == e.band {
        HomeReadsBack(e, m);
      } else {
        OtherHomeKept(e, m, h);
      }
    }
  }

  lemma PmsAfterDo(e: Edit, m: Image)
    requires e.Valid()
    ensures ReadTables(Do(e, m)).pms == Update(e, ReadTables(m)).pms
  {
    hide Do, ReadPms, StoredPms;
    forall p | 0 <= p < NPMS
      ensures ReadTables(Do(e, m)).pms[p] == Update(e, ReadTables(m)).pms[p]
    {
      if e.PutPms? && p == e.pair {
        PmsReadsBack(e, m);
      } else {
        OtherPmsKept(e, m, p);
      }
    }
  }

  /** Editing the image and then reading its tables is folding the edits over the tables. */
  lemma {:induction false} RunRefinesFold(edits: seq<Edit>, m: Image)
    requires AllValid(edits)
    ensures ReadTables(Run(edits, m)) == Fold(edits, ReadTables(m))
  {
    hide Do, ReadTables, Update, Edit.Valid;
    if edits == [] {
    } else {
      var n := |edits| - 1;
      RunRefinesFold(edits[..n], m);
      ChannelsAfterDo(edits[n], Run(edits[..n], m));
      HomesAfterDo(edits[n], Run(edits[..n], m));
      PmsAfterDo(edits[n], Run(edits[..n], m));
    }
  }

  lemma FoldSnoc(edits: seq<Edit>, e: Edit, t: Tables)
    requires AllValid(edits) && e.Valid() && t.Sized()
    ensures AllValid(edits + [e])
    ensures Fold(edits + [e], t) == Update(e, Fold(edits, t))
  {
    hide Update, Edit.Valid;
    var all := edits + [e];
    assert all[..|edits|] == edits && all[|edits|] == e;
  }

  lemma {:induction false} FoldConcat(first: seq<Edit>, second: seq<Edit>, t: Tables)
    requires AllValid(first) && AllValid(second) && t.Sized()
    ensures AllValid(first + second)
    ensures Fold(first + second, t) == Fold(second, Fold(first, t))
    decreases |second|
  {
    hide Update, Edit.Valid;
    if second == [] {
      assert first + second == first;
    } else {
      var n := |second| - 1;
      FoldConcat(first, second[..n], t);
      FoldSnoc(first + second[..n], second[n], t);
      assert first + second[..n] + [second[n]] == first + second;
    }
  }

  /** The last row that names a channel decides it. */
  lemma {:induction false} LastRowDecides(edits: seq<Edit>, t: Tables, k: nat)
    requires AllValid(edits) && t.Sized()
    requires k < |edits| && edits[k].PutChannel?
    requires forall l :: k < l < |edits| && edits[l].PutChannel? ==> edits[l].i != edits[k].i
    ensures Fold(edits, t).channels[edits[k].i] == StoredChannel(edits[k].name, edits[k].tuning, edits[k].banks)
  {
    hide StoredChannel, StoredPms, ReadBack;
    var n := |edits| - 1;
    if k == n {
    } else {
      LastRowDecides(edits[..n], t, k);
    }
  }

  // ---- Erasing ----

  /** The arguments parse_channel erases a channel with. */
  function EraseChannel(i: nat): (e: Edit)
    requires i < NCHAN
    ensures e.Valid()
  {
    PutChannel(i, "", Tuning(0, 0, Ft60rSquelch.Stored(0, Ft60rSquelch.TONE_DEFAULT, 0), 0, true, false), 0, {})
  }

  function ErasePair(p: nat): (e: Edit)
    requires p < NPMS
    ensures e.Valid()
  {
    PutPms(p, 0, 0)
  }

  function ChannelEraser(n: nat): (edits: seq<Edit>)
    requires n <= NCHAN
    ensures AllValid(edits) && |edits| == n
  {
    seq(n, i requires 0 <= i < n => EraseChannel(i))
  }

  function PmsEraser(n: nat): (edits: seq<Edit>)
    requires n <= NPMS
    ensures AllValid(edits) && |edits| == n
  {
    seq(n, p requires 0 <= p < n => ErasePair(p))
  }

  function EmptyChannels(): (t: seq<Channel>)
    ensures |t| == NCHAN
  {
    seq(NCHAN, _ => NO_CHANNEL)
  }

  function EmptyPms(): (t: seq<(int, int)>)
    ensures |t| == NPMS
  {
    seq(NPMS, _ => (0, 0))
  }

  lemma OneMore<T>(empty: seq<T>, rest: seq<T>, n: nat)
    requires 0 < n <= |empty| == |rest|
    ensures (empty[..n - 1] + rest[n - 1..])[n - 1 := empty[n - 1]] == empty[..n] + rest[n..]
  {
  }

  lemma EraseChannelUpdates(i: nat, t: Tables)
    requires i < NCHAN && t.Sized()
    ensures Update(EraseChannel(i), t) == t.(channels := t.channels[i := NO_CHANNEL])
  {
    hide ReadBack;
  }

  lemma ErasePairUpdates(p: nat, t: Tables)
    requires p < NPMS && t.Sized()
    ensures Update(ErasePair(p), t) == t.(pms := t.pms[p := (0, 0)])
  {
  }

  lemma {:induction false} ChannelEraserFolds(n: nat, t: Tables)
    requires n <= NCHAN && t.Sized()
    ensures Fold(ChannelEraser(n), t) == t.(channels := EmptyChannels()[..n] + t.channels[n..])
  {
    hide Update, EraseChannel, Edit.Valid;
    if n > 0 {
      assert ChannelEraser(n)[..n - 1] == ChannelEraser(n - 1);
      ChannelEraserFolds(n - 1, t);
      EraseChannelUpdates(n - 1, Fold(ChannelEraser(n - 1), t));
      OneMore(EmptyChannels(), t.channels, n);
    } else {
      assert EmptyChannels()[..n] + t.channels[n..] == t.channels;
    }
  }

  lemma {:induction false} PmsEraserFolds(n: nat, t: Tables)
    requires n <= NPMS && t.Sized()
    ensures Fold(PmsEraser(n), t) == t.(pms := EmptyPms()[..n] + t.pms[n..])
  {
    hide Update, ErasePair, Edit.Valid;
    if n > 0 {
      assert PmsEraser(n)[..n - 1] == PmsEraser(n - 1);
      PmsEraserFolds(n - 1, t);
      ErasePairUpdates(n - 1, Fold(PmsEraser(n - 1), t));
      OneMore(EmptyPms(), t.pms, n);
    } else {
      assert EmptyPms()[..n] + t.pms[n..] == t.pms;
    }
  }

  /** After an erase loop its table reads as empty, whatever the image held, and the other tables are as before. */
  lemma ErasersEmpty(t: Tables)
    requires t.Sized()
    ensures Fold(ChannelEraser(NCHAN), t) == t.(channels := EmptyChannels())
    ensures Fold(PmsEraser(NPMS), t) == t.(pms := EmptyPms())
  {
    ChannelEraserFolds(NCHAN, t);
    PmsEraserFolds(NPMS, t);
    assert EmptyChannels()[..NCHAN] + t.channels[NCHAN..] == EmptyChannels();
    assert EmptyPms()[..NPMS] + t.pms[NPMS..] == EmptyPms();
  }

  // ---- Frame ----

  /** The tables a config file can hold. */
  datatype Table = ChannelTable | HomeTable | PmsTable

  function TableOf(e: Edit): Table {
    match e
    case PutChannel(_, _, _, _, _) => ChannelTable
    case PutHome(_, _) => HomeTable
    case PutPms(_, _, _) => PmsTable
  }

  /** The bits a PMS record uses: the used bit and the receive frequency. */
  function PmsOwned(k: nat): byte {
    if k == 0 then 0x80 else if k < 4 then 0xff else 0
  }

  /** The bits of each byte that belong to a table. */
  function OwnedBits(t: Table, a: nat): byte {
    match t
    case ChannelTable =>
      if OFFSET_CHANNELS <= a < OFFSET_CHANNELS + RECORD * NCHAN then 0xff
      else if OFFSET_NAMES <= a < OFFSET_NAMES + 8 * NCHAN then (if (a - OFFSET_NAMES) % 8 < 6 then 0xff else 0x80)
      else if OFFSET_BANKS <= a < OFFSET_BANKS + NBANKS * PLANE && (a - OFFSET_BANKS) % PLANE < NCHAN / 8 then 0xff
      else if OFFSET_SCAN <= a < OFFSET_SCAN + NCHAN / 4 then 0xff
      else 0
    case HomeTable =>
      if OFFSET_HOME <= a < OFFSET_HOME + RECORD * NHOME then 0xff else 0
    case PmsTable =>
      if OFFSET_PMS <= a < OFFSET_PMS + 2 * RECORD * NPMS then
        PmsOwned((a - OFFSET_PMS) % RECORD)
      else 0
  }

  /** A mask writes only inside `owned`. */
  predicate Within(m: Mask, owned: byte) {
    m.keep | owned == 0xff && m.put & !owned == 0
  }

  lemma WithinKeeps(b: byte, m: Mask, owned: byte)
    requires Within(m, owned)
    ensures Overwrite(b, m) & !owned == b & !owned
  {
  }

  lemma SmallMasksWithin(owned: byte)
    ensures Within(UNTOUCHED, owned)
    ensures forall m: Mask {:trigger Within(m, 0xff)} :: Within(m, 0xff)
    ensures Within(Mask(0x7f, 0), 0x80) && Within(Mask(0x7f, 0x80), 0x80)
  {
  }

  lemma NamePlace(i: nat, k: nat)
    requires k < 8
    ensures (8 * i + k) % 8 == k
  {
  }

  lemma PmsPlace(i: nat, k: nat)
    requires k < RECORD
    ensures (RECORD * i + k) % RECORD == k
  {
  }

  lemma ChannelMaskWithin(e: Edit, a: nat)
    requires e.PutChannel? && e.Valid()
    ensures Within(EditMask(e, a), OwnedBits(ChannelTable, a))
  {
    hide Record, Within, BitMask, ScanMask;
    SmallMasksWithin(OwnedBits(ChannelTable, a));
    if OFFSET_NAMES + 8 * e.i <= a < OFFSET_NAMES + 8 * (e.i + 1) {
      NamePlace(e.i, a - OFFSET_NAMES - 8 * e.i);
    }
  }

  lemma HomeMaskWithin(e: Edit, a: nat)
    requires e.PutHome? && e.Valid()
    ensures Within(EditMask(e, a), OwnedBits(HomeTable, a))
  {
    hide Record, Within;
    SmallMasksWithin(OwnedBits(HomeTable, a));
  }

  lemma PmsHalfWithin(hz: Hz, clear: bool, k: nat)
    requires k < RECORD
    ensures Within(PmsHalfMask(hz, clear, k), PmsOwned(k))
  {
    hide HzToFreq, Within;
    SmallMasksWithin(PmsOwned(k));
  }

  lemma PmsOwnedAt(i: nat, k: nat)
    requires i < 2 * NPMS && k < RECORD
    ensures OwnedBits(PmsTable, OFFSET_PMS + RECORD * i + k) == PmsOwned(k)
  {
    PmsPlace(i, k);
  }

  lemma PmsMaskWithin(e: Edit, a: nat)
    requires e.PutPms? && e.Valid()
    ensures Within(EditMask(e, a), OwnedBits(PmsTable, a))
  {
    hide PmsHalfMask, Within, OwnedBits, PmsOwned;
    var base := OFFSET_PMS + 2 * RECORD * e.pair;
    if base <= a < base + RECORD {
      PmsOwnedAt(2 * e.pair, a - base);
      PmsHalfWithin(e.lower, e.lower == 0, a - base);
    } else if base + RECORD <= a < base + 2 * RECORD {
      PmsOwnedAt(2 * e.pair + 1, a - base - RECORD);
      PmsHalfWithin(e.upper, e.lower == 0, a - base - RECORD);
    } else {
      SmallMasksWithin(OwnedBits(PmsTable, a));
    }
  }

  function OwnedByAny(tables: set<Table>, a: nat): byte {
    (if ChannelTable in tables then OwnedBits(ChannelTable, a) else 0)
    | (if HomeTable in tables then OwnedBits(HomeTable, a) else 0)
    | (if PmsTable in tables then OwnedBits(PmsTable, a) else 0)
  }

  lemma KeptOutsideMore(before: byte, after: byte, own: byte, all: byte)
    requires after & !own == before & !own && all & own == own
    ensures after & !all == before & !all
  {
  }

  lemma PartOfUnion(x: byte, y: byte, z: byte)
    ensures var u := x | y | z; u & x == x && u & y == y && u & z == z
  {
  }

  lemma OwnPart(t: Table, tables: set<Table>, a: nat)
    requires t in tables
    ensures OwnedByAny(tables, a) & OwnedBits(t, a) == OwnedBits(t, a)
  {
    hide OwnedBits;
    PartOfUnion(if ChannelTable in tables then OwnedBits(ChannelTable, a) else 0,
                if HomeTable in tables then OwnedBits(HomeTable, a) else 0,
                if PmsTable in tables then OwnedBits(PmsTable, a) else 0);
  }

  /** Every edit writes only bits that belong to its own table. */
  lemma EditWithinTable(e: Edit, a: nat)
    requires e.Valid()
    ensures Within(EditMask(e, a), OwnedBits(TableOf(e), a))
  {
    hide EditMask, OwnedBits, Within;
    match e {
      case PutChannel(_, _, _, _, _) => ChannelMaskWithin(e, a);
      case PutHome(_, _) => HomeMaskWithin(e, a);
      case PutPms(_, _, _) => PmsMaskWithin(e, a);
    }
  }

  lemma DoKeepsOutside(e: Edit, m: Image, tables: set<Table>, a: nat)
    requires e.Valid() && TableOf(e) in tables && a < IMAGE
    ensures Do(e, m)[a] & !OwnedByAny(tables, a) == m[a] & !OwnedByAny(tables, a)
  {
    hide Do, TableOf, EditMask, OwnedBits, OwnedByAny, Within, Overwrite;
    var own := OwnedBits(TableOf(e), a);
    EditWithinTable(e, a);
    WithinKeeps(m[a], EditMask(e, a), own);
    OwnPart(TableOf(e), tables, a);
    KeptOutsideMore(m[a], Do(e, m)[a], own, OwnedByAny(tables, a));
  }

  /** No bit outside the tables being edited ever changes. */
  lemma {:induction false} RunKeepsOutside(edits: seq<Edit>, m: Image, tables: set<Table>, a: nat)
    requires AllValid(edits) && a < IMAGE
    requires forall k :: 0 <= k < |edits| ==> TableOf(edits[k]) in tables
    ensures Run(edits, m)[a] & !OwnedByAny(tables, a) == m[a] & !OwnedByAny(tables, a)
  {
    hide Do, OwnedByAny;
    if edits == [] {
    } else {
      var n := |edits| - 1;
      RunKeepsOutside(edits[..n], m, tables, a);
      DoKeepsOutside(edits[n], Run(edits[..n], m), tables, a);
    }
  }
}

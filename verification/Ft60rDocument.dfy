/** What a configuration file means, block by block, and that the line machine computes exactly that. */
module Ft60rDocument {
  import opened ConfigText
  import opened Ft60rImage
  import opened Ft60rRuns
  import opened Ft60rConfig

  /** A header or parameter line with the rows under it. */
  datatype Block = Block(table: Option<Table>, rows: seq<Edit>)

  /** The blocks of a file, read as a document: no state, no erasing. */
  ghost function Blocks(lines: seq<string>, scan: Scanner): (blocks: seq<Block>)
    ensures blocks != []
  {
    if lines == [] then [Block(None, [])]
    else
      var n := |lines| - 1;
      NextBlocks(Blocks(lines[..n], scan), Classify(lines[n]), scan)
  }

  /** One more row in the last block. */
  ghost function Extended(blocks: seq<Block>, e: Edit): (next: seq<Block>)
    requires blocks != []
    ensures next != []
  {
    var last := blocks[|blocks| - 1];
    blocks[..|blocks| - 1] + [Block(last.table, last.rows + [e])]
  }

  ghost function NextBlocks(blocks: seq<Block>, item: Item, scan: Scanner): (next: seq<Block>)
    requires blocks != []
    ensures next != []
  {
    match item
    case Nothing => blocks
    case Header(text) => blocks + [Block(HeaderTable(text), [])]
    case Parameter(_, _) => blocks + [Block(None, [])]
    case Row(text) =>
      var e := RowEdit(blocks[|blocks| - 1].table, text, scan);
      if e.None? then blocks else Extended(blocks, e.value)
  }

  predicate RowsOf(rows: seq<Edit>, table: Option<Table>) {
    AllValid(rows) && forall k :: 0 <= k < |rows| ==> table == Some(TableOf(rows[k]))
  }

  ghost predicate WellFormed(blocks: seq<Block>) {
    forall k :: 0 <= k < |blocks| ==> RowsOf(blocks[k].rows, blocks[k].table)
  }

  /** The rows of the last block of a table that has any. */
  ghost function LastRows(blocks: seq<Block>, table: Table): (rows: seq<Edit>)
    requires WellFormed(blocks)
    ensures RowsOf(rows, Some(table))
  {
    if blocks == [] then []
    else
      var last := blocks[|blocks| - 1];
      if last.table == Some(table) && last.rows != [] then last.rows else LastRows(blocks[..|blocks| - 1], table)
  }

  /** All rows of a table, block after block. */
  ghost function AllRows(blocks: seq<Block>, table: Table): (rows: seq<Edit>)
    requires WellFormed(blocks)
    ensures RowsOf(rows, Some(table))
  {
    if blocks == [] then []
    else
      var last := blocks[|blocks| - 1];
      AllRows(blocks[..|blocks| - 1], table) + (if last.table == Some(table) then last.rows else [])
  }

  function Emptied(t: Tables): (r: Tables)
    requires t.Sized()
    ensures r.Sized()
  {
    Tables(EmptyChannels(), t.homes, EmptyPms())
  }

  /**
   * The meaning of a file: the channel and PMS tables are the rows of their last filled block over an empty
   * table, when there is such a block; home channels are only ever overwritten row by row.
   */
  ghost function Meaning(blocks: seq<Block>, t: Tables): (r: Tables)
    requires WellFormed(blocks) && t.Sized()
    ensures r.Sized()
  {
    Tables(if LastRows(blocks, ChannelTable) == [] then t.channels
           else Fold(LastRows(blocks, ChannelTable), Emptied(t)).channels,
           Fold(AllRows(blocks, HomeTable), t).homes,
           if LastRows(blocks, PmsTable) == [] then t.pms
           else Fold(LastRows(blocks, PmsTable), Emptied(t)).pms)
  }

  /** The machine's variables against the document read so far. */
  ghost predicate InStep(p: Progress, blocks: seq<Block>)
    requires blocks != []
  {
    var last := blocks[|blocks| - 1];
    && p.table == last.table
    && (p.table.Some? ==> (p.dirty <==> last.rows != []))
  }

  lemma NextInStep(p: Progress, blocks: seq<Block>, item: Item, scan: Scanner)
    requires blocks != [] && p.ok && InStep(p, blocks) && Advance(p, item, scan).ok
    ensures InStep(Advance(p, item, scan), NextBlocks(blocks, item, scan))
  {
    hide RowEdit, HeaderTable, Eraser;
  }

  /** A block without rows says nothing. */
  lemma EmptyBlock(blocks: seq<Block>, table: Option<Table>, t: Tables)
    requires WellFormed(blocks) && t.Sized()
    ensures WellFormed(blocks + [Block(table, [])])
    ensures forall T: Table :: LastRows(blocks + [Block(table, [])], T) == LastRows(blocks, T)
    ensures Meaning(blocks + [Block(table, [])], t) == Meaning(blocks, t)
  {
    hide Fold;
    var all := blocks + [Block(table, [])];
    assert all[..|all| - 1] == blocks;
    forall k | 0 <= k < |all|
      ensures RowsOf(all[k].rows, all[k].table)
    {
      if k < |blocks| { assert RowsOf(blocks[k].rows, blocks[k].table); }
    }
    forall T: Table
      ensures LastRows(all, T) == LastRows(blocks, T) && AllRows(all, T) == AllRows(blocks, T)
    {
    }
  }

  /** One more row in the last block: the row lists of its own table grow, the others stay. */
  lemma ExtendedRows(blocks: seq<Block>, e: Edit, table: Table)
    requires blocks != [] && WellFormed(blocks) && WellFormed(Extended(blocks, e))
    requires blocks[|blocks| - 1].table == Some(TableOf(e))
    ensures var last := blocks[|blocks| - 1];
            && LastRows(Extended(blocks, e), table)
               == (if table == TableOf(e) then last.rows + [e] else LastRows(blocks, table))
            && AllRows(Extended(blocks, e), table)
               == (if table == TableOf(e) then AllRows(blocks, table) + [e] else AllRows(blocks, table))
            && (table == TableOf(e) && last.rows != [] ==> LastRows(blocks, table) == last.rows)
  {
    hide Edit.Valid;
    var next := Extended(blocks, e);
    var n := |blocks| - 1;
    assert next[..n] == blocks[..n] && next[n].rows == blocks[n].rows + [e];
  }

  lemma ExtendedWellFormed(blocks: seq<Block>, e: Edit)
    requires blocks != [] && WellFormed(blocks) && e.Valid()
    requires blocks[|blocks| - 1].table == Some(TableOf(e))
    ensures WellFormed(Extended(blocks, e))
  {
    hide Edit.Valid;
  }

  /** The row step: erasing first when the block had no row yet, then one update. */
  lemma RowStep(blocks: seq<Block>, e: Edit, before: Tables, t: Tables)
    requires blocks != [] && WellFormed(blocks) && e.Valid() && t.Sized() && before.Sized()
    requires blocks[|blocks| - 1].table == Some(TableOf(e))
    requires before == Meaning(blocks, t)
    ensures WellFormed(Extended(blocks, e))
    ensures var erased := if blocks[|blocks| - 1].rows != [] then before else Fold(Eraser(TableOf(e)), before);
            Update(e, erased) == Meaning(Extended(blocks, e), t)
  {
    hide Edit.Valid, StoredChannel, StoredPms;
    ExtendedWellFormed(blocks, e);
    ExtendedRows(blocks, e, ChannelTable);
    ExtendedRows(blocks, e, HomeTable);
    ExtendedRows(blocks, e, PmsTable);
    ErasersEmpty(before);
    var last := blocks[|blocks| - 1];
    assert RowsOf(last.rows, last.table);
    var empty := Emptied(t);
    match e {
      case PutChannel(_, _, _, _, _) => FoldSnoc(last.rows, e, empty);
      case PutHome(_, _) => FoldSnoc(AllRows(blocks, HomeTable), e, t);
      case PutPms(_, _, _) => FoldSnoc(last.rows, e, empty);
    }
  }

  /** Every edit belongs to a table that has rows. */
  ghost predicate EditsCovered(edits: seq<Edit>, blocks: seq<Block>)
    requires WellFormed(blocks)
  {
    forall k :: 0 <= k < |edits| ==> LastRows(blocks, TableOf(edits[k])) != []
  }

  lemma RowEdits(edits: seq<Edit>, dirty: bool, e: Edit, t: Tables)
    requires AllValid(edits) && e.Valid() && t.Sized()
    ensures var all := NextEdits(edits, dirty, e);
            && AllValid(all)
            && Fold(all, t) == Update(e, if dirty then Fold(edits, t) else Fold(Eraser(TableOf(e)), Fold(edits, t)))
  {
    hide Edit.Valid, Update, Eraser;
    var erase := if dirty then [] else Eraser(TableOf(e));
    FoldConcat(edits, erase, t);
    FoldSnoc(edits + erase, e, t);
    assert dirty ==> edits + erase == edits;
  }

  lemma RowCovered(edits: seq<Edit>, dirty: bool, e: Edit, blocks: seq<Block>)
    requires blocks != [] && WellFormed(blocks) && e.Valid() && EditsCovered(edits, blocks)
    requires blocks[|blocks| - 1].table == Some(TableOf(e))
    ensures WellFormed(Extended(blocks, e))
    ensures EditsCovered(NextEdits(edits, dirty, e), Extended(blocks, e))
  {
    hide Edit.Valid, Eraser, Extended;
    ExtendedWellFormed(blocks, e);
    var erase := if dirty then [] else Eraser(TableOf(e));
    var all := edits + erase + [e];
    forall k | 0 <= k < |all|
      ensures LastRows(Extended(blocks, e), TableOf(all[k])) != []
    {
      ExtendedRows(blocks, e, TableOf(all[k]));
      if |edits| <= k < |edits| + |erase| {
        assert all[k] == erase[k - |edits|];
      }
    }
  }

  /** The row case of the invariant below. */
  lemma RowMeans(edits: seq<Edit>, dirty: bool, blocks: seq<Block>, e: Edit, t: Tables)
    requires t.Sized() && AllValid(edits) && e.Valid() && blocks != [] && WellFormed(blocks)
    requires blocks[|blocks| - 1].table == Some(TableOf(e)) && dirty == (blocks[|blocks| - 1].rows != [])
    requires Fold(edits, t) == Meaning(blocks, t)
    ensures WellFormed(Extended(blocks, e))
    ensures AllValid(NextEdits(edits, dirty, e))
    ensures Fold(NextEdits(edits, dirty, e), t) == Meaning(Extended(blocks, e), t)
  {
    hide Edit.Valid, Update, Eraser, Meaning, Extended, LastRows, Fold, NextEdits, TableOf;
    RowEdits(edits, dirty, e, t);
    RowStep(blocks, e, Meaning(blocks, t), t);
  }

  /** The invariant of the line machine: in step with the document, and its edits amount to the document's meaning. */
  lemma {:induction false} ParseMeans(lines: seq<string>, scan: Scanner, t: Tables)
    requires t.Sized() && Parse(lines, scan).ok
    ensures WellFormed(Blocks(lines, scan))
    ensures InStep(Parse(lines, scan), Blocks(lines, scan))
    ensures AllValid(Parse(lines, scan).edits)
    ensures Fold(Parse(lines, scan).edits, t) == Meaning(Blocks(lines, scan), t)
    ensures EditsCovered(Parse(lines, scan).edits, Blocks(lines, scan))
  {
    hide Edit.Valid, Update, Eraser, NextEdits, RowEdit, HeaderTable, ParameterAccepted, Classify, Meaning,
        Extended, LastRows;
    if lines == [] {
      NothingMeans(t);
    } else {
      var n := |lines| - 1;
      var p, blocks := Parse(lines[..n], scan), Blocks(lines[..n], scan);
      ParseMeans(lines[..n], scan, t);
      match Classify(lines[n]) {
        case Nothing =>
        case Header(text) => EmptyBlock(blocks, HeaderTable(text), t);
        case Parameter(_, _) => EmptyBlock(blocks, None, t);
        case Row(text) =>
          var e := RowEdit(p.table, text, scan).value;
          RowMeans(p.edits, p.dirty, blocks, e, t);
          RowCovered(p.edits, p.dirty, e, blocks);
      }
      NextInStep(p, blocks, Classify(lines[n]), scan);
    }
  }

  lemma NothingMeans(t: Tables)
    requires t.Sized()
    ensures WellFormed([Block(None, [])])
    ensures Meaning([Block(None, [])], t) == t
  {
    var none: seq<Block> := [];
    assert [Block(None, [])] == none + [Block(None, [])];
    EmptyBlock(none, None, t);
  }

  /**
   * An accepted file, applied to any image: the printed tables afterwards are what the document means over
   * the tables before.
   */
  lemma ConfigMeans(lines: seq<string>, scan: Scanner, m: Image)
    requires Parse(lines, scan).ok
    ensures WellFormed(Blocks(lines, scan))
    ensures ReadTables(Configured(lines, scan, m)) == Meaning(Blocks(lines, scan), ReadTables(m))
  {
    hide ReadTables, Meaning, Parse, Blocks;
    ParseMeans(lines, scan, ReadTables(m));
    RunRefinesFold(Parse(lines, scan).edits, m);
  }

  /** A file with channel rows leaves the same channel table behind whatever the image held; likewise for PMS. */
  lemma ConfigForgetsHistory(lines: seq<string>, scan: Scanner, m: Image, m': Image)
    requires Parse(lines, scan).ok && WellFormed(Blocks(lines, scan))
    ensures LastRows(Blocks(lines, scan), ChannelTable) != [] ==>
            ReadTables(Configured(lines, scan, m)).channels == ReadTables(Configured(lines, scan, m')).channels
    ensures LastRows(Blocks(lines, scan), PmsTable) != [] ==>
            ReadTables(Configured(lines, scan, m)).pms == ReadTables(Configured(lines, scan, m')).pms
  {
    hide ReadTables, Parse, Blocks, Configured, Update;
    ConfigMeans(lines, scan, m);
    ConfigMeans(lines, scan, m');
    var blocks := Blocks(lines, scan);
    SameErasedFold(LastRows(blocks, ChannelTable), Emptied(ReadTables(m)), Emptied(ReadTables(m')));
    SameErasedFold(LastRows(blocks, PmsTable), Emptied(ReadTables(m)), Emptied(ReadTables(m')));
  }

  lemma {:induction false} SameErasedFold(rows: seq<Edit>, t: Tables, t': Tables)
    requires AllValid(rows) && t.Sized() && t'.Sized()
    requires t.channels == t'.channels && t.pms == t'.pms
    ensures Fold(rows, t).channels == Fold(rows, t').channels
    ensures Fold(rows, t).pms == Fold(rows, t').pms
  {
    hide StoredChannel, StoredPms;
    if rows == [] {
    } else {
      SameErasedFold(rows[..|rows| - 1], t, t');
    }
  }

  /** The tables that have rows somewhere in the file. */
  ghost function Filled(blocks: seq<Block>): set<Table>
    requires WellFormed(blocks)
  {
    set table: Table | LastRows(blocks, table) != []
  }

  /** Bits outside the tables that have rows in the file never change. */
  lemma ConfigKeepsOutside(lines: seq<string>, scan: Scanner, m: Image, a: nat)
    requires Parse(lines, scan).ok && WellFormed(Blocks(lines, scan)) && a < IMAGE
    ensures var tables := Filled(Blocks(lines, scan));
            Configured(lines, scan, m)[a] & !OwnedByAny(tables, a) == m[a] & !OwnedByAny(tables, a)
  {
    hide ReadTables, Parse, Blocks, OwnedByAny, LastRows, Run, Edit.Valid, TableOf, Meaning, InStep, Fold;
    var blocks, edits := Blocks(lines, scan), Parse(lines, scan).edits;
    ParseMeans(lines, scan, ReadTables(m));
    forall k | 0 <= k < |edits|
      ensures TableOf(edits[k]) in Filled(blocks)
    {
    }
    RunKeepsOutside(edits, m, Filled(blocks), a);
  }
}

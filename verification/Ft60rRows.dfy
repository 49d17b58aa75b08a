/** What one row of an FT-60R configuration is accepted for, and what is read after it, in numbers. */
module Ft60rRows {
  import opened Bytes
  import opened ConfigText
  import opened Ft60rRecord
  import opened Ft60rImage
  import opened Ft60rLayout
  import opened Ft60rEdits
  import opened Ft60rRuns
  import opened Ft60rConfig
  import opened Ft60rSquelch
  import Ft60rName

  /** A line that turns out to be a row under the open table. */
  ghost predicate IsRow(lines: seq<string>, line: string, scan: Scanner, table: Table, c: Columns) {
    && Parse(lines, scan).ok && Parse(lines, scan).table == Some(table)
    && Classify(line).Row? && scan(table, Classify(line).text) == c
  }

  lemma RowParses(lines: seq<string>, line: string, scan: Scanner, table: Table, c: Columns)
    requires IsRow(lines, line, scan, table, c)
    ensures Parse(lines + [line], scan).ok <==> EditOf(table, c).Some?
  {
    hide EditOf, Classify, Eraser;
    assert (lines + [line])[..|lines|] == lines;
  }

  /** The image a row is applied to: as it was, or erased first when the row is the first under its header. */
  lemma RowStartsFrom(lines: seq<string>, line: string, scan: Scanner, table: Table, c: Columns, m: Image)
    returns (before: Image)
    requires IsRow(lines, line, scan, table, c) && Parse(lines + [line], scan).ok
    ensures EditOf(table, c).Some? && EditOf(table, c).value.Valid() && TableOf(EditOf(table, c).value) == table
    ensures Configured(lines + [line], scan, m) == Do(EditOf(table, c).value, before)
    ensures before == if Parse(lines, scan).dirty then Configured(lines, scan, m)
                      else Run(Eraser(table), Configured(lines, scan, m))
  {
    hide EditOf, Classify, Eraser, Do, Edit.Valid;
    RowParses(lines, line, scan, table, c);
    assert (lines + [line])[..|lines|] == lines;
    var p := Parse(lines, scan);
    var e := EditOf(table, c).value;
    ParsedEditsValid(lines, scan);
    ParsedEditsValid(lines + [line], scan);
    var erase := if p.dirty then [] else Eraser(table);
    var first := p.edits + erase;
    assert Parse(lines + [line], scan).edits == first + [e];
    RunSnoc(first, e, m);
    RunConcat(p.edits, erase, m);
    assert p.dirty ==> first == p.edits;
    before := Run(first, m);
  }

  lemma ValidHz(hz: int)
    ensures IsValidHz(hz) <==> 108_000_000 <= hz < 521_000_000 || 700_000_000 <= hz < 1_000_000_000
  {
  }

  // ---- Channel rows ----

  /** A channel row is accepted exactly for these columns; every other row ends the program. */
  lemma ChannelRowAccepted(lines: seq<string>, line: string, scan: Scanner, c: Columns)
    requires c.ChannelRow? && IsRow(lines, line, scan, ChannelTable, c)
    ensures Parse(lines + [line], scan).ok <==>
            && 1 <= c.num <= 1000 && c.rx.Some? && c.tx.Some?
            && (108_000_000 <= c.rx.value < 521_000_000 || 700_000_000 <= c.rx.value < 1_000_000_000)
            && (var tx := if c.tx.value.relative then c.rx.value + c.tx.value.hz else c.tx.value.hz;
                108_000_000 <= tx < 521_000_000 || 700_000_000 <= tx < 1_000_000_000)
            && (SameWord("High", c.power) || SameWord("Mid", c.power) || SameWord("Low", c.power))
            && (SameWord("Wide", c.modulation) || SameWord("Narrow", c.modulation) || SameWord("AM", c.modulation))
            && ((c.scan != "" && (c.scan[0] == '+' || c.scan[0] == '-')) || SameWord("Only", c.scan))
            && ((c.banks != "" && c.banks[0] == '-') || forall k :: 0 <= k < |c.banks| ==> '0' <= c.banks[k] <= '9')
  {
    hide SameWord, Classify, Parse, IsRow;
    RowParses(lines, line, scan, ChannelTable, c);
    if c.rx.Some? {
      ValidHz(c.rx.value);
      if c.tx.Some? {
        ValidHz(if c.tx.value.relative then c.rx.value + c.tx.value.hz else c.tx.value.hz);
      }
    }
  }

  /** The two frequencies of a channel or home row as they are read afterwards. */
  lemma FrequenciesRead(t: Tuning)
    ensures ReadBack(t).rx == t.rx - t.rx % 2500
    ensures ReadBack(t).tx ==
            if t.tx == t.rx then t.rx - t.rx % 2500
            else if 0 < t.tx - t.rx < 12_800_000 then
              t.rx - t.rx % 2500 + (t.tx - t.rx + 25_000) / 50_000 % 256 * 50_000
            else if 0 < t.rx - t.tx < 12_800_000 then
              t.rx - t.rx % 2500 - (t.rx - t.tx + 25_000) / 50_000 % 256 * 50_000
            else t.tx - t.tx % 2500
  {
  }

  lemma ModulationWords(word: string)
    ensures ModulationOf(word).Some? ==>
              && ModulationOf(word).value.0 == !SameWord("Narrow", word)
              && ModulationOf(word).value.1 == SameWord("AM", word)
  {
    assert |"Wide"| == 4 && |"Narrow"| == 6 && |"AM"| == 2;
    hide Folded;
  }

  /** The edit behind an accepted channel row. */
  lemma ChannelEditIs(c: Columns)
    requires c.ChannelRow? && EditOf(ChannelTable, c).Some?
    ensures c.rx.Some? && c.tx.Some? && 1 <= c.num <= 1000 && BanksOf(c.banks).Some?
    ensures var e := EditOf(ChannelTable, c).value;
            && e.PutChannel? && e.i == c.num - 1 && e.name == c.name
            && e.tuning.rx == c.rx.value
            && e.tuning.tx == (if c.tx.value.relative then c.rx.value + c.tx.value.hz else c.tx.value.hz)
            && e.tuning.squelch == Encode(c.rxSquelch, c.txSquelch)
            && e.tuning.power == (if SameWord("High", c.power) then 0 else if SameWord("Mid", c.power) then 1 else 2)
            && e.tuning.wide == !SameWord("Narrow", c.modulation) && e.tuning.am == SameWord("AM", c.modulation)
            && e.scan == (if c.scan == "" then 2 else if c.scan[0] == '+' then 0 else if c.scan[0] == '-' then 1 else 2)
            && e.banks == BanksOf(c.banks).value
            && e.tuning.rx > 0
  {
    hide SameWord, Encode, BanksOf;
    ModulationWords(c.modulation);
    ValidHz(c.rx.value);
  }

  /** What the channel of an accepted row reads as: the number is one more than its place in the table. */
  lemma ChannelRowReads(lines: seq<string>, line: string, scan: Scanner, c: Columns, m: Image)
    requires c.ChannelRow? && IsRow(lines, line, scan, ChannelTable, c) && Parse(lines + [line], scan).ok
    ensures 1 <= c.num <= 1000 && c.rx.Some? && c.tx.Some?
    ensures var rx := c.rx.value;
            var tx := if c.tx.value.relative then rx + c.tx.value.hz else c.tx.value.hz;
            var f := ReadChannel(Configured(lines + [line], scan, m), c.num - 1).fields;
            && f.rx == rx - rx % 2500
            && f.tx == (if tx == rx then rx - rx % 2500
                        else if 0 < tx - rx < 12_800_000 then
                          rx - rx % 2500 + (tx - rx + 25_000) / 50_000 % 256 * 50_000
                        else if 0 < rx - tx < 12_800_000 then
                          rx - rx % 2500 - (rx - tx + 25_000) / 50_000 % 256 * 50_000
                        else tx - tx % 2500)
            && f.squelch == Decode(Encode(c.rxSquelch, c.txSquelch))
            && f.power == (if SameWord("High", c.power) then 0 else if SameWord("Mid", c.power) then 1 else 2)
            && f.wide == !SameWord("Narrow", c.modulation) && f.am == SameWord("AM", c.modulation)
  {
    hide SameWord, Classify, Parse, IsRow, Configured, Encode, Decode, Do, Edit.Valid, ReadChannel, EditOf;
    var before := RowStartsFrom(lines, line, scan, ChannelTable, c, m);
    var e := EditOf(ChannelTable, c).value;
    ChannelEditIs(c);
    ChannelReadsBack(e, before);
    StoredIs(e);
    FrequenciesRead(e.tuning);
  }

  lemma StoredIs(e: Edit)
    requires e.PutChannel? && e.Valid() && e.tuning.rx > 0
    ensures var t, c := e.tuning, StoredChannel(e.name, e.tuning, e.banks);
            && c.name == Ft60rName.StoredName(e.name) && c.banks == (set b | b in e.banks && b < NBANKS)
            && c.fields.rx == ReadBack(t).rx && c.fields.tx == ReadBack(t).tx
            && c.fields.squelch == Decode(t.squelch) && c.fields.power == t.power
            && c.fields.wide == t.wide && c.fields.am == t.am
  {
    hide Decode, TxReadBack, Ft60rName.StoredName;
  }

  lemma BankDigits(word: string, b: nat)
    requires BanksOf(word).Some?
    ensures b in BanksOf(word).value
            <==> (word == "" || word[0] != '-') && exists k :: 0 <= k < |word| && word[k] as int == '0' as int + b
  {
    if word != "" && word[0] == '-' {
    } else {
      var banks := BanksOf(word).value;
      assert forall k :: 0 <= k < |word| ==> IsDigit(word[k]);
      if b in banks {
        var k :| 0 <= k < |word| && IsDigit(word[k]) && (word[k] - '0') as nat == b;
        assert word[k] as int == '0' as int + b;
      }
      if exists k :: 0 <= k < |word| && word[k] as int == '0' as int + b {
        var k :| 0 <= k < |word| && word[k] as int == '0' as int + b;
        assert IsDigit(word[k]) && (word[k] - '0') as nat == b;
      }
    }
  }

  /** Its name, its banks, one for every digit of the word, and the two bits of its scan mode. */
  lemma ChannelRowPlaces(lines: seq<string>, line: string, scan: Scanner, c: Columns, m: Image, b: nat)
    requires c.ChannelRow? && IsRow(lines, line, scan, ChannelTable, c) && Parse(lines + [line], scan).ok
    ensures 1 <= c.num <= 1000
    ensures var after := Configured(lines + [line], scan, m);
            && ReadChannel(after, c.num - 1).name == Ft60rName.StoredName(c.name)
            && (b in ReadChannel(after, c.num - 1).banks
                <==> (c.banks == "" || c.banks[0] != '-')
                     && exists k :: 0 <= k < |c.banks| && c.banks[k] as int == '0' as int + b)
            && Slot(after[0x6ec8 + (c.num - 1) / 4], (c.num - 1) % 4) as int
               == if c.scan == "" then 2 else if c.scan[0] == '+' then 0 else if c.scan[0] == '-' then 1 else 2
  {
    hide SameWord, Classify, Parse, IsRow, Configured, Encode, Decode, Do, Edit.Valid, ReadChannel, EditOf, BanksOf,
        Slot, Ft60rName.StoredName, TxReadBack;
    var before := RowStartsFrom(lines, line, scan, ChannelTable, c, m);
    var e := EditOf(ChannelTable, c).value;
    ChannelEditIs(c);
    ChannelReadsBack(e, before);
    StoredIs(e);
    ScanPlace(e, before, e.i % 4);
    BankDigits(c.banks, b);
    DigitsBelowTen(c.banks, b);
  }

  lemma DigitsBelowTen(word: string, b: nat)
    requires BanksOf(word).Some?
    ensures b in BanksOf(word).value ==> b < 10
  {
  }

  // ---- Home rows ----

  /** A home row is accepted exactly for these columns. */
  lemma HomeRowAccepted(lines: seq<string>, line: string, scan: Scanner, c: Columns)
    requires c.HomeRow? && IsRow(lines, line, scan, HomeTable, c)
    ensures Parse(lines + [line], scan).ok <==>
            && c.band in {144, 250, 350, 430, 850} && c.rx.Some? && c.tx.Some?
            && (108_000_000 <= c.rx.value < 521_000_000 || 700_000_000 <= c.rx.value < 1_000_000_000)
            && (var tx := if c.tx.value.relative then c.rx.value + c.tx.value.hz else c.tx.value.hz;
                108_000_000 <= tx < 521_000_000 || 700_000_000 <= tx < 1_000_000_000)
            && (SameWord("High", c.power) || SameWord("Mid", c.power) || SameWord("Low", c.power))
            && (SameWord("Wide", c.modulation) || SameWord("Narrow", c.modulation) || SameWord("AM", c.modulation))
  {
    hide SameWord, Classify, Parse, IsRow;
    RowParses(lines, line, scan, HomeTable, c);
    if c.rx.Some? {
      ValidHz(c.rx.value);
      if c.tx.Some? {
        ValidHz(if c.tx.value.relative then c.rx.value + c.tx.value.hz else c.tx.value.hz);
      }
    }
  }

  lemma HomeEditIs(c: Columns)
    requires c.HomeRow? && EditOf(HomeTable, c).Some?
    ensures c.rx.Some? && c.tx.Some?
    ensures var e := EditOf(HomeTable, c).value;
            && e.PutHome?
            && e.band == (if c.band == 144 then 0 else if c.band == 250 then 1 else if c.band == 350 then 2
                          else if c.band == 430 then 3 else 4)
            && e.tuning.rx == c.rx.value
            && e.tuning.tx == (if c.tx.value.relative then c.rx.value + c.tx.value.hz else c.tx.value.hz)
            && e.tuning.squelch == Encode(c.rxSquelch, c.txSquelch)
            && e.tuning.power == (if SameWord("High", c.power) then 0 else if SameWord("Mid", c.power) then 1 else 2)
            && e.tuning.wide == !SameWord("Narrow", c.modulation) && e.tuning.am == SameWord("AM", c.modulation)
  {
    hide SameWord, Encode;
    ModulationWords(c.modulation);
  }

  /** What the home channel of an accepted row reads as: the bands in increasing order are records 0 to 4. */
  lemma HomeRowReads(lines: seq<string>, line: string, scan: Scanner, c: Columns, m: Image)
    requires c.HomeRow? && IsRow(lines, line, scan, HomeTable, c) && Parse(lines + [line], scan).ok
    ensures c.rx.Some? && c.tx.Some?
    ensures var rx := c.rx.value;
            var tx := if c.tx.value.relative then rx + c.tx.value.hz else c.tx.value.hz;
            var band := if c.band == 144 then 0 else if c.band == 250 then 1 else if c.band == 350 then 2
                        else if c.band == 430 then 3 else 4;
            var f := ReadHome(Configured(lines + [line], scan, m), band);
            && f.rx == rx - rx % 2500
            && f.tx == (if tx == rx then rx - rx % 2500
                        else if 0 < tx - rx < 12_800_000 then
                          rx - rx % 2500 + (tx - rx + 25_000) / 50_000 % 256 * 50_000
                        else if 0 < rx - tx < 12_800_000 then
                          rx - rx % 2500 - (rx - tx + 25_000) / 50_000 % 256 * 50_000
                        else tx - tx % 2500)
            && f.squelch == Decode(Encode(c.rxSquelch, c.txSquelch))
            && f.power == (if SameWord("High", c.power) then 0 else if SameWord("Mid", c.power) then 1 else 2)
            && f.wide == !SameWord("Narrow", c.modulation) && f.am == SameWord("AM", c.modulation)
  {
    hide SameWord, Classify, Parse, IsRow, Configured, Encode, Decode, Do, Edit.Valid, ReadHome, EditOf, TxReadBack;
    var before := RowStartsFrom(lines, line, scan, HomeTable, c, m);
    var e := EditOf(HomeTable, c).value;
    HomeEditIs(c);
    HomeReadsBack(e, before);
    FrequenciesRead(e.tuning);
  }

  // ---- PMS rows ----

  /** A PMS row is accepted exactly for these columns. */
  lemma PmsRowAccepted(lines: seq<string>, line: string, scan: Scanner, c: Columns)
    requires c.PmsRow? && IsRow(lines, line, scan, PmsTable, c)
    ensures Parse(lines + [line], scan).ok <==>
            && 1 <= c.num <= 50 && c.lower.Some? && c.upper.Some?
            && (108_000_000 <= c.lower.value < 521_000_000 || 700_000_000 <= c.lower.value < 1_000_000_000)
            && (108_000_000 <= c.upper.value < 521_000_000 || 700_000_000 <= c.upper.value < 1_000_000_000)
  {
    hide Classify, Parse, IsRow;
    RowParses(lines, line, scan, PmsTable, c);
    if c.lower.Some? {
      ValidHz(c.lower.value);
    }
    if c.upper.Some? {
      ValidHz(c.upper.value);
    }
  }

  lemma PmsEditIs(c: Columns)
    requires c.PmsRow? && EditOf(PmsTable, c).Some?
    ensures c.lower.Some? && c.upper.Some? && 1 <= c.num <= 50
    ensures EditOf(PmsTable, c).value == PutPms(c.num - 1, c.lower.value, c.upper.value) && c.lower.value > 0
  {
    ValidHz(c.lower.value);
    ValidHz(c.upper.value);
  }

  /** The two limits of an accepted row are those of the pair one below its number. */
  lemma PmsRowReads(lines: seq<string>, line: string, scan: Scanner, c: Columns, m: Image)
    requires c.PmsRow? && IsRow(lines, line, scan, PmsTable, c) && Parse(lines + [line], scan).ok
    ensures c.lower.Some? && c.upper.Some? && 1 <= c.num <= 50
    ensures ReadPms(Configured(lines + [line], scan, m), c.num - 1)
         == (c.lower.value - c.lower.value % 2500, c.upper.value - c.upper.value % 2500)
  {
    hide Classify, Parse, IsRow, Configured, Do, Edit.Valid, ReadPms, EditOf;
    var before := RowStartsFrom(lines, line, scan, PmsTable, c, m);
    PmsEditIs(c);
    PmsReadsBack(EditOf(PmsTable, c).value, before);
  }

  // ---- The other entries ----

  lemma ErasedTables(table: Table, m: Image)
    ensures var t, erased := ReadTables(m), ReadTables(Run(Eraser(table), m));
            && erased.homes == t.homes
            && erased.channels == (if table == ChannelTable then EmptyChannels() else t.channels)
            && erased.pms == if table == PmsTable then EmptyPms() else t.pms
  {
    hide ReadTables, Run, Fold;
    RunRefinesFold(Eraser(table), m);
    ErasersEmpty(ReadTables(m));
    FoldOfNothing(ReadTables(m));
  }

  lemma FoldOfNothing(t: Tables)
    requires t.Sized()
    ensures Fold([], t) == t
  {
  }

  /** After an accepted row every other entry is as before it, except that the first channel row under a header leaves
      the other channels empty, and the first PMS row the other pairs. */
  lemma OthersAfterRow(lines: seq<string>, line: string, scan: Scanner, table: Table, c: Columns, m: Image,
                       i: nat, h: nat, p: nat)
    requires IsRow(lines, line, scan, table, c) && Parse(lines + [line], scan).ok && i < 1000 && h < 5 && p < 50
    requires c.ChannelRow? ==> i != c.num - 1
    requires c.HomeRow? ==> c.band != [144, 250, 350, 430, 850][h]
    requires c.PmsRow? ==> p != c.num - 1
    ensures var was, now := Configured(lines, scan, m), Configured(lines + [line], scan, m);
            var first := !Parse(lines, scan).dirty;
            && ReadChannel(now, i)
               == (if first && table == ChannelTable then Channel(NothingRead(), "", {}) else ReadChannel(was, i))
            && ReadHome(now, h) == ReadHome(was, h)
            && ReadPms(now, p) == if first && table == PmsTable then (0, 0) else ReadPms(was, p)
  {
    hide Classify, Parse, IsRow, Configured, Do, Edit.Valid, EditOf, Eraser, Run, ReadChannel, ReadHome, ReadPms;
    var was := Configured(lines, scan, m);
    var before := RowStartsFrom(lines, line, scan, table, c, m);
    var e := EditOf(table, c).value;
    EditTargets(table, c);
    OtherChannelKept(e, before, i);
    OtherHomeKept(e, before, h);
    OtherPmsKept(e, before, p);
    ErasedTables(table, was);
    TablesHold(was, i, h, p);
    TablesHold(before, i, h, p);
    EmptyEntries(i, p);
  }

  lemma EditTargets(table: Table, c: Columns)
    requires EditOf(table, c).Some?
    ensures var e := EditOf(table, c).value;
            && (e.PutChannel? <==> c.ChannelRow?) && (e.PutHome? <==> c.HomeRow?) && (e.PutPms? <==> c.PmsRow?)
            && (e.PutChannel? ==> e.i == c.num - 1) && (e.PutPms? ==> e.pair == c.num - 1)
            && (e.PutHome? ==> e.band < 5 && c.band == [144, 250, 350, 430, 850][e.band])
  {
    hide TuningOf;
  }

  lemma TablesHold(m: Image, i: nat, h: nat, p: nat)
    requires i < NCHAN && h < NHOME && p < NPMS
    ensures ReadTables(m).channels[i] == ReadChannel(m, i) && ReadTables(m).homes[h] == ReadHome(m, h)
    ensures ReadTables(m).pms[p] == ReadPms(m, p)
  {
    hide ReadChannel, ReadHome, ReadPms;
  }

  lemma EmptyEntries(i: nat, p: nat)
    requires i < NCHAN && p < NPMS
    ensures EmptyChannels()[i] == Channel(NothingRead(), "", {}) && EmptyPms()[p] == (0, 0)
  {
  }

  // ---- Other lines ----

  /** The three headers, in any case and with anything behind; no row has been read under a new one. */
  lemma HeadersInWords(lines: seq<string>, line: string, scan: Scanner)
    requires Parse(lines, scan).ok && Classify(line).Header?
    ensures var text, p := Classify(line).text, Parse(lines + [line], scan);
            && (p.ok && p.table == Some(ChannelTable) <==> |text| >= 7 && SameWord(text[..7], "channel"))
            && (p.ok && p.table == Some(HomeTable) <==> |text| >= 4 && SameWord(text[..4], "home"))
            && (p.ok && p.table == Some(PmsTable) <==> |text| >= 3 && SameWord(text[..3], "pms"))
            && (p.ok ==> p.table.Some? && !p.dirty)
  {
    hide Classify, Eraser;
    assert (lines + [line])[..|lines|] == lines;
    assert Folded("Channel") == Folded("channel") && Folded("Home") == Folded("home") && Folded("PMS") == Folded("pms");
    assert Folded("channel")[0] == 'c' && Folded("home")[0] == 'h' && Folded("pms")[0] == 'p';
    var text := Classify(line).text;
    if |text| >= 7 { assert Folded(text[..7])[0] == Lower(text[0]); }
    if |text| >= 4 { assert Folded(text[..4])[0] == Lower(text[0]); }
    if |text| >= 3 { assert Folded(text[..3])[0] == Lower(text[0]); }
  }

  /** The only parameter, in any case; a parameter closes the table. */
  lemma ParameterInWords(lines: seq<string>, line: string, scan: Scanner)
    requires Parse(lines, scan).ok && Classify(line).Parameter?
    ensures Parse(lines + [line], scan).ok
            <==> SameWord(Classify(line).name, "radio") && SameWord(Classify(line).value, "yaesu ft-60r")
    ensures Parse(lines + [line], scan).table.None?
  {
    hide Classify, Eraser;
    assert (lines + [line])[..|lines|] == lines;
    assert Folded("Radio") == Folded("radio") && Folded("Yaesu FT-60R") == Folded("yaesu ft-60r");
  }

  /** A row under no table ends the program; an accepted one leaves the table open, with the mark that it has rows. */
  lemma RowsAndTables(lines: seq<string>, line: string, scan: Scanner)
    requires Parse(lines, scan).ok && Classify(line).Row?
    ensures var p, q := Parse(lines, scan), Parse(lines + [line], scan);
            && (p.table.None? ==> !q.ok)
            && (q.ok ==> q.table == p.table && q.dirty)
  {
    hide Classify, Eraser, EditOf;
    assert (lines + [line])[..|lines|] == lines;
  }

  /** A bad line is the last one read, and a line without text changes nothing. */
  lemma BadAndEmptyLines(lines: seq<string>, line: string, scan: Scanner)
    ensures !Parse(lines, scan).ok || Classify(line).Nothing? ==> Parse(lines + [line], scan) == Parse(lines, scan)
    ensures Parse([], scan).ok && Parse([], scan).table.None? && Parse([], scan).edits == []
  {
    hide Classify, Eraser, EditOf;
    assert (lines + [line])[..|lines|] == lines;
  }
}

/** The FT-60R configuration: rows to edits, and the line machine that applies them. */
module Ft60rConfig {
  import opened ConfigText
  import opened Ft60rRecord
  import opened Ft60rImage
  import opened Ft60rRuns
  import opened Ft60rSquelch

  datatype Option<+T> = None | Some(value: T)

  /** A transmit column: '+n' and '-n' are offsets from the receive frequency. */
  datatype Transmit = Transmit(relative: bool, hz: int)

  /** The columns of a row once sscanf has split and scanned them; an unreadable number is None. */
  datatype Columns =
    | ChannelRow(num: int, name: string, rx: Option<int>, tx: Option<Transmit>, rxSquelch: Squelch, txSquelch: Squelch,
                 power: string, modulation: string, scan: string, banks: string)
    | HomeRow(band: int, rx: Option<int>, tx: Option<Transmit>, rxSquelch: Squelch, txSquelch: Squelch,
              power: string, modulation: string)
    | PmsRow(num: int, lower: Option<int>, upper: Option<int>)
    | Malformed

  /** Text scanning is a parameter: any function from a table and a row's text to its columns. */
  type Scanner = (Table, string) -> Columns

  predicate IsValidFrequency(mhz: int) {
    108 <= mhz <= 520 || 700 <= mhz <= 999
  }

  predicate IsValidHz(hz: int) {
    IsValidFrequency(hz / 1_000_000)
  }

  function Absolute(tx: Transmit, rx: int): int {
    if tx.relative then rx + tx.hz else tx.hz
  }

  function PowerOf(word: string): Option<nat> {
    if SameWord("High", word) then Some(0)
    else if SameWord("Mid", word) then Some(1)
    else if SameWord("Low", word) then Some(2)
    else None
  }

  /** The pair (wide, am). */
  function ModulationOf(word: string): Option<(bool, bool)> {
    if SameWord("Wide", word) then Some((true, false))
    else if SameWord("Narrow", word) then Some((false, false))
    else if SameWord("AM", word) then Some((true, true))
    else None
  }

  function ScanOf(word: string): (scan: Option<nat>)
    ensures scan.Some? ==> scan.value < 3
  {
    if word != "" && word[0] == '+' then Some(0)
    else if word != "" && word[0] == '-' then Some(1)
    else if SameWord("Only", word) then Some(2)
    else None
  }

  predicate IsDigit(c: char) { '0' <= c <= '9' }

  /** encode_banks: one bit per digit of the word. */
  function BanksOf(word: string): Option<set<nat>> {
    if word != "" && word[0] == '-' then Some({})
    else if forall k :: 0 <= k < |word| ==> IsDigit(word[k]) then
      Some(set k | 0 <= k < |word| && IsDigit(word[k]) :: (word[k] - '0') as nat)
    else None
  }

  function HomeIndex(band: int): Option<nat> {
    if band == 144 then Some(0)
    else if band == 250 then Some(1)
    else if band == 350 then Some(2)
    else if band == 430 then Some(3)
    else if band == 850 then Some(4)
    else None
  }

  /** The tuning columns common to channel and home rows. */
  ghost function TuningOf(rx: Option<int>, tx: Option<Transmit>, rxSquelch: Squelch, txSquelch: Squelch,
                          power: string, modulation: string): (t: Option<Tuning>)
    ensures t.Some? ==> t.value.Fits() && IsValidHz(t.value.rx) && IsValidHz(t.value.tx)
  {
    if rx.None? || !IsValidHz(rx.value) || tx.None? || !IsValidHz(Absolute(tx.value, rx.value))
       || PowerOf(power).None? || ModulationOf(modulation).None? then None
    else
      var (wide, am) := ModulationOf(modulation).value;
      Some(Tuning(rx.value, Absolute(tx.value, rx.value), Encode(rxSquelch, txSquelch),
                  PowerOf(power).value, wide, am))
  }

  /** The edit a row asks for, or None when the row is refused. */
  ghost function EditOf(table: Table, c: Columns): (e: Option<Edit>)
    ensures e.Some? ==> e.value.Valid() && TableOf(e.value) == table
  {
    match (table, c)
    case (ChannelTable, ChannelRow(num, name, rx, tx, rq, tq, power, modulation, scan, banks)) =>
      var t := TuningOf(rx, tx, rq, tq, power, modulation);
      if !(1 <= num <= NCHAN) || t.None? || ScanOf(scan).None? || BanksOf(banks).None? then None
      else Some(PutChannel(num - 1, name, t.value, ScanOf(scan).value, BanksOf(banks).value))
    case (HomeTable, HomeRow(band, rx, tx, rq, tq, power, modulation)) =>
      var t := TuningOf(rx, tx, rq, tq, power, modulation);
      if HomeIndex(band).None? || t.None? then None
      else Some(PutHome(HomeIndex(band).value, t.value))
    case (PmsTable, PmsRow(num, lower, upper)) =>
      if !(1 <= num <= NPMS) || lower.None? || !IsValidHz(lower.value) || upper.None? || !IsValidHz(upper.value) then
        None
      else Some(PutPms(num - 1, lower.value, upper.value))
    case _ => None
  }

  /** parse_header. */
  function HeaderTable(line: string): Option<Table> {
    if StartsWith(line, "Channel") then Some(ChannelTable)
    else if StartsWith(line, "Home") then Some(HomeTable)
    else if StartsWith(line, "PMS") then Some(PmsTable)
    else None
  }

  /** parse_parameter: only the radio's own name is accepted. */
  predicate ParameterAccepted(name: string, value: string) {
    SameWord("Radio", name) && SameWord("Yaesu FT-60R", value)
  }

  // ---- The line machine ----

  /**
   * The variables of radio_parse_config, with the edits made so far. `ok` turns false, for good, when the
   * program exits on a bad line.
   */
  datatype Progress = Progress(ok: bool, table: Option<Table>, dirty: bool, edits: seq<Edit>)

  const START := Progress(true, None, false, [])

  /** The edits that erase a table when its first row arrives; home channels are not erased. */
  function Eraser(table: Table): (edits: seq<Edit>)
    ensures AllValid(edits)
    ensures forall k :: 0 <= k < |edits| ==> TableOf(edits[k]) == table
  {
    match table
    case ChannelTable => ChannelEraser(NCHAN)
    case HomeTable => []
    case PmsTable => PmsEraser(NPMS)
  }

  /** The edit of a row under the current table, if there is one and the row is accepted. */
  ghost function RowEdit(table: Option<Table>, text: string, scan: Scanner): (e: Option<Edit>)
    ensures e.Some? ==> e.value.Valid() && table == Some(TableOf(e.value))
  {
    if table.None? then None else EditOf(table.value, scan(table.value, text))
  }

  /** The edits after a row: the first row under a header erases its table before it is stored. */
  function NextEdits(edits: seq<Edit>, dirty: bool, e: Edit): (next: seq<Edit>) {
    edits + (if dirty then [] else Eraser(TableOf(e))) + [e]
  }

  ghost function Advance(p: Progress, item: Item, scan: Scanner): Progress {
    match item
    case Nothing => p
    case Header(text) =>
      if HeaderTable(text).None? then p.(ok := false, table := None)
      else p.(table := HeaderTable(text), dirty := false)
    case Parameter(name, value) =>
      if ParameterAccepted(name, value) then p.(table := None) else p.(ok := false, table := None)
    case Row(text) =>
      var e := RowEdit(p.table, text, scan);
      if e.None? then p.(ok := false)
      else p.(dirty := true, edits := NextEdits(p.edits, p.dirty, e.value))
  }

  /** Reading lines until they end or one is bad. */
  ghost function Parse(lines: seq<string>, scan: Scanner): Progress {
    if lines == [] then START
    else
      var n := |lines| - 1;
      var p := Parse(lines[..n], scan);
      if p.ok then Advance(p, Classify(lines[n]), scan) else p
  }

  lemma {:induction false} ParsedEditsValid(lines: seq<string>, scan: Scanner)
    ensures AllValid(Parse(lines, scan).edits)
  {
    hide Edit.Valid, RowEdit, HeaderTable, ParameterAccepted, Eraser, Classify;
    if lines == [] {
    } else {
      ParsedEditsValid(lines[..|lines| - 1], scan);
    }
  }

  /** The image a configuration leaves behind. */
  ghost function Configured(lines: seq<string>, scan: Scanner, m: Image): Image {
    ParsedEditsValid(lines, scan);
    Run(Parse(lines, scan).edits, m)
  }

  /** Applying the same configuration again changes no byte, whether or not it stopped at a bad line. */
  lemma ConfigIdempotent(lines: seq<string>, scan: Scanner, m: Image)
    ensures Configured(lines, scan, Configured(lines, scan, m)) == Configured(lines, scan, m)
  {
    ParsedEditsValid(lines, scan);
    RunTwice(Parse(lines, scan).edits, m);
  }
}

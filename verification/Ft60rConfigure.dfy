/** Configuring an FT-60R: a clone, a backup file, the edits of a configuration, and an upload of the result. */
module Ft60rConfigure {
  import opened Bytes
  import opened SerialLink
  import opened Ft60rClone
  import opened Ft60rBackup
  import opened Ft60rImage
  import opened Ft60rRuns
  import opened Ft60rConfig
  import opened Ft60rDocument
  import opened Radio

  /** How the run ends, with the file it has written as backup.img. */
  datatype Configure =
    | NoClone
    | BadLine(backup: seq<byte>)
    | Refused(backup: seq<byte>)
    | Ready(backup: seq<byte>, g: Globals)

  ghost function AfterConfig(g: Globals, lines: seq<string>, scan: Scanner): (r: Globals)
    requires Sized(g)
    ensures Sized(r)
  {
    g.(mem := Configured(lines, scan, g.mem))
  }

  /** The program with -c on an FT-60R, from the line as connecting left it up to the upload it starts. */
  ghost function ConfigRun(input: seq<Signal>, g: Globals, lines: seq<string>, scan: Scanner): (r: Configure)
    requires Sized(g)
    ensures r.Ready? ==> Sized(r.g)
  {
    var clone := Download(input);
    if !clone.Loaded? then NoClone
    else
      var down := AfterDownload(g, clone);
      var done := AfterConfig(AfterSave(down), lines, scan);
      if !Parse(lines, scan).ok then BadLine(Saved(down))
      else if !Compatible(done) then Refused(Saved(down))
      else Ready(Saved(down), done)
  }

  /** The run starts an upload exactly when a clone was loaded and every line accepted: here the identifiers agree. */
  lemma ConfigRunUploads(input: seq<Signal>, g: Globals, lines: seq<string>, scan: Scanner)
    requires Sized(g)
    ensures ConfigRun(input, g, lines, scan).Ready? <==> Download(input).Loaded? && Parse(lines, scan).ok
    ensures !ConfigRun(input, g, lines, scan).Refused?
  {
    hide Download, Parse, Configured, Saved;
  }

  /** The image between the backup and the first edit. */
  function Cloned(g: Globals, clone: Outcome): Image
    requires Sized(g) && IsClone(clone)
  {
    AfterSave(AfterDownload(g, clone)).mem
  }

  lemma ReadyIs(input: seq<Signal>, g: Globals, lines: seq<string>, scan: Scanner, run: Configure)
    requires Sized(g) && run == ConfigRun(input, g, lines, scan) && run.Ready?
    ensures var clone := Download(input);
            && IsClone(clone) && Parse(lines, scan).ok
            && run.backup == clone.ident + clone.body
            && run.g == Globals(clone.ident, clone.ident, Configured(lines, scan, Cloned(g, clone)))
  {
    hide Download, Parse, Configured, Saved;
    FileOfClone(g, Download(input));
  }

  /** The upload that the run has started: whether it returns, and what it sends. */
  function UploadOf(run: Configure, passes: seq<seq<Signal>>): (bool, seq<byte>)
    requires run.Ready? && Sized(run.g)
  {
    Upload(passes, run.g.radioIdent, run.g.mem[IDENT..MEMSZ])
  }

  /** It returns exactly when one of its passes goes through. */
  lemma UploadReturns(run: Configure, passes: seq<seq<Signal>>)
    requires run.Ready? && Sized(run.g)
    ensures UploadOf(run, passes).0 <==>
            exists p :: 0 <= p < |passes| && WritePass(passes[p], run.g.radioIdent, run.g.mem[8..0x6fc8]).end.Good?
  {
    hide Upload, WritePass;
    Ft60rClone.UploadReturns(passes, run.g.radioIdent, run.g.mem[8..0x6fc8]);
  }

  /**
   * A configuration run that gets to its upload, for every line, every configuration file and any failed passes: the
   * backup is the clone as it came; what was sent last is the identifier of the clone, the configured memory and their
   * sum; and the tables of that memory are what the file means over the tables of the clone.
   */
  lemma ConfigureMeans(input: seq<Signal>, g: Globals, lines: seq<string>, scan: Scanner, run: Configure,
                       passes: seq<seq<Signal>>)
    requires Sized(g) && run == ConfigRun(input, g, lines, scan) && run.Ready? && UploadOf(run, passes).0
    ensures WellFormed(Blocks(lines, scan))
    ensures var clone := Download(input);
            && IsClone(clone) && run.backup == clone.ident + clone.body
            && run.g.mem == Configured(lines, scan, Cloned(g, clone))
            && EndsWith(UploadOf(run, passes).1, CloneBytes(clone.ident, run.g.mem[IDENT..MEMSZ]))
            && ReadTables(run.g.mem) == Meaning(Blocks(lines, scan), ReadTables(Cloned(g, clone)))
  {
    hide Download, ConfigRun, Parse, Configured, Upload, CloneBytes, EndsWith, ReadTables, Meaning, Blocks, Cloned;
    ReadyIs(input, g, lines, scan, run);
    ConfigMeans(lines, scan, Cloned(g, Download(input)));
    UploadEndsWithClone(passes, run.g.radioIdent, run.g.mem[IDENT..MEMSZ]);
  }

  lemma ClonedByte(g: Globals, clone: Outcome, a: nat)
    requires Sized(g) && IsClone(clone) && IDENT <= a < MEMSZ
    ensures Cloned(g, clone)[a] == clone.body[a - IDENT]
  {
    hide AfterSave, AfterDownload;
    MemoryOfClone(g, clone, a);
  }

  /** The bits of an address that no table with rows in the file owns. */
  ghost function Spared(lines: seq<string>, scan: Scanner, a: nat): byte
    requires WellFormed(Blocks(lines, scan))
  {
    !OwnedByAny(Filled(Blocks(lines, scan)), a)
  }

  /** What is sent last, cloned back into any memory. */
  lemma SentClonesBack(run: Configure, passes: seq<seq<Signal>>, rest: seq<Signal>, later: Globals)
    requires run.Ready? && Sized(run.g) && Sized(later) && UploadOf(run, passes).0
    ensures var sent := UploadOf(run, passes).1;
            && |sent| >= MEMSZ + 1
            && var again := Download(Framed(LastClone(sent)) + rest);
            && IsClone(again) && again.ident == run.g.radioIdent && again.rest == rest
            && forall a :: IDENT <= a < MEMSZ ==> Cloned(later, again)[a] == run.g.mem[a]
  {
    hide Download, Upload, Cloned, Framed, ChecksumOf;
    var ident, body := run.g.radioIdent, run.g.mem[IDENT..MEMSZ];
    CloneRoundTrip(passes, ident, body, rest);
    forall a | IDENT <= a < MEMSZ
      ensures Cloned(later, Loaded(ident, body, ChecksumOf(ident, body), rest))[a] == run.g.mem[a]
    {
      ClonedByte(later, Loaded(ident, body, ChecksumOf(ident, body), rest), a);
    }
  }

  /**
   * The radio cloned back after such a run, by a program whose memory held anything: the download succeeds, the tables
   * read from it are the meaning of the file over the tables of the first clone, and in every byte the bits outside the
   * tables that have rows are those of the first clone.
   */
  lemma ConfiguredRadioReadsBack(input: seq<Signal>, g: Globals, lines: seq<string>, scan: Scanner, run: Configure,
                                 passes: seq<seq<Signal>>, rest: seq<Signal>, later: Globals)
    requires Sized(g) && run == ConfigRun(input, g, lines, scan) && run.Ready? && UploadOf(run, passes).0
    requires Sized(later)
    ensures WellFormed(Blocks(lines, scan))
    ensures |UploadOf(run, passes).1| >= MEMSZ + 1
    ensures var first, again := Download(input), Download(Framed(LastClone(UploadOf(run, passes).1)) + rest);
            && IsClone(first) && IsClone(again) && again.ident == first.ident
            && ReadTables(Cloned(later, again)) == Meaning(Blocks(lines, scan), ReadTables(Cloned(g, first)))
            && forall a :: IDENT <= a < MEMSZ ==>
                 Cloned(later, again)[a] & Spared(lines, scan, a) == first.body[a - IDENT] & Spared(lines, scan, a)
  {
    hide Download, ConfigRun, Parse, Configured, UploadOf, ReadTables, Meaning, Blocks, Cloned, OwnedByAny, Framed,
        Filled;
    ReadyIs(input, g, lines, scan, run);
    ConfigureMeans(input, g, lines, scan, run, passes);
    SentClonesBack(run, passes, rest, later);
    var first, again := Download(input), Download(Framed(LastClone(UploadOf(run, passes).1)) + rest);
    TablesLookInside(Cloned(later, again), run.g.mem);
    forall a | IDENT <= a < MEMSZ
      ensures Cloned(later, again)[a] & Spared(lines, scan, a) == first.body[a - IDENT] & Spared(lines, scan, a)
    {
      ConfigKeepsOutside(lines, scan, Cloned(g, first), a);
      ClonedByte(g, first, a);
    }
  }
}

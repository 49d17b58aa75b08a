/** An FT-60R backup: a clone, the image file made of it, and the run that would write the file back. */
module Ft60rBackup {
  import opened Bytes
  import opened SerialLink
  import opened Ft60rClone
  import opened Radio
  import ImageFiles

  predicate Sized(g: Globals) {
    |g.radioIdent| == |g.imageIdent| == IDENT && |g.mem| == ImageFiles.MEM_SIZE
  }

  /** radio_download from an FT-60R: the clone fills radio_ident and the memory, and image_ident becomes a copy. */
  function AfterDownload(g: Globals, clone: Outcome): (r: Globals)
    requires Sized(g) && IsClone(clone)
    ensures Sized(r)
  {
    Globals(clone.ident, clone.ident, Splice(g.mem, IDENT, clone.body + [clone.sum]))
  }

  /** radio_save_image for an FT-60R puts the identifier into the memory. */
  function AfterSave(g: Globals): (r: Globals)
    requires Sized(g)
    ensures Sized(r)
  {
    g.(mem := ImageFiles.MemoryAfterSave(ImageFiles.Ft60r, g.radioIdent, g.mem))
  }

  function Saved(g: Globals): seq<byte>
    requires Sized(g)
  {
    ImageFiles.SaveImage(ImageFiles.Ft60r, g.radioIdent, g.mem)
  }

  /** The memory after a download and a save, byte by byte. */
  lemma MemoryOfClone(g: Globals, clone: Outcome, a: nat)
    requires Sized(g) && IsClone(clone) && a < ImageFiles.MEM_SIZE
    ensures AfterSave(AfterDownload(g, clone)).mem[a]
         == if a < IDENT then clone.ident[a]
            else if a < MEMSZ then clone.body[a - IDENT]
            else if a == MEMSZ then clone.sum
            else g.mem[a]
  {
    hide Splice;
    SpliceAt(g.mem, IDENT, clone.body + [clone.sum], a);
    SpliceAt(AfterDownload(g, clone).mem, 0, clone.ident, a);
  }

  /** The file saved after a clone is its identifier followed by its memory. */
  lemma FileOfClone(g: Globals, clone: Outcome)
    requires Sized(g) && IsClone(clone)
    ensures Saved(AfterDownload(g, clone)) == clone.ident + clone.body
  {
    hide AfterDownload;
    var file := Saved(AfterDownload(g, clone));
    assert file == AfterSave(AfterDownload(g, clone)).mem[..ImageFiles.FT60R_SIZE];
    forall a | 0 <= a < MEMSZ
      ensures file[a] == (clone.ident + clone.body)[a]
    {
      MemoryOfClone(g, clone, a);
    }
  }

  lemma FileReadsBack(ident: seq<byte>, body: seq<byte>, later: seq<byte>)
    requires |ident| == IDENT && |body| == BLOCK * NBLOCKS && |later| == ImageFiles.MEM_SIZE
    ensures var i := ImageFiles.ReadImage(ident + body, later);
            i.Image? && i.ident == ident && i.mem[IDENT..MEMSZ] == body
    ensures ImageFiles.GuessDevice(|ident + body|) == ImageFiles.Known(ImageFiles.Ft60r)
  {
    var file := ident + body;
    assert file[..8] == ident && file[IDENT..MEMSZ] == body && file[..MEMSZ] == file;
    SpliceFront(later, file);
  }

  lemma SpliceFront(m: seq<byte>, field: seq<byte>)
    requires |field| <= |m|
    ensures Splice(m, 0, field)[..|field|] == field
  {
  }

  /**
   * A good clone, its image file, and a write run on an FT-60R: the run starts the upload exactly when the identifier
   * of the clone is all zero, because connecting leaves radio_ident at its start value. An upload that is started and
   * returns has put the identifier, the memory and their sum on the line last.
   */
  lemma BackupRestores(ident: seq<byte>, body: seq<byte>, sum: byte, rest: seq<Signal>, g: Globals,
                       tries: seq<seq<Signal>>, later: seq<byte>, passes: seq<seq<Signal>>)
    requires |ident| == IDENT && |body| == BLOCK * NBLOCKS && ChecksumOk(ident, body, sum)
    requires Sized(g) && |later| == ImageFiles.MEM_SIZE
    requires |tries| == TRIES && Unanswered(tries) && Connect(tries).Connected?
    ensures var clone := Download(SendClone(ident, body, sum) + rest);
            && clone == Loaded(ident, body, sum, rest)
            && var run := WriteRun(tries, Saved(AfterDownload(g, clone)), later);
            && (run.Uploads? <==> ident == [0, 0, 0, 0, 0, 0, 0, 0])
            && (run.Uploads? ==>
                  && run.device == ImageFiles.Ft60r
                  && |run.g.mem[IDENT..MEMSZ]| % BLOCK == 0
                  && var u := Upload(passes, run.g.radioIdent, run.g.mem[IDENT..MEMSZ]);
                     u.0 ==> EndsWith(u.1, CloneBytes(ident, body)))
  {
    hide Download, SendClone, ChecksumOk, ChecksumOf, Upload, Saved, AfterDownload, Connect, Unanswered,
        ImageFiles.ReadImage, ImageFiles.GuessDevice;
    DownloadOfClone(ident, body, sum, rest);
    FileOfClone(g, Loaded(ident, body, sum, rest));
    FileReadsBack(ident, body, later);
    var file := ident + body;
    assert file[..IDENT] == ident;
    Ft60rTakesOnlyZeroIdent(tries, file, later);
    if Upload(passes, ident, body).0 {
      UploadEndsWithClone(passes, ident, body);
    }
  }
}

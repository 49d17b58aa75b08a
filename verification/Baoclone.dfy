/** The program with its global variables in place: connecting, the write run, and the configuration run. */
module Baoclone {
  import opened Bytes
  import opened SerialLink
  import opened ImageFiles
  import opened Radio
  import BaofengDriver
  import BaofengTransfer
  import Ft60rClone
  import Ft60rConfig
  import Ft60rConfigure
  import Ft60rDriver

  /** A connection that is found after `sent` has been sent already. */
  function Later(sent: seq<byte>, c: Connection): Connection {
    c.(sent := sent + c.sent)
  }

  /** One magic command of the search. */
  lemma ConnectStep(sent: seq<byte>, k: nat, tries: seq<seq<Signal>>, ident: seq<byte>)
    requires k < |tries| && |ident| == IDENT_LENGTH
    ensures var a := TryMagic(tries[k], Magic(k), ident);
            Later(sent, ConnectFrom(k, tries, ident))
            == match Finding(k, a)
               case Device(d) => Connected(d, a.ident, sent + a.sent, a.rest)
               case Nothing => Later(sent + a.sent, ConnectFrom(k + 1, tries, a.ident))
  {
    hide TryMagic, Finding, Magic;
    var a := TryMagic(tries[k], Magic(k), ident);
    if Finding(k, a).Nothing? {
      var c := ConnectFrom(k + 1, tries, a.ident);
      assert sent + (a.sent + c.sent) == sent + a.sent + c.sent;
    }
  }

  /** The three magic commands of a round. */
  lemma RoundMagic(retry: nat)
    ensures Magic(3 * retry) == UVB5_MODEL && Magic(3 * retry + 1) == UV5R_MODEL_291
    ensures Magic(3 * retry + 2) == UV5R_MODEL_AGED
    ensures 3 * retry % 3 == 0 && (3 * retry + 1) % 3 == 1 && (3 * retry + 2) % 3 == 2
  {
  }

  lemma ConnectEnds(sent: seq<byte>, tries: seq<seq<Signal>>, ident: seq<byte>)
    requires |ident| == IDENT_LENGTH
    ensures Later(sent, ConnectFrom(|tries|, tries, ident)) == NotDetected(sent)
  {
    assert sent + [] == sent;
  }

  /** What an upload sees of what the line brings after each flush: the Baofeng drivers make one pass only. */
  function FirstPass(passes: seq<seq<Signal>>): seq<Signal> {
    if passes == [] then [] else passes[0]
  }

  /** The upload that a write run has started: whether it returns, and what it sends. */
  function UploadOf(run: Restore, passes: seq<seq<Signal>>): (bool, seq<byte>)
    requires run.Uploads? ==> |run.g.radioIdent| == IDENT_LENGTH && |run.g.mem| == MEM_SIZE
  {
    match run
    case Exits => (false, [])
    case Uploads(d, g) =>
      if d.Ft60r? then Ft60rClone.Upload(passes, g.radioIdent, g.mem[Ft60rClone.IDENT..Ft60rClone.MEMSZ])
      else
        var w := BaofengTransfer.Upload(BaofengTransfer.ProtocolOf(d), FirstPass(passes), g.mem);
        (w.end.Good?, w.sent)
  }

  /**
   * An upload to an FT-60R returns exactly when one of its passes goes through; the others make one pass only, which
   * returns exactly when every block is acknowledged by 0x06, and send what the transfer sends.
   */
  lemma UploadReturns(d: Device, g: Globals, passes: seq<seq<Signal>>)
    requires |g.radioIdent| == IDENT_LENGTH && |g.mem| == MEM_SIZE
    ensures var u := UploadOf(Uploads(d, g), passes);
            match d
            case Ft60r =>
              u.0 <==> exists p :: 0 <= p < |passes|
                                && Ft60rClone.WritePass(passes[p], g.radioIdent, g.mem[8..0x6fc8]).end.Good?
            case _ =>
              var n := match d case Uv5r => 404 case Uv5rAged => 384 case UvB5 => 256 case _ => 38;
              && (u.0 <==> passes != [] && n <= |passes[0]| && forall k :: 0 <= k < n ==> passes[0][k] == Arrives(0x06))
              && (passes != [] ==> u.1 == BaofengTransfer.UploadOf(Uploads(d, g), passes[0]).sent)
  {
    hide Ft60rClone.Upload, Ft60rClone.WritePass, BaofengTransfer.Upload, BaofengTransfer.ProtocolOf;
    if d.Ft60r? {
      Ft60rClone.UploadReturns(passes, g.radioIdent, g.mem[8..0x6fc8]);
    } else {
      BaofengTransfer.UploadCompletes(Uploads(d, g), if passes == [] then [] else passes[0]);
    }
  }

  /** What has been sent after an FT-60R was downloaded: one acknowledge for every block taken. */
  function AfterClone(sent: seq<byte>, input: seq<Signal>): seq<byte> {
    sent + Ft60rClone.Acks(Ft60rClone.DownloadAcks(input))
  }

  lemma NothingUploaded(passes: seq<seq<Signal>>)
    ensures UploadOf(Exits, passes) == (false, [])
  {
  }

  /** The memory with a clone in it, told by its parts. */
  lemma TakenIs(before: seq<byte>, after: seq<byte>, clone: Ft60rClone.Outcome)
    requires |before| == |after| == MEM_SIZE && Ft60rClone.IsClone(clone)
    requires after[Ft60rClone.IDENT..Ft60rClone.MEMSZ] == clone.body && after[Ft60rClone.MEMSZ] == clone.sum
    requires forall a :: 0 <= a < MEM_SIZE && !(Ft60rClone.IDENT <= a <= Ft60rClone.MEMSZ) ==> after[a] == before[a]
    ensures after == Splice(before, Ft60rClone.IDENT, clone.body + [clone.sum])
  {
    hide Splice;
    var field := clone.body + [clone.sum];
    forall a | 0 <= a < MEM_SIZE
      ensures after[a] == Splice(before, Ft60rClone.IDENT, field)[a]
    {
      SpliceAt(before, Ft60rClone.IDENT, field, a);
      if Ft60rClone.IDENT <= a < Ft60rClone.MEMSZ {
        assert after[Ft60rClone.IDENT..Ft60rClone.MEMSZ][a - Ft60rClone.IDENT] == after[a];
      }
    }
  }

  class Program {
    /** radio_ident, image_ident, radio_mem and device. */
    const radioIdent: array<byte>
    const imageIdent: array<byte>
    const mem: array<byte>
    var device: Device

    ghost predicate Valid() {
      && radioIdent.Length == imageIdent.Length == IDENT_LENGTH && radioIdent != imageIdent
      && mem.Length == MEM_SIZE
    }

    ghost function State(): Globals
      requires Valid()
      reads radioIdent, imageIdent, mem
    {
      Globals(radioIdent[..], imageIdent[..], mem[..])
    }

    constructor ()
      ensures Valid() && fresh(radioIdent) && fresh(imageIdent) && fresh(mem)
      ensures radioIdent[..] == imageIdent[..] == NO_IDENT
    {
      radioIdent := new byte[IDENT_LENGTH](_ => 0);
      imageIdent := new byte[IDENT_LENGTH](_ => 0);
      mem := new byte[MEM_SIZE](_ => 0);
      device := Ft60r;
    }

    /** try_magic, from behind its flush. */
    method SendMagic(line: Line, magic: seq<byte>) returns (verdict: Verdict)
      requires Valid() && |magic| == MAGIC_LENGTH
      modifies line, radioIdent
      ensures var a := TryMagic(old(line.input), magic, old(radioIdent[..]));
              && verdict == a.verdict && radioIdent[..] == a.ident
              && line.sent == old(line.sent) + a.sent && line.input == a.rest
    {
      hide Receive, Landed;
      var reply := new byte[IDENT_LENGTH](_ => 0);
      line.Write(magic);
      var all := line.Read(reply, 0, 1);
      if !all {
        return NoAnswer;
      }
      assert reply[0..1] == [reply[0]] && magic[..1] == [magic[0]];
      if reply[0] != ACK {
        if reply[0] != magic[0] {
          return NoAnswer;
        }
        all := line.Read(reply, 1, MAGIC_LENGTH - 1);
        assert magic == [magic[0]] + magic[1..];
        assert reply[..MAGIC_LENGTH] == [reply[0]] + reply[1..MAGIC_LENGTH];
        return if all && reply[..MAGIC_LENGTH] == magic then Echoed else NoAnswer;
      }
      line.Write([QUERY]);
      assert radioIdent[0..IDENT_LENGTH] == radioIdent[..];
      all := line.Read(radioIdent, 0, IDENT_LENGTH);
      assert radioIdent[0..IDENT_LENGTH] == radioIdent[..];
      if !all {
        return NoAnswer;
      }
      line.Write([ACK]);
      all := line.Read(reply, 0, 1);
      assert reply[0..1] == [reply[0]];
      return if all && reply[0] == ACK then Answered else NoAnswer;
    }

    /** radio_connect: ten rounds of three magic commands; what the line brings is given from flush to flush. */
    method ConnectTo(line: Line, tries: seq<seq<Signal>>) returns (found: bool)
      requires Valid() && |tries| == TRIES
      modifies this, line, radioIdent
      ensures match Later(old(line.sent), ConnectFrom(0, tries, old(radioIdent[..])))
              case Connected(d, ident, sent, rest) =>
                found && device == d && radioIdent[..] == ident && line.sent == sent && line.input == rest
              case NotDetected(sent) => !found && line.sent == sent
    {
      hide ConnectFrom, TryMagic, Later, Magic;
      ghost var whole := Later(line.sent, ConnectFrom(0, tries, radioIdent[..]));
      for retry := 0 to TRIES / 3
        invariant whole == Later(line.sent, ConnectFrom(3 * retry, tries, radioIdent[..]))
      {
        RoundMagic(retry);
        ConnectStep(line.sent, 3 * retry, tries, radioIdent[..]);
        line.input := tries[3 * retry];
        var verdict := SendMagic(line, UVB5_MODEL);
        if verdict == Answered {
          if UVB5_IDENT <= radioIdent[..] {
            device := UvB5;
            return true;
          }
          if BF888S_IDENT <= radioIdent[..] {
            device := Bf888;
            return true;
          }
        }
        if verdict == Echoed {
          device := Ft60r;
          return true;
        }
        ConnectStep(line.sent, 3 * retry + 1, tries, radioIdent[..]);
        line.input := tries[3 * retry + 1];
        verdict := SendMagic(line, UV5R_MODEL_291);
        if verdict == Answered {
          device := Uv5r;
          return true;
        }
        if verdict == Echoed {
          device := Ft60r;
          return true;
        }
        ConnectStep(line.sent, 3 * retry + 2, tries, radioIdent[..]);
        line.input := tries[3 * retry + 2];
        verdict := SendMagic(line, UV5R_MODEL_AGED);
        if verdict == Answered {
          device := Uv5rAged;
          return true;
        }
        if verdict == Echoed {
          device := Ft60r;
          return true;
        }
      }
      ConnectEnds(line.sent, tries, radioIdent[..]);
      return false;
    }

    /** radio_read_image: the identifier goes to image_ident, and the file selects the device. */
    method LoadImage(file: seq<byte>) returns (ok: bool)
      requires Valid()
      modifies this, imageIdent, mem
      ensures match ReadImage(file, old(mem[..]))
              case Unreadable => !ok
              case Image(i, m) =>
                ok && imageIdent[..] == i && mem[..] == m && GuessDevice(|file|) == Known(device)
    {
      hide ReadImage;
      ReadableBySize(file, mem[..]);
      var store := new Store.Over(mem);
      var ident;
      ok, ident := store.Read(file);
      if ok {
        device := GuessDevice(|file|).device;
        CopyInto(imageIdent, 0, ident);
        assert imageIdent[..] == ident;
      }
    }

    /** radio_upload for the device in force, behind the comparison of the identifiers. */
    method UploadTo(line: Line, passes: seq<seq<Signal>>) returns (done: bool)
      requires Valid()
      modifies line, mem
      ensures var run := if Compatible(old(State())) then Uploads(device, old(State())) else Exits;
              done == UploadOf(run, passes).0 && line.sent == old(line.sent) + UploadOf(run, passes).1
    {
      hide Ft60rClone.Upload, BaofengTransfer.Upload, BaofengTransfer.ProtocolOf;
      if imageIdent[..] != radioIdent[..] {
        return false;
      }
      assert mem[..][Ft60rClone.IDENT..Ft60rClone.MEMSZ] == mem[Ft60rClone.IDENT..Ft60rClone.MEMSZ];
      if device == Ft60r {
        var cloner := new Ft60rClone.Cloner.Over(radioIdent, mem);
        done := cloner.GiveClone(line, passes);
      } else {
        line.input := FirstPass(passes);
        var driver := new BaofengDriver.Driver.Over(mem);
        done := driver.Give(line, BaofengTransfer.ProtocolOf(device));
      }
    }

    /** The program with -w: connect, read the file, compare the identifiers, upload. */
    method WriteFile(line: Line, tries: seq<seq<Signal>>, file: seq<byte>, passes: seq<seq<Signal>>)
      returns (done: bool)
      requires Valid() && |tries| == TRIES && radioIdent[..] == NO_IDENT
      modifies this, line, radioIdent, imageIdent, mem
      ensures var u := UploadOf(WriteRun(tries, file, old(mem[..])), passes);
              done == u.0 && line.sent == old(line.sent) + Connect(tries).sent + u.1
    {
      hide ConnectFrom, ReadImage, UploadOf, GuessDevice;
      NothingUploaded(passes);
      var found := ConnectTo(line, tries);
      if !found {
        return false;
      }
      ReadableBySize(file, mem[..]);
      var ok := LoadImage(file);
      if !ok {
        return false;
      }
      done := UploadTo(line, passes);
    }

    /**
     * The program with -c on an FT-60R, once connected: download, copy the identifier, save the backup, edit the memory
     * line by line, compare the identifiers, upload.
     */
    method ConfigureFt60r(line: Line, lines: seq<string>, scan: Ft60rConfig.Scanner, passes: seq<seq<Signal>>)
      returns (backup: seq<byte>, done: bool)
      requires Valid()
      modifies line, radioIdent, imageIdent, mem
      ensures match Ft60rConfigure.ConfigRun(old(line.input), old(State()), lines, scan)
              case NoClone => !done && backup == []
              case BadLine(file) => !done && backup == file && line.sent == AfterClone(old(line.sent), old(line.input))
              case Refused(file) => !done && backup == file && line.sent == AfterClone(old(line.sent), old(line.input))
              case Ready(file, g) =>
                && backup == file
                && var u := Ft60rConfigure.UploadOf(Ft60rConfigure.Ready(file, g), passes);
                   done == u.0 && line.sent == AfterClone(old(line.sent), old(line.input)) + u.1
    {
      hide Ft60rClone.Download, Ft60rClone.DownloadAcks, Ft60rClone.Acks, Ft60rClone.Upload, Ft60rConfig.Parse,
          Ft60rConfig.Configured, SaveImage, Splice;
      backup, done := [], false;
      ghost var before := mem[..];
      ghost var clone := Ft60rClone.Download(line.input);
      var cloner := new Ft60rClone.Cloner.Over(radioIdent, mem);
      var end := cloner.TakeClone(line);
      if end != Ft60rClone.Finished {
        return;
      }
      assert mem[..] == Splice(before, Ft60rClone.IDENT, clone.body + [clone.sum]) by {
        TakenIs(before, mem[..], clone);
      }
      SpliceAll(imageIdent[..], radioIdent[..]);
      CopyInto(imageIdent, 0, radioIdent[..]);
      var store := new Store.Over(mem);
      backup := store.Save(Ft60r, radioIdent[..]);
      var codeplug := new Ft60rDriver.Codeplug.Over(mem);
      var ok := codeplug.ParseConfig(lines, scan);
      if !ok {
        return;
      }
      if imageIdent[..] != radioIdent[..] {
        return;
      }
      assert mem[..][Ft60rClone.IDENT..Ft60rClone.MEMSZ] == mem[Ft60rClone.IDENT..Ft60rClone.MEMSZ];
      done := cloner.GiveClone(line, passes);
    }
  }
}

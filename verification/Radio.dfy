/** Connecting to a radio by magic commands, and the comparison of identifiers that stands before every upload. */
module Radio {
  import opened Bytes
  import opened SerialLink
  import opened ImageFiles

  const IDENT_LENGTH := 8
  const MAGIC_LENGTH := 7
  const TRIES := 30

  /** The value of radio_ident and image_ident when the program starts. */
  const NO_IDENT: seq<byte> := [0, 0, 0, 0, 0, 0, 0, 0]

  /** The magic commands; the first one is the word PROGRAM. */
  const UVB5_MODEL: seq<byte> := [0x50, 0x52, 0x4f, 0x47, 0x52, 0x41, 0x4d]
  const UV5R_MODEL_291: seq<byte> := [0x50, 0xbb, 0xff, 0x20, 0x12, 0x07, 0x25]
  const UV5R_MODEL_AGED: seq<byte> := [0x50, 0xbb, 0xff, 0x01, 0x25, 0x98, 0x4d]

  /** How the identifiers of the UV-B5 and of the BF-888S begin: HKT511 and P3107. */
  const UVB5_IDENT: seq<byte> := [0x48, 0x4b, 0x54, 0x35, 0x31, 0x31]
  const BF888S_IDENT: seq<byte> := [0x50, 0x33, 0x31, 0x30, 0x37]

  const QUERY: byte := 0x02

  // ---- One magic command ----

  datatype Verdict = Answered | Echoed | NoAnswer

  /** What a magic command comes to, with radio_ident after it, the bytes sent, and what the line still brings. */
  datatype Attempt = Attempt(verdict: Verdict, ident: seq<byte>, sent: seq<byte>, rest: seq<Signal>)

  predicate Acknowledged(r: Received) {
    r.Full? && r.data == [ACK]
  }

  /** The query for the identifier and the command that enters clone mode. */
  function Identify(input: seq<Signal>, magic: seq<byte>, ident: seq<byte>): (a: Attempt)
    requires |ident| == IDENT_LENGTH
    ensures |a.ident| == IDENT_LENGTH
  {
    var read := Receive(input, IDENT_LENGTH);
    var now := Landed(ident, input);
    if read.TimedOut? then Attempt(NoAnswer, now, magic + [QUERY], read.rest)
    else
      var reply := Receive(read.rest, 1);
      Attempt(if Acknowledged(reply) then Answered else NoAnswer, now, magic + [QUERY] + [ACK], reply.rest)
  }

  /** try_magic, with echo_detected as part of the verdict. `input` is what comes after the flush. */
  function TryMagic(input: seq<Signal>, magic: seq<byte>, ident: seq<byte>): (a: Attempt)
    requires |magic| == MAGIC_LENGTH && |ident| == IDENT_LENGTH
    ensures |a.ident| == IDENT_LENGTH
  {
    var first := Receive(input, 1);
    if first.TimedOut? then Attempt(NoAnswer, ident, magic, first.rest)
    else if first.data == [ACK] then Identify(first.rest, magic, ident)
    else if first.data != magic[..1] then Attempt(NoAnswer, ident, magic, first.rest)
    else
      var others := Receive(first.rest, MAGIC_LENGTH - 1);
      Attempt(if others.Full? && others.data == magic[1..] then Echoed else NoAnswer, ident, magic, others.rest)
  }

  // ---- Rounds of three ----

  datatype Connection =
    | Connected(device: Device, ident: seq<byte>, sent: seq<byte>, rest: seq<Signal>)
    | NotDetected(sent: seq<byte>)

  /** The device a magic command finds, if it ends the search. */
  datatype Found = Device(device: Device) | Nothing

  function Named(ident: seq<byte>): Found {
    if UVB5_IDENT <= ident then Device(UvB5)
    else if BF888S_IDENT <= ident then Device(Bf888)
    else Nothing
  }

  function Magic(k: nat): (magic: seq<byte>)
    ensures |magic| == MAGIC_LENGTH
  {
    if k % 3 == 0 then UVB5_MODEL else if k % 3 == 1 then UV5R_MODEL_291 else UV5R_MODEL_AGED
  }

  /** What the `k`-th magic command tells: an echo means an FT-60R, whichever command it was. */
  function Finding(k: nat, a: Attempt): Found {
    match a.verdict
    case NoAnswer => Nothing
    case Echoed => Device(Ft60r)
    case Answered => if k % 3 == 0 then Named(a.ident) else if k % 3 == 1 then Device(Uv5r) else Device(Uv5rAged)
  }

  /** radio_connect from the `k`-th magic command on. Every command flushes the line, so it has an input of its own. */
  function ConnectFrom(k: nat, tries: seq<seq<Signal>>, ident: seq<byte>): (c: Connection)
    requires k <= |tries| && |ident| == IDENT_LENGTH
    ensures c.Connected? ==> |c.ident| == IDENT_LENGTH
    decreases |tries| - k
  {
    if k == |tries| then NotDetected([])
    else
      var a := TryMagic(tries[k], Magic(k), ident);
      match Finding(k, a)
      case Device(d) => Connected(d, a.ident, a.sent, a.rest)
      case Nothing =>
        match ConnectFrom(k + 1, tries, a.ident)
        case Connected(d, i, sent, rest) => Connected(d, i, a.sent + sent, rest)
        case NotDetected(sent) => NotDetected(a.sent + sent)
  }

  /** radio_connect in a program that has just started: ten rounds of three commands. */
  function Connect(tries: seq<seq<Signal>>): (c: Connection)
    requires |tries| == TRIES
    ensures c.Connected? ==> |c.ident| == IDENT_LENGTH
  {
    ConnectFrom(0, tries, NO_IDENT)
  }

  // ---- The globals, and the run that writes an image file ----

  /** radio_ident, image_ident and radio_mem. */
  datatype Globals = Globals(radioIdent: seq<byte>, imageIdent: seq<byte>, mem: seq<byte>)

  /** The comparison in radio_upload. */
  predicate Compatible(g: Globals) {
    g.imageIdent == g.radioIdent
  }

  datatype Restore = Exits | Uploads(device: Device, g: Globals)

  /** The program with -w, up to the upload it starts. The file selects the driver, not the radio. */
  function WriteRun(tries: seq<seq<Signal>>, file: seq<byte>, mem: seq<byte>): (r: Restore)
    requires |tries| == TRIES && |mem| == MEM_SIZE
    ensures r.Uploads? ==> |r.g.radioIdent| == IDENT_LENGTH && |r.g.mem| == MEM_SIZE
  {
    var c := Connect(tries);
    var i := ReadImage(file, mem);
    if c.NotDetected? || i.Unreadable? then Exits
    else
      var g := Globals(c.ident, i.ident, i.mem);
      if Compatible(g) then Uploads(GuessDevice(|file|).device, g) else Exits
  }

  lemma ReadableBySize(file: seq<byte>, mem: seq<byte>)
    requires |mem| == MEM_SIZE
    ensures ReadImage(file, mem).Image? <==> GuessDevice(|file|).Known?
    ensures ReadImage(file, mem).Image? ==> |file| >= IDENT_LENGTH && ReadImage(file, mem).ident == file[..IDENT_LENGTH]
  {
  }

  /** For every file: the run reaches an upload exactly when a radio was found, the size of the file is one of the six
      known ones, and the file begins with the identifier of the radio. The size alone selects the driver. */
  lemma WriteRunUploads(tries: seq<seq<Signal>>, file: seq<byte>, mem: seq<byte>, d: Device)
    requires |tries| == TRIES && |mem| == MEM_SIZE
    ensures (WriteRun(tries, file, mem).Uploads? && WriteRun(tries, file, mem).device == d)
            <==> (&& Connect(tries).Connected? && GuessDevice(|file|) == Known(d)
                  && |file| >= IDENT_LENGTH && file[..IDENT_LENGTH] == Connect(tries).ident)
  {
    hide Connect, ReadImage, GuessDevice;
    ReadableBySize(file, mem);
  }

  // ---- An FT-60R never gets to tell its identifier ----

  /** No answer begins with an acknowledge. */
  predicate Unanswered(tries: seq<seq<Signal>>) {
    forall k :: 0 <= k < |tries| && tries[k] != [] ==> tries[k][0] != Arrives(ACK)
  }

  lemma UnansweredTry(input: seq<Signal>, magic: seq<byte>, ident: seq<byte>)
    requires |magic| == MAGIC_LENGTH && |ident| == IDENT_LENGTH
    requires input != [] ==> input[0] != Arrives(ACK)
    ensures var a := TryMagic(input, magic, ident); !a.verdict.Answered? && a.ident == ident
  {
    if Receive(input, 1).Full? {
      assert Receive(input, 1).data == [input[0].b];
    }
  }

  lemma {:induction false} UnansweredFindsFt60r(k: nat, tries: seq<seq<Signal>>, ident: seq<byte>)
    requires k <= |tries| && |ident| == IDENT_LENGTH && Unanswered(tries)
    ensures var c := ConnectFrom(k, tries, ident); c.Connected? ==> c.device == Ft60r && c.ident == ident
    decreases |tries| - k
  {
    hide TryMagic, Magic;
    if k == |tries| {
    } else {
      UnansweredTry(tries[k], Magic(k), ident);
      UnansweredFindsFt60r(k + 1, tries, ident);
    }
  }

  /** A cable that echoes is found to be an FT-60R at once, with radio_ident left as it was at the start. */
  lemma EchoConnects(tries: seq<seq<Signal>>, rest: seq<Signal>)
    requires |tries| == TRIES && tries[0] == Carry(UVB5_MODEL) + rest
    ensures Connect(tries) == Connected(Ft60r, NO_IDENT, UVB5_MODEL, rest)
  {
    hide Receive;
    var first, others := UVB5_MODEL[..1], UVB5_MODEL[1..];
    assert first == [0x50];
    assert tries[0] == Carry(first) + (Carry(others) + rest);
    ReceiveCarried(first, Carry(others) + rest);
    ReceiveCarried(others, rest);
  }

  /**
   * As long as no answer to a magic command begins with an acknowledge, the radio found is an FT-60R, and the write run
   * uploads exactly the files of a known size whose first eight bytes are zero.
   */
  lemma Ft60rTakesOnlyZeroIdent(tries: seq<seq<Signal>>, file: seq<byte>, mem: seq<byte>)
    requires |tries| == TRIES && |mem| == MEM_SIZE && Unanswered(tries) && Connect(tries).Connected?
    ensures Connect(tries).device == Ft60r
    ensures WriteRun(tries, file, mem).Uploads?
            <==> |file| in {6472, 6152, 4144, 992, 28616, 31435} && file[..8] == [0, 0, 0, 0, 0, 0, 0, 0]
    ensures WriteRun(tries, file, mem).Uploads? ==> Known(WriteRun(tries, file, mem).device) == GuessDevice(|file|)
  {
    hide ReadImage, ConnectFrom;
    ReadableBySize(file, mem);
    UnansweredFindsFt60r(0, tries, NO_IDENT);
  }

  /** For example, files/ft-60r-sunnyvale.img begins with 41 48 30 31 37 24 0b 00, and is refused. */
  lemma SunnyvaleIsRefused(tries: seq<seq<Signal>>, rest: seq<Signal>, file: seq<byte>, mem: seq<byte>)
    requires |tries| == TRIES && tries[0] == Carry(UVB5_MODEL) + rest && |mem| == MEM_SIZE
    requires |file| == 28616 && file[..IDENT_LENGTH] == [0x41, 0x48, 0x30, 0x31, 0x37, 0x24, 0x0b, 0x00]
    ensures WriteRun(tries, file, mem) == Exits
  {
    hide Connect, ReadImage;
    EchoConnects(tries, rest);
    ReadableBySize(file, mem);
    assert file[..IDENT_LENGTH][0] == 0x41;
  }

  // ---- The identifier tells the driver ----

  lemma {:induction false} ConnectedIdent(k: nat, tries: seq<seq<Signal>>, ident: seq<byte>)
    requires k <= |tries| && |ident| == IDENT_LENGTH
    ensures var c := ConnectFrom(k, tries, ident);
            && (c.Connected? && c.device == UvB5 ==> UVB5_IDENT <= c.ident)
            && (c.Connected? && c.device == Bf888 ==> BF888S_IDENT <= c.ident)
    decreases |tries| - k
  {
    hide TryMagic;
    if k == |tries| {
    } else {
      ConnectedIdent(k + 1, tries, TryMagic(tries[k], Magic(k), ident).ident);
    }
  }

  /** A UV-B5 and a BF-888S never take each other's images: what one of them uploads did not come from the other. */
  lemma ProgramRadiosApart(from: seq<seq<Signal>>, to: seq<seq<Signal>>, saved: seq<byte>, file: seq<byte>,
                           mem: seq<byte>)
    requires |from| == |to| == TRIES && |saved| == |mem| == MEM_SIZE
    requires Connect(from).Connected? && Connect(to).Connected?
    requires Connect(from).device in {UvB5, Bf888} && Connect(to).device in {UvB5, Bf888}
    requires file == SaveImage(Connect(from).device, Connect(from).ident, saved)
    requires WriteRun(to, file, mem).Uploads?
    ensures WriteRun(to, file, mem).device == Connect(to).device == Connect(from).device
  {
    hide SaveImage, ReadImage, ConnectFrom;
    ConnectedIdent(0, from, NO_IDENT);
    ConnectedIdent(0, to, NO_IDENT);
    SaveThenRead(Connect(from).device, Connect(from).ident, saved, mem);
    SaveSelectsDriver(Connect(from).device, Connect(from).ident, saved);
    assert UVB5_IDENT[0] != BF888S_IDENT[0];
  }

  // ---- In numbers ----

  /** The magic commands in turn. */
  lemma MagicInNumbers(k: nat)
    ensures Magic(k) ==
            if k % 3 == 0 then [0x50, 0x52, 0x4f, 0x47, 0x52, 0x41, 0x4d]
            else if k % 3 == 1 then [0x50, 0xbb, 0xff, 0x20, 0x12, 0x07, 0x25]
            else [0x50, 0xbb, 0xff, 0x01, 0x25, 0x98, 0x4d]
  {
  }

  lemma SilentTry(magic: seq<byte>, ident: seq<byte>)
    requires |magic| == MAGIC_LENGTH && |ident| == IDENT_LENGTH
    ensures TryMagic([], magic, ident) == Attempt(NoAnswer, ident, magic, [])
  {
  }

  lemma AnsweredTry(magic: seq<byte>, ident: seq<byte>, id: seq<byte>, rest: seq<Signal>)
    requires |magic| == MAGIC_LENGTH && |ident| == |id| == IDENT_LENGTH
    ensures TryMagic([Arrives(0x06)] + Carry(id) + [Arrives(0x06)] + rest, magic, ident)
         == Attempt(Answered, id, magic + [0x02] + [0x06], rest)
  {
    hide Receive, Landed;
    var input := [Arrives(0x06)] + Carry(id) + [Arrives(0x06)] + rest;
    var last := Carry([ACK]) + rest;
    assert Carry([ACK]) == [Arrives(0x06)];
    assert input == Carry([ACK]) + (Carry(id) + last);
    ReceiveCarried([ACK], Carry(id) + last);
    ReceiveCarried(id, last);
    LandedInFull(ident, Carry(id) + last);
    ReceiveCarried([ACK], rest);
  }

  /** A radio is taken to have answered only for an acknowledge, eight bytes and an acknowledge, and an echo is one only
      when it is the whole command. */
  lemma VerdictWas(input: seq<Signal>, magic: seq<byte>, ident: seq<byte>)
    requires |magic| == MAGIC_LENGTH && |ident| == IDENT_LENGTH
    ensures var a := TryMagic(input, magic, ident);
            && (a.verdict.Answered? ==> input == [Arrives(0x06)] + Carry(a.ident) + [Arrives(0x06)] + a.rest)
            && (a.verdict.Echoed? ==> input == Carry(magic) + a.rest)
  {
    hide Receive, Landed, Carry;
    assert Carry([ACK]) == [Arrives(0x06)] by { CarryOne(ACK); }
    var first := Receive(input, 1);
    if first.Full? {
      ReceivedIsCarried(input, 1);
      if first.data == [ACK] {
        var id := Receive(first.rest, IDENT_LENGTH);
        if id.Full? {
          ReceivedIsCarried(first.rest, IDENT_LENGTH);
          LandedInFull(ident, first.rest);
          if Receive(id.rest, 1).Full? {
            ReceivedIsCarried(id.rest, 1);
          }
        }
      } else if first.data == magic[..1] {
        var others := Receive(first.rest, MAGIC_LENGTH - 1);
        if others.Full? && others.data == magic[1..] {
          ReceivedIsCarried(first.rest, MAGIC_LENGTH - 1);
          CarryJoins(magic[..1], magic[1..]);
          assert magic[..1] + magic[1..] == magic;
        }
      }
    }
  }

  lemma CarryOne(b: byte)
    ensures Carry([b]) == [Arrives(b)]
  {
  }

  lemma CarryJoins(a: seq<byte>, b: seq<byte>)
    ensures Carry(a + b) == Carry(a) + Carry(b)
  {
  }

  lemma {:induction false} AnswerAfterSilence(j: nat, k: nat, tries: seq<seq<Signal>>, ident: seq<byte>)
    requires j <= k < |tries| && |ident| == IDENT_LENGTH && forall i :: j <= i < k ==> tries[i] == []
    requires Finding(k, TryMagic(tries[k], Magic(k), ident)).Device?
    ensures var a, c := TryMagic(tries[k], Magic(k), ident), ConnectFrom(j, tries, ident);
            && c.Connected? && c.device == Finding(k, a).device && c.ident == a.ident && c.rest == a.rest
            && |c.sent| == 7 * (k - j) + |a.sent| && c.sent[7 * (k - j)..] == a.sent
    decreases k - j
  {
    hide TryMagic, Magic;
    if j == k {
    } else {
      SilentTry(Magic(j), ident);
      AnswerAfterSilence(j + 1, k, tries, ident);
    }
  }

  /** A radio that answers the `k`-th command only, with an acknowledge, its identifier and an acknowledge: the first
      command of a round finds the two models by the beginning of the identifier, the others whatever it is. */
  lemma AnswerConnects(tries: seq<seq<Signal>>, k: nat, id: seq<byte>, rest: seq<Signal>)
    requires |tries| == 30 && k < 30 && |id| == 8 && forall i :: 0 <= i < k ==> tries[i] == []
    requires tries[k] == [Arrives(0x06)] + Carry(id) + [Arrives(0x06)] + rest
    requires k % 3 == 0 ==> id[..6] == [0x48, 0x4b, 0x54, 0x35, 0x31, 0x31] || id[..5] == [0x50, 0x33, 0x31, 0x30, 0x37]
    ensures var c := Connect(tries);
            && c.Connected? && c.ident == id && c.rest == rest && |c.sent| == 7 * k + 9
            && c.device == (if k % 3 == 1 then Uv5r else if k % 3 == 2 then Uv5rAged
                            else if id[0] == 0x48 then UvB5 else Bf888)
            && c.sent[7 * k + 7..] == [0x02, 0x06]
            && c.sent[7 * k..7 * k + 7] == Magic(k)
  {
    hide TryMagic, Magic, ConnectFrom;
    AnsweredTry(Magic(k), NO_IDENT, id, rest);
    if k % 3 == 0 {
      assert id[0] == id[..6][0] == id[..5][0];
      assert UVB5_IDENT <= id <==> id[..6] == UVB5_IDENT;
      assert BF888S_IDENT <= id <==> id[..5] == BF888S_IDENT;
    }
    AnswerAfterSilence(0, k, tries, NO_IDENT);
    var c := ConnectFrom(0, tries, NO_IDENT);
    var tail := Magic(k) + [0x02] + [0x06];
    assert c.sent[7 * k..] == tail;
    assert c.sent[7 * k..7 * k + 7] == tail[..7] == Magic(k);
    assert c.sent[7 * k + 7..] == tail[7..] == [0x02, 0x06];
  }

  /** An answer to the first command of a round that names neither model does not end the search; an echo does. */
  lemma OtherFindings(k: nat, a: Attempt)
    requires |a.ident| == 8
    ensures a.verdict.Answered? && k % 3 == 0 ==>
              (Finding(k, a).Nothing? <==> a.ident[..6] != [0x48, 0x4b, 0x54, 0x35, 0x31, 0x31]
                                           && a.ident[..5] != [0x50, 0x33, 0x31, 0x30, 0x37])
    ensures a.verdict.Echoed? ==> Finding(k, a) == Device(Ft60r)
    ensures a.verdict.NoAnswer? ==> Finding(k, a).Nothing?
  {
  }

  lemma {:induction false} SilenceFrom(k: nat, tries: seq<seq<Signal>>, ident: seq<byte>)
    requires k <= |tries| && |ident| == IDENT_LENGTH && forall i :: 0 <= i < |tries| ==> tries[i] == []
    ensures ConnectFrom(k, tries, ident).NotDetected? && |ConnectFrom(k, tries, ident).sent| == 7 * (|tries| - k)
    decreases |tries| - k
  {
    hide TryMagic, Magic;
    if k == |tries| {
    } else {
      SilentTry(Magic(k), ident);
      SilenceFrom(k + 1, tries, ident);
    }
  }

  /** A silent line is given up on after thirty commands of seven bytes. */
  lemma SilenceInNumbers(tries: seq<seq<Signal>>)
    requires |tries| == TRIES && forall i :: 0 <= i < |tries| ==> tries[i] == []
    ensures TRIES == 30 && Connect(tries).NotDetected? && |Connect(tries).sent| == 210
  {
    hide ConnectFrom;
    SilenceFrom(0, tries, NO_IDENT);
  }
}

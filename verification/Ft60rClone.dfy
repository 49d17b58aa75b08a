/** The FT-60R clone transfer: 64-byte blocks, an acknowledge after each, and a byte sum at the end. */
module Ft60rClone {
  import opened Bytes
  import opened SerialLink

  const MEMSZ := 0x6fc8
  const IDENT := 8
  const BLOCK := 64
  const NBLOCKS := 447

  // ---- The checksum ----

  function Sum(s: seq<byte>): (sum: nat) {
    if s == [] then 0 else Sum(s[..|s| - 1]) + s[|s| - 1] as nat
  }

  predicate ChecksumOk(ident: seq<byte>, body: seq<byte>, sum: byte) {
    (Sum(ident) + Sum(body)) % 256 == sum as nat
  }

  lemma {:induction false} SumOneChange(s: seq<byte>, i: nat, v: byte)
    requires i < |s|
    ensures Sum(s[i := v]) == Sum(s) - s[i] as nat + v as nat
  {
    var n := |s| - 1;
    if i == n {
      assert s[i := v][..n] == s[..n];
    } else {
      assert s[i := v][..n] == s[..n][i := v];
      SumOneChange(s[..n], i, v);
    }
  }

  lemma DifferentModulo(x: nat, y: nat, b: byte, c: byte)
    requires b != c && y == x - b as nat + c as nat
    ensures x % 256 != y % 256
  {
    if b as nat == c as nat {
      ByteInjective(b, c);
    }
    var d := b as int - c as int;
    assert -256 < d < 256 && d != 0 && x == y + d;
    NotCongruent(y, d);
  }

  lemma NotCongruent(y: int, d: int)
    requires -256 < d < 256 && d != 0
    ensures (y + d) % 256 != y % 256
  {
  }

  // ---- Reading ----

  datatype BlockRead = Block(data: seq<byte>, rest: seq<Signal>) | Empty(rest: seq<Signal>) | Fatal

  /** read_block: the data, and then the acknowledge coming back. */
  function ReadBlock(input: seq<Signal>, n: nat): (r: BlockRead)
    ensures r.Block? ==> |r.data| == n && |r.rest| == |input| - n - 1
    ensures r.Empty? ==> |r.rest| < |input| || (input == [] && r.rest == [])
  {
    match Receive(input, n)
    case TimedOut(rest) => Empty(rest)
    case Full(data, rest) =>
      match Receive(rest, 1)
      case TimedOut(_) => Fatal
      case Full(reply, rest') => if reply[0] == ACK then Block(data, rest') else Fatal
  }

  /** `k` blocks one after the other; past the first block an empty one ends the program. */
  function ReadBody(input: seq<Signal>, k: nat): (r: BlockRead)
    ensures !r.Empty?
    ensures r.Block? ==> |r.data| == BLOCK * k && |r.rest| <= |input|
    decreases k
  {
    if k == 0 then Block([], input)
    else
      match ReadBlock(input, BLOCK)
      case Block(data, rest) =>
        (match ReadBody(rest, k - 1)
         case Block(more, rest') => Block(data + more, rest')
         case _ => Fatal)
      case _ => Fatal
  }

  datatype Outcome =
    | Loaded(ident: seq<byte>, body: seq<byte>, sum: byte, rest: seq<Signal>)
    | Exited
    | WaitsForEver

  predicate IsClone(l: Outcome) {
    l.Loaded? && |l.ident| == IDENT && |l.body| == BLOCK * NBLOCKS
  }

  /** ft60r_download: wait for a start, take a pass, and start over when its checksum is wrong. */
  function Download(input: seq<Signal>): (l: Outcome)
    ensures l.Loaded? ==> IsClone(l)
    decreases |input|
  {
    if input == [] then WaitsForEver
    else
      match ReadBlock(input, IDENT)
      case Empty(rest) => Download(rest)
      case Fatal => Exited
      case Block(ident, rest) =>
        match ReadBody(rest, NBLOCKS)
        case Block(body, rest') =>
          (match ReadBlock(rest', 1)
           case Block(sum, rest'') =>
             if ChecksumOk(ident, body, sum[0]) then Loaded(ident, body, sum[0], rest'') else Download(rest'')
           case _ => Exited)
        case _ => Exited
  }

  /** How many acknowledges the program sends on the way to a loaded image: one for every block it takes. */
  function DownloadAcks(input: seq<Signal>): nat
    decreases |input|
  {
    if input == [] then 0
    else
      match ReadBlock(input, IDENT)
      case Empty(rest) => DownloadAcks(rest)
      case Fatal => 0
      case Block(ident, rest) =>
        match ReadBody(rest, NBLOCKS)
        case Block(body, rest') =>
          (match ReadBlock(rest', 1)
           case Block(sum, rest'') =>
             NBLOCKS + 2 + if ChecksumOk(ident, body, sum[0]) then 0 else DownloadAcks(rest'')
           case _ => 0)
        case _ => 0
  }

  function Acks(n: nat): (acks: seq<byte>)
    ensures |acks| == n
  {
    seq(n, _ => ACK)
  }

  lemma MoreAcks(sent: seq<byte>, a: nat, b: nat)
    ensures sent + Acks(a) + Acks(b) == sent + Acks(a + b)
    ensures sent + Acks(0) == sent && Acks(1) == [ACK]
  {
  }

  // ---- What a radio sends ----

  function SendBlockWith(data: seq<byte>, ack: byte): (s: seq<Signal>)
    ensures |s| == |data| + 1
  {
    Carry(data) + [Arrives(ack)]
  }

  function SendBlock(data: seq<byte>): seq<Signal> {
    SendBlockWith(data, ACK)
  }

  function SendBody(body: seq<byte>): seq<Signal>
    requires |body| % BLOCK == 0
  {
    if body == [] then [] else SendBlock(body[..BLOCK]) + SendBody(body[BLOCK..])
  }

  function SendClone(ident: seq<byte>, body: seq<byte>, sum: byte): seq<Signal>
    requires |body| == BLOCK * NBLOCKS
  {
    SendBlock(ident) + SendBody(body) + SendBlock([sum])
  }

  /** The same stream with any bytes in the places of the acknowledges. */
  function SendBodyWith(body: seq<byte>, acks: seq<byte>): seq<Signal>
    requires |body| == BLOCK * |acks|
    decreases |acks|
  {
    if acks == [] then [] else SendBlockWith(body[..BLOCK], acks[0]) + SendBodyWith(body[BLOCK..], acks[1..])
  }

  function SendCloneWith(ident: seq<byte>, body: seq<byte>, sum: byte, acks: seq<byte>): seq<Signal>
    requires |body| == BLOCK * NBLOCKS && |acks| == NBLOCKS + 2
  {
    SendBlockWith(ident, acks[0]) + SendBodyWith(body, acks[1..NBLOCKS + 1]) + SendBlockWith([sum], acks[NBLOCKS + 1])
  }

  lemma ReadAnyBlock(data: seq<byte>, ack: byte, rest: seq<Signal>)
    ensures ReadBlock(SendBlockWith(data, ack) + rest, |data|) == if ack == ACK then Block(data, rest) else Fatal
  {
    hide Receive;
    var tail := [Arrives(ack)] + rest;
    assert SendBlockWith(data, ack) + rest == Carry(data) + tail;
    ReceiveCarried(data, tail);
    ReceiveCarried([ack], rest);
    assert Carry([ack]) == [Arrives(ack)];
  }

  lemma MoreAcked(acks: seq<byte>)
    ensures acks != [] ==> (acks == Acks(|acks|) <==> acks[0] == ACK && acks[1..] == Acks(|acks| - 1))
  {
    if acks != [] && acks[0] == ACK && acks[1..] == Acks(|acks| - 1) {
      assert acks == [ACK] + acks[1..];
    }
  }

  lemma {:induction false} ReadAnyBody(body: seq<byte>, acks: seq<byte>, rest: seq<Signal>)
    requires |body| == BLOCK * |acks|
    ensures ReadBody(SendBodyWith(body, acks) + rest, |acks|)
         == if acks == Acks(|acks|) then Block(body, rest) else Fatal
    decreases |acks|
  {
    hide ReadBlock, SendBlockWith;
    if acks == [] {
      assert SendBodyWith(body, acks) + rest == rest;
    } else {
      var first, others, later := body[..BLOCK], body[BLOCK..], acks[1..];
      assert SendBodyWith(body, acks) + rest == SendBlockWith(first, acks[0]) + (SendBodyWith(others, later) + rest);
      ReadAnyBlock(first, acks[0], SendBodyWith(others, later) + rest);
      ReadAnyBody(others, later, rest);
      MoreAcked(acks);
      assert first + others == body;
    }
  }

  lemma {:induction false} SendAckedBody(body: seq<byte>, k: nat)
    requires |body| == BLOCK * k
    ensures SendBodyWith(body, Acks(k)) == SendBody(body)
  {
    if k == 0 {
      assert body == [];
    } else {
      assert Acks(k)[1..] == Acks(k - 1);
      SendAckedBody(body[BLOCK..], k - 1);
    }
  }

  /** The acknowledges decide first: a single wrong one ends the program, whatever the data are. */
  lemma AcknowledgesDecide(ident: seq<byte>, body: seq<byte>, sum: byte, acks: seq<byte>, rest: seq<Signal>)
    requires |ident| == IDENT && |body| == BLOCK * NBLOCKS && |acks| == NBLOCKS + 2
    ensures Download(SendCloneWith(ident, body, sum, acks) + rest) ==
            if acks != Acks(NBLOCKS + 2) then Exited
            else if ChecksumOk(ident, body, sum) then Loaded(ident, body, sum, rest)
            else Download(rest)
  {
    hide ReadBlock, SendBlockWith, ReadBody, SendBodyWith, ChecksumOk, Acks;
    var input := SendCloneWith(ident, body, sum, acks) + rest;
    var blocks, last := acks[1..NBLOCKS + 1], acks[NBLOCKS + 1];
    var afterBody := SendBlockWith([sum], last) + rest;
    var afterIdent := SendBodyWith(body, blocks) + afterBody;
    assert input == SendBlockWith(ident, acks[0]) + afterIdent;
    AcksSplit(acks);
    ReadAnyBlock(ident, acks[0], afterIdent);
    ReadAnyBody(body, blocks, afterBody);
    ReadAnyBlock([sum], last, rest);
  }

  lemma AcksSplit(acks: seq<byte>)
    requires |acks| == NBLOCKS + 2
    ensures acks == Acks(NBLOCKS + 2)
            <==> acks[0] == ACK && acks[1..NBLOCKS + 1] == Acks(NBLOCKS) && acks[NBLOCKS + 1] == ACK
  {
    if acks[0] == ACK && acks[1..NBLOCKS + 1] == Acks(NBLOCKS) && acks[NBLOCKS + 1] == ACK {
      assert acks == [acks[0]] + acks[1..NBLOCKS + 1] + [acks[NBLOCKS + 1]];
    }
  }

  lemma SendAckedClone(ident: seq<byte>, body: seq<byte>, sum: byte)
    requires |body| == BLOCK * NBLOCKS
    ensures SendCloneWith(ident, body, sum, Acks(NBLOCKS + 2)) == SendClone(ident, body, sum)
  {
    hide SendBodyWith, SendBody;
    AcksSplit(Acks(NBLOCKS + 2));
    SendAckedBody(body, NBLOCKS);
  }

  /**
   * A clone stream is accepted exactly when its checksum fits, and then yields the very image that was sent;
   * otherwise the download starts over behind it.
   */
  lemma DownloadOfClone(ident: seq<byte>, body: seq<byte>, sum: byte, rest: seq<Signal>)
    requires |ident| == IDENT && |body| == BLOCK * NBLOCKS
    ensures Download(SendClone(ident, body, sum) + rest) ==
            if ChecksumOk(ident, body, sum) then Loaded(ident, body, sum, rest) else Download(rest)
  {
    hide Download, SendClone, SendCloneWith, ChecksumOk, Acks;
    AcknowledgesDecide(ident, body, sum, Acks(NBLOCKS + 2), rest);
    SendAckedClone(ident, body, sum);
  }

  // ---- Nothing else is loaded ----

  lemma BlockReadIsSent(input: seq<Signal>, n: nat)
    requires ReadBlock(input, n).Block?
    ensures input == SendBlock(ReadBlock(input, n).data) + ReadBlock(input, n).rest
  {
    hide Receive, Carry;
    var first := Receive(input, n);
    var second := Receive(first.rest, 1);
    ReceivedIsCarried(input, n);
    ReceivedIsCarried(first.rest, 1);
    CarryAck();
    assert second.data == [ACK];
  }

  lemma CarryAck()
    ensures Carry([ACK]) == [Arrives(ACK)]
  {
  }

  lemma {:induction false} BodyReadIsSent(input: seq<Signal>, k: nat)
    requires ReadBody(input, k).Block?
    ensures input == SendBody(ReadBody(input, k).data) + ReadBody(input, k).rest
    decreases k
  {
    hide ReadBlock, SendBlock;
    if k == 0 {
      assert input == SendBody([]) + input;
    } else {
      var first := ReadBlock(input, BLOCK);
      var more := ReadBody(first.rest, k - 1);
      BlockReadIsSent(input, BLOCK);
      BodyReadIsSent(first.rest, k - 1);
      var body := first.data + more.data;
      assert body[..BLOCK] == first.data && body[BLOCK..] == more.data;
      assert input == SendBlock(first.data) + SendBody(more.data) + more.rest;
    }
  }

  lemma PassReadIsSent(input: seq<Signal>)
    requires ReadBlock(input, IDENT).Block?
    requires var i := ReadBlock(input, IDENT); ReadBody(i.rest, NBLOCKS).Block?
    requires var b := ReadBody(ReadBlock(input, IDENT).rest, NBLOCKS); ReadBlock(b.rest, 1).Block?
    ensures var i := ReadBlock(input, IDENT);
            var b := ReadBody(i.rest, NBLOCKS);
            var s := ReadBlock(b.rest, 1);
            input == SendClone(i.data, b.data, s.data[0]) + s.rest
  {
    hide ReadBlock, ReadBody, SendBlock, SendBody;
    var i := ReadBlock(input, IDENT);
    var b := ReadBody(i.rest, NBLOCKS);
    var s := ReadBlock(b.rest, 1);
    BlockReadIsSent(input, IDENT);
    BodyReadIsSent(i.rest, NBLOCKS);
    BlockReadIsSent(b.rest, 1);
    assert s.data == [s.data[0]];
  }

  lemma {:induction false} TimedOutSkips(input: seq<Signal>, n: nat) returns (before: seq<Signal>)
    requires Receive(input, n).TimedOut?
    ensures input == before + Receive(input, n).rest
  {
    if input == [] {
      before := [];
    } else if input[0].Silence? {
      before := [input[0]];
    } else {
      before := TimedOutSkips(input[1..], n - 1);
      before := [input[0]] + before;
      assert input == [input[0]] + input[1..];
    }
  }

  /** What went before the clone that a download loads. */
  lemma {:induction false} LoadedFrom(input: seq<Signal>) returns (before: seq<Signal>)
    requires Download(input).Loaded?
    ensures var l := Download(input);
            && ChecksumOk(l.ident, l.body, l.sum)
            && input == before + SendClone(l.ident, l.body, l.sum) + l.rest
    decreases |input|
  {
    hide ReadBody, ChecksumOk, SendClone, Receive;
    var i := ReadBlock(input, IDENT);
    if i.Empty? {
      var skipped := TimedOutSkips(input, IDENT);
      before := LoadedFrom(i.rest);
      before := skipped + before;
    } else {
      PassReadIsSent(input);
      var b := ReadBody(i.rest, NBLOCKS);
      var s := ReadBlock(b.rest, 1);
      var clone := SendClone(i.data, b.data, s.data[0]);
      if ChecksumOk(i.data, b.data, s.data[0]) {
        before := [];
        assert input == before + clone + s.rest;
      } else {
        before := LoadedFrom(s.rest);
        before := clone + before;
      }
    }
  }

  /**
   * Whatever comes in, what a download loads was sent as a clone: the signals consumed last are exactly the clone
   * stream of the loaded image, and its checksum fits.
   */
  lemma LoadedWasSent(input: seq<Signal>)
    requires Download(input).Loaded?
    ensures var l := Download(input);
            && ChecksumOk(l.ident, l.body, l.sum)
            && exists before :: input == before + SendClone(l.ident, l.body, l.sum) + l.rest
  {
    hide Download, ChecksumOk, SendClone;
    var before := LoadedFrom(input);
  }

  lemma ChangeBreaks(x: nat, y: nat, sum: byte, b: byte, c: byte)
    requires x % 256 == sum as nat && y == x - b as nat + c as nat && b != c
    ensures y % 256 != sum as nat
  {
    DifferentModulo(x, y, b, c);
  }

  lemma IdentChangeBreaks(ident: seq<byte>, body: seq<byte>, sum: byte, i: nat, v: byte)
    requires ChecksumOk(ident, body, sum) && i < |ident| && ident[i] != v
    ensures !ChecksumOk(ident[i := v], body, sum)
  {
    hide Sum;
    SumOneChange(ident, i, v);
    ChangeBreaks(Sum(ident) + Sum(body), Sum(ident[i := v]) + Sum(body), sum, ident[i], v);
  }

  lemma BodyChangeBreaks(ident: seq<byte>, body: seq<byte>, sum: byte, i: nat, v: byte)
    requires ChecksumOk(ident, body, sum) && i < |body| && body[i] != v
    ensures !ChecksumOk(ident, body[i := v], sum)
  {
    hide Sum;
    SumOneChange(body, i, v);
    ChangeBreaks(Sum(ident) + Sum(body), Sum(ident) + Sum(body[i := v]), sum, body[i], v);
  }

  lemma SumChangeBreaks(ident: seq<byte>, body: seq<byte>, sum: byte, v: byte)
    requires ChecksumOk(ident, body, sum) && sum != v
    ensures !ChecksumOk(ident, body, v)
  {
    hide Sum;
    if sum as nat == v as nat {
      ByteInjective(sum, v);
    }
  }

  /**
   * Changing any one byte of a good clone stream keeps it from being loaded: with a wrong byte of the image or the sum
   * the download starts over behind the stream, and with a wrong acknowledge the program ends.
   */
  lemma OneByteRefused(ident: seq<byte>, body: seq<byte>, sum: byte, i: nat, v: byte, rest: seq<Signal>)
    requires |ident| == IDENT && |body| == BLOCK * NBLOCKS && ChecksumOk(ident, body, sum)
    ensures i < IDENT && ident[i] != v ==> Download(SendClone(ident[i := v], body, sum) + rest) == Download(rest)
    ensures i < |body| && body[i] != v ==> Download(SendClone(ident, body[i := v], sum) + rest) == Download(rest)
    ensures sum != v ==> Download(SendClone(ident, body, v) + rest) == Download(rest)
    ensures i < NBLOCKS + 2 && v != ACK ==>
              Download(SendCloneWith(ident, body, sum, Acks(NBLOCKS + 2)[i := v]) + rest) == Exited
  {
    hide Download, SendClone, SendCloneWith, ChecksumOk;
    if i < NBLOCKS + 2 && v != ACK {
      var acks := Acks(NBLOCKS + 2)[i := v];
      assert acks[i] != Acks(NBLOCKS + 2)[i];
      AcknowledgesDecide(ident, body, sum, acks, rest);
    }
    if i < IDENT && ident[i] != v {
      IdentChangeBreaks(ident, body, sum, i, v);
      DownloadOfClone(ident[i := v], body, sum, rest);
    }
    if i < |body| && body[i] != v {
      BodyChangeBreaks(ident, body, sum, i, v);
      DownloadOfClone(ident, body[i := v], sum, rest);
    }
    if sum != v {
      SumChangeBreaks(ident, body, sum, v);
      DownloadOfClone(ident, body, v, rest);
    }
  }

  /** A silence before the clone starts only makes the download wait on. */
  lemma SilenceIsSkipped(rest: seq<Signal>)
    ensures Download([Silence] + rest) == Download(rest)
  {
    assert ([Silence] + rest)[1..] == rest;
    assert Receive([Silence] + rest, IDENT) == TimedOut(rest);
  }

  // ---- Writing ----

  /** write_block: the echo is counted but not compared, then comes the acknowledge. */
  function WriteAck(input: seq<Signal>, n: nat): Ack {
    match Receive(input, n)
    case TimedOut(_) => Bad
    case Full(_, rest) =>
      match Receive(rest, 1)
      case TimedOut(_) => Bad
      case Full(reply, rest') => if reply[0] == ACK then Good(rest') else Bad
  }

  function WriteOne(input: seq<Signal>, data: seq<byte>): Written {
    Written(data, WriteAck(input, |data|))
  }

  function WriteBody(input: seq<Signal>, body: seq<byte>): (w: Written)
    requires |body| % BLOCK == 0
    ensures w.sent <= body
    ensures w.end.Good? ==> w.sent == body
    decreases |body|
  {
    if body == [] then Written([], Good(input))
    else
      var first := WriteOne(input, body[..BLOCK]);
      if first.end.Bad? then first
      else
        var more := WriteBody(first.end.rest, body[BLOCK..]);
        Written(first.sent + more.sent, more.end)
  }

  function ChecksumOf(ident: seq<byte>, body: seq<byte>): (sum: byte)
    ensures ChecksumOk(ident, body, sum)
  {
    AsByte((Sum(ident) + Sum(body)) % 256)
  }

  lemma ChecksumIs(ident: seq<byte>, body: seq<byte>)
    ensures ChecksumOf(ident, body) == AsByte((Sum(ident) + Sum(body)) % 256)
  {
  }

  /** One pass of ft60r_upload. */
  function WritePass(input: seq<Signal>, ident: seq<byte>, body: seq<byte>): (w: Written)
    requires |body| % BLOCK == 0
  {
    var w1 := WriteOne(input, ident);
    if w1.end.Bad? then w1
    else
      var w2 := WriteBody(w1.end.rest, body);
      if w2.end.Bad? then Written(w1.sent + w2.sent, Bad)
      else
        var w3 := WriteOne(w2.end.rest, [ChecksumOf(ident, body)]);
        Written(w1.sent + w2.sent + w3.sent, w3.end)
  }

  /** ft60r_upload: passes until one goes through. Each pass flushes the line, so it has an input of its own. */
  function Upload(passes: seq<seq<Signal>>, ident: seq<byte>, body: seq<byte>): (r: (bool, seq<byte>))
    requires |body| % BLOCK == 0
  {
    if passes == [] then (false, [])
    else
      var w := WritePass(passes[0], ident, body);
      if w.end.Good? then (true, w.sent)
      else
        var later := Upload(passes[1..], ident, body);
        (later.0, w.sent + later.1)
  }

  function CloneBytes(ident: seq<byte>, body: seq<byte>): seq<byte> {
    ident + body + [ChecksumOf(ident, body)]
  }

  predicate EndsWith(sent: seq<byte>, last: seq<byte>) {
    |sent| >= |last| && sent[|sent| - |last|..] == last
  }

  /** However many passes failed, an upload that returns has just sent the whole clone, last thing on the line. */
  lemma {:induction false} UploadEndsWithClone(passes: seq<seq<Signal>>, ident: seq<byte>, body: seq<byte>)
    requires |body| % BLOCK == 0 && Upload(passes, ident, body).0
    ensures EndsWith(Upload(passes, ident, body).1, CloneBytes(ident, body))
    decreases |passes|
  {
    hide ChecksumOf, WriteAck;
    var w := WritePass(passes[0], ident, body);
    if w.end.Good? {
      assert w.sent == CloneBytes(ident, body);
      assert w.sent[0..] == w.sent;
    } else {
      UploadEndsWithClone(passes[1..], ident, body);
      var later := Upload(passes[1..], ident, body).1;
      var n := |CloneBytes(ident, body)|;
      assert (w.sent + later)[|w.sent + later| - n..] == later[|later| - n..];
    }
  }

  /** The bytes of a clone as they arrive at the other end: cut into identifier, blocks and sum, and each piece followed
      by an acknowledge. */
  function Framed(sent: seq<byte>): seq<Signal>
    requires |sent| == MEMSZ + 1
  {
    SendBlock(sent[..IDENT]) + SendBody(sent[IDENT..MEMSZ]) + SendBlock(sent[MEMSZ..])
  }

  /** As many bytes as a clone has, from the end of what was sent. */
  function LastClone(sent: seq<byte>): (last: seq<byte>)
    requires |sent| >= MEMSZ + 1
    ensures |last| == MEMSZ + 1
  {
    sent[|sent| - (MEMSZ + 1)..]
  }

  /** The pass that made an upload return, framed as a radio would send it, is a clone that a download loads as the
      image that was uploaded. */
  lemma CloneRoundTrip(passes: seq<seq<Signal>>, ident: seq<byte>, body: seq<byte>, rest: seq<Signal>)
    requires |ident| == IDENT && |body| == BLOCK * NBLOCKS && Upload(passes, ident, body).0
    ensures var sent := Upload(passes, ident, body).1;
            && |sent| >= MEMSZ + 1
            && Download(Framed(LastClone(sent)) + rest)
               == Loaded(ident, body, ChecksumOf(ident, body), rest)
  {
    hide Upload, Download, SendBlock, SendBody, ChecksumOf;
    UploadEndsWithClone(passes, ident, body);
    var clone := CloneBytes(ident, body);
    assert clone[..IDENT] == ident && clone[IDENT..MEMSZ] == body && clone[MEMSZ..] == [ChecksumOf(ident, body)];
    DownloadOfClone(ident, body, ChecksumOf(ident, body), rest);
  }

  // ---- In numbers ----

  lemma {:induction false} SumConcat(a: seq<byte>, b: seq<byte>)
    ensures Sum(a + b) == Sum(a) + Sum(b)
    decreases |b|
  {
    if b == [] {
      assert a + b == a;
    } else {
      assert (a + b)[..|a + b| - 1] == a + b[..|b| - 1];
      SumConcat(a, b[..|b| - 1]);
    }
  }

  lemma SumOfOne(b: byte)
    ensures Sum([b]) == b as nat && Sum([]) == 0
  {
    assert [b][..0] == [];
  }

  /** The sum against running totals: they start at 0 and grow by one byte at a time. */
  lemma {:induction false} SumIsTotal(s: seq<byte>, t: seq<nat>)
    requires |t| == |s| + 1 && t[0] == 0
    requires forall k :: 0 <= k < |s| ==> t[k + 1] == t[k] + s[k] as nat
    ensures Sum(s) == t[|s|]
  {
    if s == [] {
    } else {
      SumIsTotal(s[..|s| - 1], t[..|s|]);
    }
  }

  lemma SumOfImage(ident: seq<byte>, body: seq<byte>, t: seq<nat>)
    requires |ident| == 8 && |body| == 28608 && |t| == 28617 && t[0] == 0
    requires forall k :: 0 <= k < 28616 ==> t[k + 1] == t[k] + (if k < 8 then ident[k] else body[k - 8]) as nat
    ensures Sum(ident) + Sum(body) == t[28616]
  {
    hide Sum;
    var s := ident + body;
    assert forall k :: 0 <= k < 28616 ==> s[k] == if k < 8 then ident[k] else body[k - 8];
    SumIsTotal(s, t);
    SumConcat(ident, body);
  }

  /** A clone of 8 + 28608 bytes is loaded exactly when their total, byte by byte, is its last byte modulo 256. */
  lemma CloneSumInNumbers(ident: seq<byte>, body: seq<byte>, sum: byte, rest: seq<Signal>, t: seq<nat>)
    requires |ident| == 8 && |body| == 28608 && |t| == 28617 && t[0] == 0
    requires forall k :: 0 <= k < 28616 ==> t[k + 1] == t[k] + (if k < 8 then ident[k] else body[k - 8]) as nat
    ensures Download(SendClone(ident, body, sum) + rest)
         == if t[28616] % 256 == sum as nat then Loaded(ident, body, sum, rest) else Download(rest)
  {
    hide Download, SendClone, Sum;
    SumOfImage(ident, body, t);
    DownloadOfClone(ident, body, sum, rest);
  }

  /** The last 28617 bytes of an upload that returned: identifier, memory, and their total modulo 256. */
  lemma UploadSumInNumbers(passes: seq<seq<Signal>>, ident: seq<byte>, body: seq<byte>, t: seq<nat>)
    requires |ident| == 8 && |body| == 28608 && |t| == 28617 && t[0] == 0 && Upload(passes, ident, body).0
    requires forall k :: 0 <= k < 28616 ==> t[k + 1] == t[k] + (if k < 8 then ident[k] else body[k - 8]) as nat
    ensures var sent := Upload(passes, ident, body).1;
            && |sent| >= 28617
            && var last := sent[|sent| - 28617..];
               && last[28616] as nat == t[28616] % 256
               && forall k :: 0 <= k < 28616 ==> last[k] == if k < 8 then ident[k] else body[k - 8]
  {
    hide Upload, Sum, AsByte;
    SumOfImage(ident, body, t);
    UploadEndsWithClone(passes, ident, body);
  }

  lemma {:induction false} SentBodySignals(body: seq<byte>, k: nat, q: nat, r: nat)
    requires |body| == 64 * k && r < 65
    ensures |SendBody(body)| == 65 * k
    ensures q < k ==> SendBody(body)[65 * q + r] == Arrives(if r < 64 then body[64 * q + r] else 0x06)
    decreases k
  {
    if k == 0 {
    } else {
      var first, others := SendBlock(body[..64]), SendBody(body[64..]);
      assert |first| == 65;
      if q == 0 {
        SentBodySignals(body[64..], k - 1, 0, r);
        assert (first + others)[r] == first[r];
      } else {
        SentBodySignals(body[64..], k - 1, q - 1, r);
        assert q < k ==> (first + others)[65 * q + r] == others[65 * (q - 1) + r];
      }
    }
  }

  /** A clone on the line is 29066 bytes: after the identifier, after each 64 bytes of memory and after the sum comes
      one byte 0x06. */
  lemma CloneSignals(ident: seq<byte>, body: seq<byte>, sum: byte, j: nat)
    requires |ident| == 8 && |body| == 28608
    ensures |SendClone(ident, body, sum)| == 29066
    ensures j < 29066 ==>
              SendClone(ident, body, sum)[j]
              == Arrives(if j < 8 then ident[j]
                         else if j == 8 || j == 29065 || (j < 29064 && (j - 9) % 65 == 64) then 0x06
                         else if j == 29064 then sum
                         else body[(j - 9) / 65 * 64 + (j - 9) % 65])
  {
    hide SendBody;
    SentBodySignals(body, 447, if 9 <= j then (j - 9) / 65 else 0, if 9 <= j then (j - 9) % 65 else 0);
    var front, back := SendBlock(ident), SendBlock([sum]);
    assert |front| == 9 && |back| == 2;
    if 9 <= j < 29064 {
      assert SendClone(ident, body, sum)[j] == SendBody(body)[j - 9];
      assert 65 * ((j - 9) / 65) + (j - 9) % 65 == j - 9;
    }
  }

  /** Taking a good clone costs 449 acknowledges, each of them 0x06. */
  lemma AcksInNumbers(ident: seq<byte>, body: seq<byte>, sum: byte, rest: seq<Signal>)
    requires |ident| == 8 && |body| == 28608 && ChecksumOk(ident, body, sum)
    ensures DownloadAcks(SendClone(ident, body, sum) + rest) == 449
    ensures forall k :: 0 <= k < 449 ==> Acks(449)[k] == 0x06
  {
    hide ReadBlock, SendBlock, ReadBody, SendBody, ChecksumOk;
    var input := SendClone(ident, body, sum) + rest;
    var afterBody := SendBlock([sum]) + rest;
    var afterIdent := SendBody(body) + afterBody;
    assert input == SendBlock(ident) + afterIdent;
    ReadAnyBlock(ident, ACK, afterIdent);
    SendAckedBody(body, NBLOCKS);
    ReadAnyBody(body, Acks(NBLOCKS), afterBody);
    ReadAnyBlock([sum], ACK, rest);
    SendBlockIs(ident);
    SendBlockIs([sum]);
  }

  lemma SendBlockIs(data: seq<byte>)
    ensures SendBlock(data) == SendBlockWith(data, ACK)
  {
  }

  /** As many bytes as were sent come back in time, whatever they are, and 0x06 behind them. */
  predicate BlockBack(input: seq<Signal>, n: nat) {
    n < |input| && (forall k :: 0 <= k < n ==> input[k].Arrives?) && input[n] == Arrives(0x06)
  }

  /** Exactly then an acknowledge is good. */
  lemma AckExactly(input: seq<Signal>, n: nat)
    ensures WriteAck(input, n) == if BlockBack(input, n) then Good(input[n + 1..]) else Bad
  {
    hide Receive;
    ReceivesExactly(input, n);
    if Receive(input, n).Full? {
      ReceivesExactly(input[n..], 1);
      assert n < |input| ==> input[n..][1..] == input[n + 1..];
    }
  }

  /** One block of a body, and the rest of it. */
  lemma BodyStep(input: seq<Signal>, body: seq<byte>, k: nat)
    requires k > 0 && |body| == BLOCK * k
    ensures match WriteAck(input, BLOCK)
            case Bad => WriteBody(input, body) == Written(body[..BLOCK], Bad)
            case Good(rest) =>
              var more := WriteBody(rest, body[BLOCK..]);
              WriteBody(input, body) == Written(body[..BLOCK] + more.sent, more.end)
  {
    hide WriteAck;
  }

  /** How a pass ends: at the identifier, inside the body, or with the answer to the sum. */
  lemma PassSteps(input: seq<Signal>, ident: seq<byte>, body: seq<byte>)
    requires |body| % BLOCK == 0
    ensures match WriteAck(input, |ident|)
            case Bad => WritePass(input, ident, body) == Written(ident, Bad)
            case Good(rest) =>
              var w := WriteBody(rest, body);
              match w.end
              case Bad => WritePass(input, ident, body) == Written(ident + w.sent, Bad)
              case Good(rest') =>
                WritePass(input, ident, body)
                == Written(ident + w.sent + [ChecksumOf(ident, body)], WriteAck(rest', 1))
  {
    hide WriteAck, WriteBody, ChecksumOf;
  }

  lemma {:induction false} BodyPart(input: seq<Signal>, body: seq<byte>, q: nat, m: nat)
    requires |body| == 64 * m && q <= m && |input| == 65 * q
    requires forall k :: 0 <= k < |input| ==> input[k].Arrives?
    requires forall i :: 0 <= i < q ==> input[65 * i + 64].b == 0x06
    ensures q == m ==> WriteBody(input, body) == Written(body, Good([]))
    ensures q < m ==> WriteBody(input, body) == Written(body[..64 * (q + 1)], Bad)
    decreases q
  {
    hide WriteAck;
    if q == 0 {
      assert input == [];
      AckExactly(input, 64);
      if m > 0 { BodyStep(input, body, m); }
    } else {
      assert input[65 * 0 + 64].b == 0x06;
      AckExactly(input, 64);
      BodyStep(input, body, m);
      var later := input[65..];
      forall i | 0 <= i < q - 1
        ensures later[65 * i + 64].b == 0x06
      {
        assert later[65 * i + 64] == input[65 * (i + 1) + 64];
      }
      BodyPart(later, body[64..], q - 1, m - 1);
      assert body[..64] + body[64..] == body;
      assert q < m ==> body[..64] + body[64..][..64 * q] == body[..64 * (q + 1)];
    }
  }

  /** The line brings back `m` blocks of 64 bytes in time, each with 0x06 behind it. */
  predicate BlocksBack(input: seq<Signal>, m: nat) {
    && |input| >= 65 * m && (forall k :: 0 <= k < 65 * m ==> input[k].Arrives?)
    && forall i :: 0 <= i < m ==> input[65 * i + 64].b == 0x06
  }

  lemma BlocksBackNext(input: seq<Signal>, m: nat)
    requires m > 0
    ensures BlocksBack(input, m) <==> BlockBack(input, 64) && BlocksBack(input[65..], m - 1)
  {
    if BlocksBack(input, m) {
      assert input[65 * 0 + 64].b == 0x06;
      var later := input[65..];
      forall i | 0 <= i < m - 1
        ensures later[65 * i + 64].b == 0x06
      {
        assert later[65 * i + 64] == input[65 * (i + 1) + 64];
      }
    }
    if BlockBack(input, 64) && BlocksBack(input[65..], m - 1) {
      var later := input[65..];
      forall k | 0 <= k < 65 * m
        ensures input[k].Arrives?
      {
        assert k >= 65 ==> later[k - 65] == input[k];
      }
      forall i | 0 <= i < m
        ensures input[65 * i + 64].b == 0x06
      {
        assert i > 0 ==> later[65 * (i - 1) + 64] == input[65 * i + 64];
      }
    }
  }

  lemma {:induction false} BodyExactly(input: seq<Signal>, body: seq<byte>, m: nat)
    requires |body| == 64 * m
    ensures WriteBody(input, body).end.Good? <==> BlocksBack(input, m)
    ensures WriteBody(input, body).end.Good? ==> |input| >= 65 * m && WriteBody(input, body).end.rest == input[65 * m..]
    decreases m
  {
    hide WriteAck, BlocksBack;
    if m == 0 {
      assert body == [] && input[0..] == input;
      NoBlocksBack(input);
    } else {
      BodyStep(input, body, m);
      AckExactly(input, 64);
      BlocksBackNext(input, m);
      if WriteAck(input, 64).Good? {
        BodyExactly(input[65..], body[64..], m - 1);
        assert |input| >= 65 * m ==> input[65..][65 * (m - 1)..] == input[65 * m..];
      }
    }
  }

  lemma NoBlocksBack(input: seq<Signal>)
    ensures BlocksBack(input, 0)
  {
  }

  /** The three parts of a pass on the line. */
  lemma PassBack(input: seq<Signal>)
    ensures BlockBack(input, 8) && BlocksBack(input[9..], 447) && BlockBack(input[9..][29055..], 1) <==>
            && |input| >= 29066 && (forall k :: 0 <= k < 29066 ==> input[k].Arrives?)
            && input[8].b == input[29065].b == 0x06
            && forall i :: 0 <= i < 447 ==> input[9 + 65 * i + 64].b == 0x06
  {
    if BlockBack(input, 8) && BlocksBack(input[9..], 447) {
      var later := input[9..];
      assert forall k :: 9 <= k < |input| ==> input[k] == later[k - 9];
      var last := later[29055..];
      assert forall k :: 29064 <= k < |input| ==> input[k] == last[k - 29064];
      assert forall i :: 0 <= i < 447 ==> later[65 * i + 64] == input[9 + 65 * i + 64];
    } else if |input| >= 29066 && forall k :: 0 <= k < 29066 ==> input[k].Arrives? {
      var later := input[9..];
      assert forall i :: 0 <= i < 447 ==> later[65 * i + 64] == input[9 + 65 * i + 64];
    }
  }

  /** A pass goes through exactly when its 449 pieces all come back in time and 0x06 behind each of them. */
  lemma PassExactly(input: seq<Signal>, ident: seq<byte>, body: seq<byte>)
    requires |ident| == 8 && |body| == 28608
    ensures WritePass(input, ident, body).end.Good? <==>
            && |input| >= 29066 && (forall k :: 0 <= k < 29066 ==> input[k].Arrives?)
            && input[8].b == input[29065].b == 0x06
            && forall i :: 0 <= i < 447 ==> input[9 + 65 * i + 64].b == 0x06
  {
    hide WriteAck, WriteBody, ChecksumOf, BlocksBack;
    PassSteps(input, ident, body);
    AckExactly(input, 8);
    PassBack(input);
    if WriteAck(input, 8).Good? {
      BodyExactly(input[9..], body, 447);
      if BlocksBack(input[9..], 447) {
        AckExactly(input[9..][29055..], 1);
      }
    }
  }

  /** An upload returns exactly when one of its passes goes through. */
  lemma {:induction false} UploadReturns(passes: seq<seq<Signal>>, ident: seq<byte>, body: seq<byte>)
    requires |body| % BLOCK == 0
    ensures Upload(passes, ident, body).0 <==>
            exists p :: 0 <= p < |passes| && WritePass(passes[p], ident, body).end.Good?
    decreases |passes|
  {
    hide WritePass;
    if passes == [] {
    } else {
      UploadReturns(passes[1..], ident, body);
      assert forall p :: 1 <= p < |passes| ==> passes[p] == passes[1..][p - 1];
    }
  }

  /** A radio that answers the identifier and `q` blocks, each with 0x06 behind its echo, and then falls silent gets one
      block of 64 bytes more, or the sum; then the pass has failed. */
  lemma PassInNumbers(input: seq<Signal>, ident: seq<byte>, body: seq<byte>, q: nat)
    requires |ident| == 8 && |body| == 28608 && q <= 447 && |input| == 9 + 65 * q
    requires forall k :: 0 <= k < |input| ==> input[k].Arrives?
    requires input[8].b == 0x06 && forall i :: 0 <= i < q ==> input[9 + 65 * i + 64].b == 0x06
    ensures WritePass(input, ident, body)
         == Written(if q < 447 then ident + body[..64 * (q + 1)] else ident + body + [ChecksumOf(ident, body)], Bad)
  {
    hide WriteAck, WriteBody, ChecksumOf;
    AckExactly(input, 8);
    var later := input[9..];
    forall i | 0 <= i < q
      ensures later[65 * i + 64].b == 0x06
    {
      assert later[65 * i + 64] == input[9 + 65 * i + 64];
    }
    BodyPart(later, body, q, 447);
    AckExactly([], 1);
  }

  // ---- In place ----

  datatype Ending = Finished | ProgramExits | Interrupted

  lemma BodyOver(input: seq<Signal>)
    ensures WriteBody(input, []) == Written([], Good(input))
  {
  }

  lemma SentLater(sent: seq<byte>, block: seq<byte>, later: seq<byte>)
    ensures sent + (block + later) == sent + block + later
  {
  }

  ghost function BodyResume(got: seq<byte>, input: seq<Signal>, k: nat): BlockRead {
    match ReadBody(input, k)
    case Block(data, rest) => Block(got + data, rest)
    case _ => Fatal
  }

  lemma BodyNothing(input: seq<Signal>, k: nat)
    ensures BodyResume([], input, k) == ReadBody(input, k)
  {
    match ReadBody(input, k)
    case Block(data, _) => assert [] + data == data;
    case _ =>
  }

  lemma BodyDone(got: seq<byte>, input: seq<Signal>)
    ensures BodyResume(got, input, 0) == Block(got, input)
  {
    assert got + [] == got;
  }

  lemma BodyNext(got: seq<byte>, input: seq<Signal>, k: nat)
    requires k > 0
    ensures match ReadBlock(input, BLOCK)
            case Block(data, rest) => BodyResume(got, input, k) == BodyResume(got + data, rest, k - 1)
            case _ => BodyResume(got, input, k) == Fatal
  {
    match ReadBlock(input, BLOCK)
    case Block(data, rest) =>
      match ReadBody(rest, k - 1) {
        case Block(more, _) => assert got + (data + more) == got + data + more;
        case _ =>
      }
    case _ =>
  }

  class Cloner {
    /** radio_ident and radio_mem. */
    const ident: array<byte>
    const mem: array<byte>

    ghost predicate Valid() {
      ident.Length == IDENT && mem.Length == 0x7000 && ident != mem
    }

    constructor ()
      ensures Valid() && fresh(ident) && fresh(mem)
    {
      ident := new byte[IDENT](_ => 0);
      mem := new byte[0x7000](_ => 0);
    }

    /** On an identifier and a memory that are there already. */
    constructor Over(ident: array<byte>, mem: array<byte>)
      requires ident.Length == IDENT && mem.Length == 0x7000
      ensures Valid() && this.ident == ident && this.mem == mem
    {
      this.ident, this.mem := ident, mem;
    }

    /** read_block. An empty start is false; any other failure ends the program. */
    method TakeBlock(line: Line, buf: array<byte>, at: nat, n: nat) returns (end: Ending, all: bool)
      requires at + n <= buf.Length
      modifies line, buf
      ensures match ReadBlock(old(line.input), n)
              case Block(data, rest) => end == Finished && all && buf[at..at + n] == data && line.input == rest
              case Empty(rest) => end == Finished && !all && line.input == rest
              case Fatal => end == ProgramExits
      ensures line.sent == old(line.sent) + if Receive(old(line.input), n).Full? then [ACK] else []
      ensures end == Finished ==> line.sent == old(line.sent) + Acks(if all then 1 else 0)
      ensures forall a :: 0 <= a < buf.Length && !(at <= a < at + n) ==> buf[a] == old(buf[a])
    {
      hide Receive;
      MoreAcks(line.sent, 0, 0);
      var reply := new byte[1];
      all := line.Read(buf, at, n);
      if !all {
        return Finished, false;
      }
      ghost var data := buf[at..at + n];
      line.Write([ACK]);
      var got := line.Read(reply, 0, 1);
      if !got || reply[..][0] != ACK {
        return ProgramExits, true;
      }
      assert buf[at..at + n] == data;
      return Finished, true;
    }

    /** The block loop of the download. */
    method TakeBody(line: Line) returns (end: Ending)
      requires Valid()
      modifies line, mem
      ensures match ReadBody(old(line.input), NBLOCKS)
              case Block(data, rest) => end == Finished && mem[IDENT..MEMSZ] == data && line.input == rest
              case _ => end == ProgramExits
      ensures end == Finished ==> line.sent == old(line.sent) + Acks(NBLOCKS)
      ensures forall a :: 0 <= a < mem.Length && !(IDENT <= a < MEMSZ) ==> mem[a] == old(mem[a])
    {
      hide ReadBody, Acks, Receive;
      ghost var whole, start := line.input, line.sent;
      MoreAcks(start, 0, 0);
      var addr: nat := IDENT;
      ghost var k: nat := NBLOCKS;
      BodyNothing(whole, NBLOCKS);
      while addr < MEMSZ
        invariant k <= NBLOCKS && addr + BLOCK * k == MEMSZ
        invariant IDENT <= addr <= MEMSZ
        invariant ReadBody(whole, NBLOCKS) == BodyResume(mem[IDENT..addr], line.input, k)
        invariant line.sent == start + Acks(NBLOCKS - k)
        invariant forall a :: 0 <= a < mem.Length && !(IDENT <= a < addr) ==> mem[a] == old(mem[a])
      {
        ghost var before := mem[IDENT..addr];
        BodyNext(before, line.input, k);
        var e, all := TakeBlock(line, mem, addr, BLOCK);
        if e == ProgramExits || !all {
          return ProgramExits;
        }
        assert mem[IDENT..addr] == before;
        assert mem[IDENT..addr + BLOCK] == before + mem[addr..addr + BLOCK];
        MoreAcks(start, NBLOCKS - k, 1);
        addr := addr + BLOCK;
        k := k - 1;
      }
      BodyDone(mem[IDENT..MEMSZ], line.input);
      return Finished;
    }

    method SumRange(buf: array<byte>, from: nat, to: nat) returns (sum: nat)
      requires from <= to <= buf.Length
      ensures sum == Sum(buf[from..to])
    {
      sum := 0;
      for a := from to to
        invariant sum == Sum(buf[from..a])
      {
        assert buf[from..a + 1][..a - from] == buf[from..a];
        sum := sum + buf[a] as nat;
      }
    }

    /** ft60r_download. */
    method TakeClone(line: Line) returns (end: Ending)
      requires Valid()
      modifies line, ident, mem
      ensures match Download(old(line.input))
              case Loaded(i, body, sum, rest) =>
                && end == Finished && ident[..] == i && mem[IDENT..MEMSZ] == body && mem[MEMSZ] == sum
                && line.input == rest
                && line.sent == old(line.sent) + Acks(DownloadAcks(old(line.input)))
              case Exited => end == ProgramExits
              case WaitsForEver => end == Interrupted
      ensures forall a :: 0 <= a < mem.Length && !(IDENT <= a <= MEMSZ) ==> mem[a] == old(mem[a])
    {
      hide ReadBlock, ReadBody, Sum, Acks, Receive;
      ghost var whole, sent := line.input, line.sent;
      while line.input != []
        invariant Download(whole) == Download(line.input)
        invariant line.sent + Acks(DownloadAcks(line.input)) == sent + Acks(DownloadAcks(whole))
        invariant forall a :: 0 <= a < mem.Length && !(IDENT <= a <= MEMSZ) ==> mem[a] == old(mem[a])
        decreases |line.input|
      {
        ghost var input, before := line.input, line.sent;
        var e, all := TakeBlock(line, ident, 0, IDENT);
        if e == ProgramExits {
          return ProgramExits;
        }
        if all {
          ghost var start := ident[..];
          assert ident[0..IDENT] == start;
          e := TakeBody(line);
          if e == ProgramExits {
            return ProgramExits;
          }
          ghost var body := mem[IDENT..MEMSZ];
          e, all := TakeBlock(line, mem, MEMSZ, 1);
          if e == ProgramExits || !all {
            return ProgramExits;
          }
          MoreAcks(before, 1, NBLOCKS);
          MoreAcks(before, 1 + NBLOCKS, 1);
          assert line.sent == before + Acks(NBLOCKS + 2);
          assert mem[IDENT..MEMSZ] == body && ident[..] == start;
          var s1 := SumRange(ident, 0, IDENT);
          var s2 := SumRange(mem, IDENT, MEMSZ);
          assert ident[..] == ident[0..IDENT];
          assert mem[MEMSZ] == mem[MEMSZ..MEMSZ + 1][0];
          if (s1 + s2) % 256 == mem[MEMSZ] as nat {
            return Finished;
          }
          MoreAcks(before, NBLOCKS + 2, DownloadAcks(line.input));
        } else {
          MoreAcks(before, 0, 0);
        }
      }
      return Interrupted;
    }

    /** write_block. */
    method GiveBlock(line: Line, buf: array<byte>, at: nat, n: nat) returns (ok: bool)
      requires at + n <= buf.Length && n <= 64
      modifies line
      ensures line.sent == old(line.sent) + buf[at..at + n]
      ensures var end := WriteAck(old(line.input), n);
              ok == end.Good? && (ok ==> line.input == end.rest)
    {
      hide Receive;
      var reply := new byte[64];
      line.Write(buf[at..at + n]);
      var all := line.Read(reply, 0, n);
      if !all {
        return false;
      }
      all := line.Read(reply, 0, 1);
      return all && reply[0..1][0] == ACK;
    }

    /** The block loop of the upload. */
    method GiveBody(line: Line) returns (ok: bool)
      requires Valid()
      modifies line
      ensures var w := WriteBody(old(line.input), mem[IDENT..MEMSZ]);
              && line.sent == old(line.sent) + w.sent
              && ok == w.end.Good? && (ok ==> line.input == w.end.rest)
    {
      hide WriteAck, WriteBody;
      ghost var start := line.sent;
      ghost var whole := WriteBody(line.input, mem[IDENT..MEMSZ]);
      var addr: nat := IDENT;
      ghost var k: nat := NBLOCKS;
      while addr < MEMSZ
        invariant k <= NBLOCKS && addr + BLOCK * k == MEMSZ && IDENT <= addr
        invariant var rest := WriteBody(line.input, mem[addr..MEMSZ]);
                  start + whole.sent == line.sent + rest.sent && whole.end == rest.end
      {
        ghost var sent, rest := line.sent, WriteBody(line.input, mem[addr..MEMSZ]);
        BodyStep(line.input, mem[addr..MEMSZ], k);
        assert mem[addr..MEMSZ][..BLOCK] == mem[addr..addr + BLOCK];
        assert mem[addr..MEMSZ][BLOCK..] == mem[addr + BLOCK..MEMSZ];
        ok := GiveBlock(line, mem, addr, BLOCK);
        if !ok {
          return false;
        }
        ghost var later := WriteBody(line.input, mem[addr + BLOCK..MEMSZ]);
        SentLater(sent, mem[addr..addr + BLOCK], later.sent);
        addr := addr + BLOCK;
        k := k - 1;
      }
      BodyOver(line.input);
      return true;
    }

    /** One pass: identifier, blocks, and the checksum, which is left behind the memory. */
    method GivePass(line: Line) returns (ok: bool)
      requires Valid()
      modifies line, mem
      ensures var w := WritePass(old(line.input), ident[..], old(mem[IDENT..MEMSZ]));
              line.sent == old(line.sent) + w.sent && ok == w.end.Good?
      ensures forall a :: 0 <= a < mem.Length && a != MEMSZ ==> mem[a] == old(mem[a])
      ensures ok ==> mem[MEMSZ] == ChecksumOf(ident[..], mem[IDENT..MEMSZ])
    {
      hide WriteAck, WriteBody, WritePass, Sum, AsByte, ChecksumOf, ChecksumOk;
      ghost var body := mem[IDENT..MEMSZ];
      assert ident[0..IDENT] == ident[..];
      PassSteps(line.input, ident[..], body);
      ok := GiveBlock(line, ident, 0, IDENT);
      if !ok {
        return;
      }
      ok := GiveBody(line);
      if !ok {
        return;
      }
      var s1 := SumRange(ident, 0, IDENT);
      var s2 := SumRange(mem, IDENT, MEMSZ);
      var sum := AsByte((s1 + s2) % 256);
      assert sum == ChecksumOf(ident[..], body) by { ChecksumIs(ident[..], body); }
      ghost var sent := line.sent;
      mem[MEMSZ] := sum;
      assert mem[IDENT..MEMSZ] == body;
      assert mem[MEMSZ..MEMSZ + 1] == [sum];
      ok := GiveBlock(line, mem, MEMSZ, 1);
      assert line.sent == sent + [sum];
    }

    /** ft60r_upload. Each pass starts with a flush, so what the line brings is given pass by pass. */
    method GiveClone(line: Line, passes: seq<seq<Signal>>) returns (done: bool)
      requires Valid()
      modifies line, mem
      ensures var r := Upload(passes, ident[..], old(mem[IDENT..MEMSZ]));
              done == r.0 && line.sent == old(line.sent) + r.1
      ensures forall a :: 0 <= a < mem.Length && a != MEMSZ ==> mem[a] == old(mem[a])
      ensures done ==> mem[MEMSZ] == ChecksumOf(ident[..], mem[IDENT..MEMSZ])
    {
      hide WritePass, ChecksumOf;
      ghost var body := mem[IDENT..MEMSZ];
      ghost var before := line.sent;
      for p := 0 to |passes|
        invariant mem[IDENT..MEMSZ] == body
        invariant forall a :: 0 <= a < mem.Length && a != MEMSZ ==> mem[a] == old(mem[a])
        invariant var whole, later := Upload(passes, ident[..], body), Upload(passes[p..], ident[..], body);
                  whole.0 == later.0 && before + whole.1 == line.sent + later.1
      {
        line.input := passes[p];
        ghost var sent := line.sent;
        ghost var later := Upload(passes[p + 1..], ident[..], body);
        assert passes[p..][1..] == passes[p + 1..];
        var ok := GivePass(line);
        ghost var w := WritePass(passes[p], ident[..], body);
        assert sent + (w.sent + later.1) == line.sent + later.1;
        assert mem[IDENT..MEMSZ] == body;
        if ok {
          return true;
        }
      }
      return false;
    }
  }
}

/** The block protocol of the four Baofeng drivers, a radio at the other end, and a whole backup and restore. */
module BaofengTransfer {
  import opened Bytes
  import opened SerialLink
  import opened ImageFiles
  import opened Radio

  /** Where the drivers differ: the letters of request and block, the block sizes, what acknowledges a block that was
      read, the ranges transferred, and how much memory is erased before a download. */
  datatype Protocol = Protocol(ask: char, carry: char, readBlock: nat, writeBlock: nat, readAcks: seq<byte>,
                               ranges: seq<(nat, nat)>, erased: nat)

  function Table(d: Device): Protocol
    requires !d.Ft60r?
  {
    match d
    case Uv5r => Protocol('S', 'X', 0x40, 0x10, [0x06], [(0, 0x1800), (0x1ec0, 0x2000)], 0)
    case Uv5rAged => Protocol('S', 'X', 0x40, 0x10, [0x06], [(0, 0x1800)], 0)
    case UvB5 => Protocol('R', 'W', 0x10, 0x10, [0x74, 0x78, 0x1f], [(0, 0x1000)], 0)
    case Bf888 => Protocol('R', 'W', 8, 8, [0x06], [(0x10, 0x110), (0x2b0, 0x2c0), (0x3c0, 0x3e0)], 0x400)
  }

  function Left(from: nat, to: nat): nat {
    if from < to then to - from else 0
  }

  /** Blocks of one size fill a range exactly. */
  predicate Tiles(from: nat, to: nat, block: nat)
    decreases Left(from, to)
  {
    from == to || (block > 0 && from + block <= to && Tiles(from + block, to, block))
  }

  predicate RangesTile(ranges: seq<(nat, nat)>, block: nat) {
    forall k :: 0 <= k < |ranges| ==> ranges[k].1 <= MEM_SIZE && Tiles(ranges[k].0, ranges[k].1, block)
  }

  predicate WellFormed(p: Protocol) {
    && p.ask < 128 as char && p.carry < 128 as char && p.readAcks != []
    && 0 < p.readBlock < 256 && 0 < p.writeBlock < 256 && p.erased <= MEM_SIZE
    && RangesTile(p.ranges, p.readBlock) && RangesTile(p.ranges, p.writeBlock)
  }

  lemma {:induction false} TilesWhole(from: nat, to: nat, block: nat)
    requires from <= to && (block == 8 || block == 0x10 || block == 0x40)
    requires block == 8 ==> (to - from) % 8 == 0
    requires block == 0x10 ==> (to - from) % 0x10 == 0
    requires block == 0x40 ==> (to - from) % 0x40 == 0
    ensures Tiles(from, to, block)
    decreases Left(from, to)
  {
    if from == to {
    } else {
      TilesWhole(from + block, to, block);
    }
  }

  /** Read and write blocks of every driver tile its ranges without gap or overhang. */
  lemma ProtocolsTile(d: Device)
    requires !d.Ft60r?
    ensures WellFormed(Table(d))
  {
    TilesWhole(0, 0x1800, 0x40);
    TilesWhole(0x1ec0, 0x2000, 0x40);
    TilesWhole(0, 0x1800, 0x10);
    TilesWhole(0x1ec0, 0x2000, 0x10);
    TilesWhole(0, 0x1000, 0x10);
    TilesWhole(0x10, 0x110, 8);
    TilesWhole(0x2b0, 0x2c0, 8);
    TilesWhole(0x3c0, 0x3e0, 8);
    hide Tiles;
  }

  function ProtocolOf(d: Device): (p: Protocol)
    requires !d.Ft60r?
    ensures WellFormed(p)
  {
    ProtocolsTile(d);
    Table(d)
  }

  // ---- One block ----

  /** The four bytes before a block: a letter, the address high byte first, and the length. */
  function Header(letter: char, start: nat, n: nat): (h: seq<byte>)
    requires letter < 128 as char && start < 0x1_0000 && n < 256
    ensures |h| == 4
  {
    [AsByte(letter as nat), AsByte(start / 256), AsByte(start % 256), AsByte(n)]
  }

  datatype Fetch = Fetched(data: seq<byte>, rest: seq<Signal>) | Halted

  /** read_block, from what the radio answers. Anything but the exact header and a final acknowledge halts. */
  function ReadBlock(p: Protocol, input: seq<Signal>, start: nat): (f: Fetch)
    requires WellFormed(p) && start < 0x1_0000
    ensures f.Fetched? ==> |f.data| == p.readBlock
  {
    match Receive(input, 4)
    case TimedOut(_) => Halted
    case Full(reply, rest) =>
      if reply != Header(p.carry, start, p.readBlock) then Halted
      else
        match Receive(rest, p.readBlock)
        case TimedOut(_) => Halted
        case Full(data, rest') =>
          match Receive(rest', 1)
          case TimedOut(_) => Halted
          case Full(ack, rest'') => if ack[0] in p.readAcks then Fetched(data, rest'') else Halted
  }

  /** Whether a block comes in that far that the program acknowledges it. */
  predicate DataArrives(p: Protocol, input: seq<Signal>, start: nat)
    requires WellFormed(p) && start < 0x1_0000
  {
    match Receive(input, 4)
    case TimedOut(_) => false
    case Full(reply, rest) => reply == Header(p.carry, start, p.readBlock) && Receive(rest, p.readBlock).Full?
  }

  function WriteAck(input: seq<Signal>): Ack {
    match Receive(input, 1)
    case TimedOut(_) => Bad
    case Full(reply, rest) => if reply[0] == ACK then Good(rest) else Bad
  }

  // ---- A range of blocks ----

  datatype Loading = Loaded(mem: seq<byte>, rest: seq<Signal>) | Stopped

  function FetchRange(p: Protocol, input: seq<Signal>, mem: seq<byte>, from: nat, to: nat): (l: Loading)
    requires WellFormed(p) && |mem| == MEM_SIZE && to <= MEM_SIZE && Tiles(from, to, p.readBlock)
    ensures l.Loaded? ==> |l.mem| == MEM_SIZE
    decreases Left(from, to)
  {
    if from == to then Loaded(mem, input)
    else
      match ReadBlock(p, input, from)
      case Halted => Stopped
      case Fetched(data, rest) => FetchRange(p, rest, Splice(mem, from, data), from + p.readBlock, to)
  }

  /** What the program sends while it reads a range: a request and an acknowledge for every block. */
  function Requests(p: Protocol, from: nat, to: nat): seq<byte>
    requires WellFormed(p) && to <= MEM_SIZE && Tiles(from, to, p.readBlock)
    decreases Left(from, to)
  {
    if from == to then [] else Header(p.ask, from, p.readBlock) + [ACK] + Requests(p, from + p.readBlock, to)
  }

  /** A block on the line, from the radio or to it. */
  function Command(p: Protocol, start: nat, data: seq<byte>): seq<byte>
    requires WellFormed(p) && start < 0x1_0000 && |data| < 256
  {
    Header(p.carry, start, |data|) + data
  }

  function GiveRange(p: Protocol, input: seq<Signal>, mem: seq<byte>, from: nat, to: nat): Written
    requires WellFormed(p) && |mem| == MEM_SIZE && to <= MEM_SIZE && Tiles(from, to, p.writeBlock)
    decreases Left(from, to)
  {
    if from == to then Written([], Good(input))
    else
      var sent := Command(p, from, mem[from..from + p.writeBlock]);
      match WriteAck(input)
      case Bad => Written(sent, Bad)
      case Good(rest) =>
        var more := GiveRange(p, rest, mem, from + p.writeBlock, to);
        Written(sent + more.sent, more.end)
  }

  // ---- All ranges ----

  function FetchRanges(p: Protocol, ranges: seq<(nat, nat)>, input: seq<Signal>, mem: seq<byte>): (l: Loading)
    requires WellFormed(p) && |mem| == MEM_SIZE && RangesTile(ranges, p.readBlock)
    ensures l.Loaded? ==> |l.mem| == MEM_SIZE
  {
    if ranges == [] then Loaded(mem, input)
    else
      match FetchRange(p, input, mem, ranges[0].0, ranges[0].1)
      case Stopped => Stopped
      case Loaded(m, rest) => FetchRanges(p, ranges[1..], rest, m)
  }

  function AllRequests(p: Protocol, ranges: seq<(nat, nat)>): seq<byte>
    requires WellFormed(p) && RangesTile(ranges, p.readBlock)
  {
    if ranges == [] then [] else Requests(p, ranges[0].0, ranges[0].1) + AllRequests(p, ranges[1..])
  }

  function GiveRanges(p: Protocol, ranges: seq<(nat, nat)>, input: seq<Signal>, mem: seq<byte>): Written
    requires WellFormed(p) && |mem| == MEM_SIZE && RangesTile(ranges, p.writeBlock)
  {
    if ranges == [] then Written([], Good(input))
    else
      var first := GiveRange(p, input, mem, ranges[0].0, ranges[0].1);
      match first.end
      case Bad => first
      case Good(rest) =>
        var more := GiveRanges(p, ranges[1..], rest, mem);
        Written(first.sent + more.sent, more.end)
  }

  function Erased(mem: seq<byte>, n: nat): (m: seq<byte>)
    requires n <= |mem|
    ensures |m| == |mem|
  {
    seq(|mem|, a requires 0 <= a < |mem| => if a < n then 0xff else mem[a])
  }

  function Download(p: Protocol, input: seq<Signal>, mem: seq<byte>): (l: Loading)
    requires WellFormed(p) && |mem| == MEM_SIZE
    ensures l.Loaded? ==> |l.mem| == MEM_SIZE
  {
    FetchRanges(p, p.ranges, input, Erased(mem, p.erased))
  }

  function Upload(p: Protocol, input: seq<Signal>, mem: seq<byte>): Written
    requires WellFormed(p) && |mem| == MEM_SIZE
  {
    GiveRanges(p, p.ranges, input, mem)
  }

  predicate InRanges(ranges: seq<(nat, nat)>, a: nat) {
    ranges != [] && (ranges[0].0 <= a < ranges[0].1 || InRanges(ranges[1..], a))
  }

  // ---- The radio at the other end ----

  /** How a radio takes four header bytes apart. */
  predicate Heads(sent: seq<byte>, letter: char, n: nat)
    requires |sent| >= 4
  {
    sent[0] as nat == letter as nat && sent[3] as nat == n
  }

  function StartOf(sent: seq<byte>): nat
    requires |sent| >= 4
  {
    256 * sent[1] as nat + sent[2] as nat
  }

  /** What a radio with memory `dev` answers to requests: for each the header, the block, and its own acknowledge. */
  function Replies(p: Protocol, dev: seq<byte>, ack: byte, sent: seq<byte>): seq<Signal>
    requires WellFormed(p) && |dev| == MEM_SIZE
    decreases |sent|
  {
    if |sent| < 5 || !Heads(sent, p.ask, p.readBlock) then []
    else
      var start := StartOf(sent);
      if start + p.readBlock > MEM_SIZE then []
      else Carry(Command(p, start, dev[start..start + p.readBlock]) + [ack]) + Replies(p, dev, ack, sent[5..])
  }

  /** What its memory becomes from the bytes it is sent: each complete write command stores its block. */
  function Stores(p: Protocol, dev: seq<byte>, sent: seq<byte>): (after: seq<byte>)
    requires WellFormed(p) && |dev| == MEM_SIZE
    ensures |after| == MEM_SIZE
    decreases |sent|
  {
    if |sent| < 4 + p.writeBlock || !Heads(sent, p.carry, p.writeBlock) then dev
    else
      var start := StartOf(sent);
      if start + p.writeBlock > MEM_SIZE then dev
      else Stores(p, Splice(dev, start, sent[4..4 + p.writeBlock]), sent[4 + p.writeBlock..])
  }

  lemma HeaderReads(letter: char, start: nat, n: nat, data: seq<byte>, rest: seq<byte>)
    requires letter < 128 as char && start < 0x1_0000 && n < 256
    ensures var sent := Header(letter, start, n) + data + rest;
            && Heads(sent, letter, n) && StartOf(sent) == start
            && sent[4..4 + |data|] == data && sent[4 + |data|..] == rest
  {
    hide AsByte;
    var sent := Header(letter, start, n) + data + rest;
    assert sent[0] == AsByte(letter as nat) && sent[3] == AsByte(n);
    assert sent[1] == AsByte(start / 256) && sent[2] == AsByte(start % 256);
    assert 256 * (start / 256) + start % 256 == start;
  }

  lemma ReplyToOne(p: Protocol, dev: seq<byte>, ack: byte, start: nat, rest: seq<byte>)
    requires WellFormed(p) && |dev| == MEM_SIZE && start + p.readBlock <= MEM_SIZE
    ensures Replies(p, dev, ack, Header(p.ask, start, p.readBlock) + [ACK] + rest)
         == Carry(Command(p, start, dev[start..start + p.readBlock]) + [ack]) + Replies(p, dev, ack, rest)
  {
    hide Header, Command, Carry, RangesTile, Heads, StartOf;
    HeaderReads(p.ask, start, p.readBlock, [ACK], rest);
  }

  lemma ReadReplied(p: Protocol, data: seq<byte>, ack: byte, start: nat, rest: seq<Signal>)
    requires WellFormed(p) && |data| == p.readBlock && start < 0x1_0000 && ack in p.readAcks
    ensures ReadBlock(p, Carry(Command(p, start, data) + [ack]) + rest, start) == Fetched(data, rest)
  {
    hide Receive, Header, RangesTile;
    var h := Header(p.carry, start, p.readBlock);
    var tail := Carry([ack]) + rest;
    assert Carry(Command(p, start, data) + [ack]) + rest == Carry(h) + (Carry(data) + tail);
    ReceiveCarried(h, Carry(data) + tail);
    ReceiveCarried(data, tail);
    ReceiveCarried([ack], rest);
  }

  lemma SpliceTwo(base: seq<byte>, mem: seq<byte>, from: nat, mid: nat, to: nat)
    requires from <= mid <= to <= |base| == |mem|
    ensures Splice(Splice(base, from, mem[from..mid]), mid, mem[mid..to]) == Splice(base, from, mem[from..to])
  {
  }

  lemma TileStep(from: nat, to: nat, block: nat)
    requires Tiles(from, to, block) && from != to
    ensures block > 0 && from + block <= to && Tiles(from + block, to, block)
  {
  }

  /** Reading a range: the answers to its requests bring in the radio's bytes, and what follows is left for later. */
  lemma {:induction false} FetchReplied(p: Protocol, dev: seq<byte>, ack: byte, mem: seq<byte>, from: nat, to: nat,
                                        more: seq<byte>, rest: seq<Signal>)
    requires WellFormed(p) && |dev| == |mem| == MEM_SIZE && ack in p.readAcks
    requires to <= MEM_SIZE && Tiles(from, to, p.readBlock)
    ensures from <= to
    ensures FetchRange(p, Replies(p, dev, ack, Requests(p, from, to) + more) + rest, mem, from, to)
         == Loaded(Splice(mem, from, dev[from..to]), Replies(p, dev, ack, more) + rest)
    decreases Left(from, to)
  {
    hide ReadBlock, Header, Command, Carry, Replies, RangesTile, Splice;
    if from == to {
      assert [] + more == more;
      assert dev[from..to] == [];
      SpliceNothing(mem, from);
    } else {
      TileStep(from, to, p.readBlock);
      var mid := from + p.readBlock;
      var data := dev[from..mid];
      var later := Requests(p, mid, to) + more;
      var block := Carry(Command(p, from, data) + [ack]);
      assert Requests(p, from, to) + more == Header(p.ask, from, p.readBlock) + [ACK] + later;
      ReplyToOne(p, dev, ack, from, later);
      assert block + Replies(p, dev, ack, later) + rest == block + (Replies(p, dev, ack, later) + rest);
      ReadReplied(p, data, ack, from, Replies(p, dev, ack, later) + rest);
      FetchReplied(p, dev, ack, Splice(mem, from, data), mid, to, more, rest);
      SpliceTwo(mem, dev, from, mid, to);
    }
  }

  predicate Ordered(ranges: seq<(nat, nat)>) {
    forall k :: 0 <= k < |ranges| ==> ranges[k].0 <= ranges[k].1 <= MEM_SIZE
  }

  /** The ranges of one memory laid over another. */
  function Overlay(base: seq<byte>, mem: seq<byte>, ranges: seq<(nat, nat)>): (r: seq<byte>)
    requires |base| == |mem| == MEM_SIZE
    requires Ordered(ranges)
    ensures |r| == MEM_SIZE
    decreases |ranges|
  {
    if ranges == [] then base
    else Overlay(Splice(base, ranges[0].0, mem[ranges[0].0..ranges[0].1]), mem, ranges[1..])
  }

  lemma {:induction false} OverlayAt(base: seq<byte>, mem: seq<byte>, ranges: seq<(nat, nat)>, a: nat)
    requires |base| == |mem| == MEM_SIZE && a < MEM_SIZE
    requires Ordered(ranges)
    ensures Overlay(base, mem, ranges)[a] == if InRanges(ranges, a) then mem[a] else base[a]
    decreases |ranges|
  {
    hide Splice;
    if ranges == [] {
    } else {
      var field := mem[ranges[0].0..ranges[0].1];
      SpliceAt(base, ranges[0].0, field, a);
      OverlayAt(Splice(base, ranges[0].0, field), mem, ranges[1..], a);
    }
  }

  lemma {:induction false} TilesOrdered(from: nat, to: nat, block: nat)
    requires Tiles(from, to, block)
    ensures from <= to
    decreases Left(from, to)
  {
  }

  lemma RangesOrdered(ranges: seq<(nat, nat)>, block: nat)
    requires RangesTile(ranges, block)
    ensures Ordered(ranges)
  {
    forall k | 0 <= k < |ranges|
      ensures ranges[k].0 <= ranges[k].1
    {
      TilesOrdered(ranges[k].0, ranges[k].1, block);
    }
  }

  lemma FirstRange(ranges: seq<(nat, nat)>, block: nat)
    requires RangesTile(ranges, block) && ranges != []
    ensures ranges[0].1 <= MEM_SIZE && Tiles(ranges[0].0, ranges[0].1, block) && RangesTile(ranges[1..], block)
  {
    hide Tiles;
  }

  lemma {:induction false} FetchAllReplied(p: Protocol, dev: seq<byte>, ack: byte, mem: seq<byte>,
                                           ranges: seq<(nat, nat)>, rest: seq<Signal>)
    requires WellFormed(p) && |dev| == |mem| == MEM_SIZE && RangesTile(ranges, p.readBlock) && ack in p.readAcks
    ensures Ordered(ranges)
    ensures FetchRanges(p, ranges, Replies(p, dev, ack, AllRequests(p, ranges)) + rest, mem)
         == Loaded(Overlay(mem, dev, ranges), rest)
    decreases |ranges|
  {
    hide FetchRange, Requests, Replies, Splice, Tiles, WellFormed, Ordered, RangesTile;
    RangesOrdered(ranges, p.readBlock);
    if ranges == [] {
      NoReplies(p, dev, ack);
      assert [] + rest == rest;
    } else {
      FirstRange(ranges, p.readBlock);
      var (from, to) := ranges[0];
      var more := AllRequests(p, ranges[1..]);
      FetchReplied(p, dev, ack, mem, from, to, more, rest);
      FetchAllReplied(p, dev, ack, Splice(mem, from, dev[from..to]), ranges[1..], rest);
    }
  }

  lemma NoReplies(p: Protocol, dev: seq<byte>, ack: byte)
    requires WellFormed(p) && |dev| == MEM_SIZE
    ensures Replies(p, dev, ack, []) == []
  {
  }

  /** A download from a radio that answers the requests takes exactly its ranges. */
  lemma DownloadOfRadio(p: Protocol, dev: seq<byte>, ack: byte, mem: seq<byte>, rest: seq<Signal>)
    requires WellFormed(p) && |dev| == |mem| == MEM_SIZE && ack in p.readAcks
    ensures Ordered(p.ranges)
    ensures Download(p, Replies(p, dev, ack, AllRequests(p, p.ranges)) + rest, mem)
         == Loaded(Overlay(Erased(mem, p.erased), dev, p.ranges), rest)
  {
    hide Replies, AllRequests, FetchRanges, Overlay, Erased, RangesTile;
    FetchAllReplied(p, dev, ack, Erased(mem, p.erased), p.ranges, rest);
  }

  lemma StoresOne(p: Protocol, dev: seq<byte>, data: seq<byte>, start: nat, rest: seq<byte>)
    requires WellFormed(p) && |dev| == MEM_SIZE && |data| == p.writeBlock && start + p.writeBlock <= MEM_SIZE
    ensures Stores(p, dev, Command(p, start, data) + rest) == Stores(p, Splice(dev, start, data), rest)
  {
    hide Header, Splice, RangesTile, Heads, StartOf;
    HeaderReads(p.carry, start, p.writeBlock, data, rest);
  }

  lemma {:induction false} StoresGiven(p: Protocol, dev: seq<byte>, input: seq<Signal>, mem: seq<byte>,
                                       from: nat, to: nat, rest: seq<byte>)
    requires WellFormed(p) && |dev| == |mem| == MEM_SIZE && to <= MEM_SIZE && Tiles(from, to, p.writeBlock)
    requires GiveRange(p, input, mem, from, to).end.Good?
    ensures from <= to
    ensures Stores(p, dev, GiveRange(p, input, mem, from, to).sent + rest)
         == Stores(p, Splice(dev, from, mem[from..to]), rest)
    decreases Left(from, to)
  {
    hide Stores, Command, WriteAck, Splice, RangesTile;
    if from == to {
      assert [] + rest == rest;
      assert mem[from..to] == [];
      SpliceNothing(dev, from);
    } else {
      TileStep(from, to, p.writeBlock);
      var mid := from + p.writeBlock;
      var data := mem[from..mid];
      var sent := Command(p, from, data);
      var after := WriteAck(input).rest;
      var more := GiveRange(p, after, mem, mid, to).sent;
      assert sent + more + rest == sent + (more + rest);
      StoresOne(p, dev, data, from, more + rest);
      StoresGiven(p, Splice(dev, from, data), after, mem, mid, to, rest);
      SpliceTwo(dev, mem, from, mid, to);
    }
  }

  lemma {:induction false} StoresAllGiven(p: Protocol, dev: seq<byte>, input: seq<Signal>, mem: seq<byte>,
                                          ranges: seq<(nat, nat)>)
    requires WellFormed(p) && |dev| == |mem| == MEM_SIZE && RangesTile(ranges, p.writeBlock)
    requires GiveRanges(p, ranges, input, mem).end.Good?
    ensures Ordered(ranges)
    ensures Stores(p, dev, GiveRanges(p, ranges, input, mem).sent) == Overlay(dev, mem, ranges)
    decreases |ranges|
  {
    hide Stores, GiveRange, Splice, Tiles, WellFormed, Ordered, RangesTile;
    RangesOrdered(ranges, p.writeBlock);
    if ranges == [] {
      NothingStored(p, dev);
    } else {
      FirstRange(ranges, p.writeBlock);
      var (from, to) := ranges[0];
      var first := GiveRange(p, input, mem, from, to);
      var more := GiveRanges(p, ranges[1..], first.end.rest, mem);
      StoresGiven(p, dev, input, mem, from, to, more.sent);
      StoresAllGiven(p, Splice(dev, from, mem[from..to]), first.end.rest, mem, ranges[1..]);
    }
  }

  lemma NothingStored(p: Protocol, dev: seq<byte>)
    requires WellFormed(p) && |dev| == MEM_SIZE
    ensures Stores(p, dev, []) == dev
  {
  }

  /** The radio after a complete upload: the ranges from the image, everything else as it was. */
  lemma UploadStores(p: Protocol, dev: seq<byte>, input: seq<Signal>, mem: seq<byte>)
    requires WellFormed(p) && |dev| == |mem| == MEM_SIZE && Upload(p, input, mem).end.Good?
    ensures Ordered(p.ranges)
    ensures Stores(p, dev, Upload(p, input, mem).sent) == Overlay(dev, mem, p.ranges)
  {
    hide Stores, GiveRanges, Overlay, RangesTile;
    StoresAllGiven(p, dev, input, mem, p.ranges);
  }

  // ---- Backup and restore ----

  predicate Transferred(d: Device, a: nat)
    requires !d.Ft60r?
  {
    InRanges(ProtocolOf(d).ranges, a)
  }

  /** The image file holds at least what is transferred. */
  lemma TransferredIsStored(d: Device, a: nat)
    requires !d.Ft60r? && Transferred(d, a)
    ensures Stored(d, a)
  {
    var k := RangeOf(ProtocolOf(d).ranges, a);
    hide InRanges;
  }

  lemma {:induction false} RangeOf(ranges: seq<(nat, nat)>, a: nat) returns (k: nat)
    requires InRanges(ranges, a)
    ensures k < |ranges| && ranges[k].0 <= a < ranges[k].1
    decreases |ranges|
  {
    if ranges[0].0 <= a < ranges[0].1 {
      k := 0;
    } else {
      k := RangeOf(ranges[1..], a);
      k := k + 1;
    }
  }

  /** A download with driver `d` from a radio that holds `source` and ends every block with `ack`. */
  function Backup(d: Device, source: seq<byte>, ack: byte, before: seq<byte>, rest: seq<Signal>): (l: Loading)
    requires !d.Ft60r? && |source| == |before| == MEM_SIZE
    ensures l.Loaded? ==> |l.mem| == MEM_SIZE
  {
    var p := ProtocolOf(d);
    Download(p, Replies(p, source, ack, AllRequests(p, p.ranges)) + rest, before)
  }

  /** Download, save and read back: every transferred byte is there again, in spite of the block that moves inside the
      BF-888S file. */
  lemma TransferredSurvives(d: Device, source: seq<byte>, ident: seq<byte>, ack: byte,
                            before: seq<byte>, later: seq<byte>, rest: seq<Signal>)
    requires !d.Ft60r? && |source| == |before| == |later| == MEM_SIZE && |ident| == IDENT_LENGTH
    requires ack in ProtocolOf(d).readAcks
    ensures var backup := Backup(d, source, ack, before, rest);
            && backup.Loaded?
            && var image := ReadImage(SaveImage(d, ident, backup.mem), later);
            && image.Image? && image.ident == ident
            && forall a :: 0 <= a < MEM_SIZE && Transferred(d, a) ==> image.mem[a] == source[a]
  {
    var p := ProtocolOf(d);
    assert p.erased <= MEM_SIZE;
    hide Download, Replies, AllRequests, SaveImage, ReadImage, Overlay, ProtocolOf, WellFormed, Erased, InRanges;
    DownloadOfRadio(p, source, ack, before, rest);
    var base := Erased(before, p.erased);
    var mem := Overlay(base, source, p.ranges);
    SaveThenRead(d, ident, mem, later);
    forall a | 0 <= a < MEM_SIZE && Transferred(d, a)
      ensures ReadImage(SaveImage(d, ident, mem), later).mem[a] == source[a]
    {
      OverlayAt(base, source, p.ranges, a);
      TransferredIsStored(d, a);
    }
  }

  /** The bytes of an upload that a write run starts, and how it ends; nothing when it starts none. */
  function UploadOf(run: Restore, acks: seq<Signal>): Written
    requires run.Uploads? ==> !run.device.Ft60r? && |run.g.mem| == MEM_SIZE
  {
    if run.Exits? then Written([], Bad) else Upload(ProtocolOf(run.device), acks, run.g.mem)
  }

  lemma UploadRestores(d: Device, source: seq<byte>, image: seq<byte>, target: seq<byte>, acks: seq<Signal>)
    requires !d.Ft60r? && |source| == |image| == |target| == MEM_SIZE
    requires forall a :: 0 <= a < MEM_SIZE && Transferred(d, a) ==> image[a] == source[a]
    requires Upload(ProtocolOf(d), acks, image).end.Good?
    ensures forall a :: 0 <= a < MEM_SIZE ==>
              Stores(ProtocolOf(d), target, Upload(ProtocolOf(d), acks, image).sent)[a]
              == if Transferred(d, a) then source[a] else target[a]
  {
    var p := ProtocolOf(d);
    hide Upload, Stores, Overlay, ProtocolOf, WellFormed, InRanges;
    UploadStores(p, target, acks, image);
    forall a | 0 <= a < MEM_SIZE
      ensures Overlay(target, image, p.ranges)[a] == if Transferred(d, a) then source[a] else target[a]
    {
      OverlayAt(target, image, p.ranges, a);
    }
  }

  // ---- In numbers ----

  /** The addresses a driver transfers. */
  lemma TransferredInNumbers(d: Device, a: nat)
    requires !d.Ft60r?
    ensures Transferred(d, a) <==>
            match d
            case Uv5r => a < 0x1800 || 0x1ec0 <= a < 0x2000
            case Uv5rAged => a < 0x1800
            case UvB5 => a < 0x1000
            case _ => 0x10 <= a < 0x110 || 0x2b0 <= a < 0x2c0 || 0x3c0 <= a < 0x3e0
  {
    hide WellFormed;
    match d {
      case Uv5r => TwoRanges((0, 0x1800), (0x1ec0, 0x2000), a);
      case Uv5rAged => OneRange((0, 0x1800), a);
      case UvB5 => OneRange((0, 0x1000), a);
      case Bf888 =>
        TwoRanges((0x2b0, 0x2c0), (0x3c0, 0x3e0), a);
        assert ProtocolOf(d).ranges[1..] == [(0x2b0, 0x2c0), (0x3c0, 0x3e0)];
    }
  }

  lemma OneRange(r: (nat, nat), a: nat)
    ensures InRanges([r], a) <==> r.0 <= a < r.1
  {
    assert [r][1..] == [];
  }

  lemma TwoRanges(r: (nat, nat), q: (nat, nat), a: nat)
    ensures InRanges([r, q], a) <==> r.0 <= a < r.1 || q.0 <= a < q.1
  {
    assert [r, q][1..] == [q];
    OneRange(q, a);
  }

  /** The byte behind a block that a download accepts as its acknowledge. */
  lemma AcksInNumbers(d: Device, ack: byte)
    requires !d.Ft60r?
    ensures ack in ProtocolOf(d).readAcks <==> if d.UvB5? then ack in {0x74, 0x78, 0x1f} else ack == 0x06
  {
    hide WellFormed;
  }

  lemma HeaderInNumbers(letter: char, start: nat, n: nat)
    requires letter < 128 as char && start < 0x1_0000 && n < 256
    ensures var h := Header(letter, start, n);
            && |h| == 4 && h[0] as int == letter as int && h[3] as int == n
            && 256 * h[1] as int + h[2] as int == start
  {
    hide AsByte;
    HeaderReads(letter, start, n, [], []);
    assert Header(letter, start, n) + [] + [] == Header(letter, start, n);
  }

  /** A block is taken only from its exact header, its bytes, and an acknowledge of the driver behind them. */
  lemma FetchedWasSent(p: Protocol, input: seq<Signal>, start: nat) returns (ack: byte)
    requires WellFormed(p) && start < 0x1_0000 && ReadBlock(p, input, start).Fetched?
    ensures ack in p.readAcks
    ensures var f := ReadBlock(p, input, start);
            input == Carry(Header(p.carry, start, p.readBlock)) + Carry(f.data) + Carry([ack]) + f.rest
  {
    hide Receive, Header, Carry, RangesTile;
    var head := Receive(input, 4);
    var body := Receive(head.rest, p.readBlock);
    var last := Receive(body.rest, 1);
    ReceivedIsCarried(input, 4);
    ReceivedIsCarried(head.rest, p.readBlock);
    ReceivedIsCarried(body.rest, 1);
    ack := last.data[0];
    assert last.data == [ack];
  }

  /** The program acknowledges a block exactly when its header and all its bytes have come. */
  lemma DataArrivesExactly(p: Protocol, input: seq<Signal>, start: nat)
    requires WellFormed(p) && start < 0x1_0000
    ensures DataArrives(p, input, start) <==>
            && |input| >= 4 + p.readBlock && (forall k :: 0 <= k < 4 + p.readBlock ==> input[k].Arrives?)
            && forall k :: 0 <= k < 4 ==> input[k] == Arrives(Header(p.carry, start, p.readBlock)[k])
  {
    hide Header, RangesTile;
    ReceivesExactly(input, 4);
    if Receive(input, 4).Full? {
      var head := Receive(input, 4);
      ReceivesExactly(head.rest, p.readBlock);
      assert forall k :: 0 <= k < p.readBlock && 4 + k < |input| ==> head.rest[k] == input[4 + k];
      if |input| >= 4 + p.readBlock && forall k :: 0 <= k < 4 + p.readBlock ==> input[k].Arrives? {
        assert forall k :: 0 <= k < p.readBlock ==> head.rest[k].Arrives?;
      }
      if DataArrives(p, input, start) {
        forall k | 4 <= k < 4 + p.readBlock
          ensures input[k].Arrives?
        {
          assert head.rest[k - 4] == input[k];
        }
      }
    }
  }

  /** A block written is acknowledged by the byte 0x06, coming in time, and by nothing else. */
  lemma WriteAckInNumbers(input: seq<Signal>)
    ensures WriteAck(input) == if input != [] && input[0] == Arrives(0x06) then Good(input[1..]) else Bad
  {
    ReceivesExactly(input, 1);
  }

  /** The first request of a download, with the acknowledge sent for its block. */
  lemma FirstRequestInNumbers(d: Device)
    requires !d.Ft60r?
    ensures var sent := AllRequests(ProtocolOf(d), ProtocolOf(d).ranges);
            && |sent| >= 5 && sent[4] == 0x06
            && sent[0] as int == (if d.Uv5r? || d.Uv5rAged? then 0x53 else 0x52)
            && sent[3] as int == (if d.Uv5r? || d.Uv5rAged? then 0x40 else if d.UvB5? then 0x10 else 8)
            && 256 * sent[1] as int + sent[2] as int == if d.Bf888? then 0x10 else 0
  {
    hide Header, Tiles, RangesTile;
    var p := ProtocolOf(d);
    FirstRange(p.ranges, p.readBlock);
    var (from, to) := p.ranges[0];
    HeaderInNumbers(p.ask, from, p.readBlock);
    RequestsBegin(p, from, to);
    var first := Requests(p, from, to);
    var sent := first + AllRequests(p, p.ranges[1..]);
    assert AllRequests(p, p.ranges) == sent;
    assert sent[0] == first[0] && sent[1] == first[1] && sent[2] == first[2];
    assert sent[3] == first[3] && sent[4] == first[4];
  }

  lemma RequestsBegin(p: Protocol, from: nat, to: nat)
    requires WellFormed(p) && from < to <= MEM_SIZE && Tiles(from, to, p.readBlock)
    ensures var r, h := Requests(p, from, to), Header(p.ask, from, p.readBlock);
            |r| >= 5 && r[0] == h[0] && r[1] == h[1] && r[2] == h[2] && r[3] == h[3] && r[4] == 0x06
  {
    hide Header, RangesTile;
  }

  lemma {:induction false} RequestsLength(p: Protocol, from: nat, to: nat)
    requires WellFormed(p) && to <= MEM_SIZE && Tiles(from, to, p.readBlock)
    ensures |Requests(p, from, to)| * p.readBlock == 5 * (to - from)
    decreases Left(from, to)
  {
    hide Header, RangesTile;
    if from == to {
    } else {
      RequestsLength(p, from + p.readBlock, to);
      Distributes(|Requests(p, from + p.readBlock, to)|, p.readBlock);
    }
  }

  lemma Distributes(n: nat, block: nat)
    ensures (5 + n) * block == 5 * block + n * block
  {
  }

  function Covered(ranges: seq<(nat, nat)>): int {
    if ranges == [] then 0 else ranges[0].1 - ranges[0].0 + Covered(ranges[1..])
  }

  lemma {:induction false} AllRequestsLength(p: Protocol, ranges: seq<(nat, nat)>)
    requires WellFormed(p) && RangesTile(ranges, p.readBlock)
    ensures |AllRequests(p, ranges)| * p.readBlock == 5 * Covered(ranges)
    decreases |ranges|
  {
    hide WellFormed, Requests, Tiles, RangesTile;
    if ranges == [] {
    } else {
      FirstRange(ranges, p.readBlock);
      RequestsLength(p, ranges[0].0, ranges[0].1);
      AllRequestsLength(p, ranges[1..]);
      LengthsAdd(|Requests(p, ranges[0].0, ranges[0].1)|, |AllRequests(p, ranges[1..])|, p.readBlock);
    }
  }

  lemma LengthsAdd(n: nat, m: nat, block: nat)
    ensures (n + m) * block == n * block + m * block
  {
  }

  /** How much a whole download sends: five bytes for each of its blocks. */
  lemma RequestsInNumbers(d: Device)
    requires !d.Ft60r?
    ensures |AllRequests(ProtocolOf(d), ProtocolOf(d).ranges)|
         == match d case Uv5r => 5 * 101 case Uv5rAged => 5 * 96 case UvB5 => 5 * 256 case _ => 5 * 38
  {
    hide AllRequests, Tiles;
    var p := ProtocolOf(d);
    AllRequestsLength(p, p.ranges);
    assert Covered(p.ranges[1..]) == if d.Uv5r? then 0x140 else if d.Bf888? then 0x30 else 0;
    assert p.readBlock == if d.Uv5r? || d.Uv5rAged? then 0x40 else if d.UvB5? then 0x10 else 8;
  }

  lemma GivenBegins(p: Protocol, input: seq<Signal>, mem: seq<byte>, from: nat, to: nat)
    requires WellFormed(p) && |mem| == MEM_SIZE && from < to <= MEM_SIZE && Tiles(from, to, p.writeBlock)
    ensures from + p.writeBlock <= to
    ensures Command(p, from, mem[from..from + p.writeBlock]) <= GiveRange(p, input, mem, from, to).sent
  {
    hide Command, WriteAck, RangesTile;
    TilesOrdered(from + p.writeBlock, to, p.writeBlock);
  }

  /** The first command of an upload: a letter, an address, a length and the block itself. */
  lemma FirstCommandInNumbers(d: Device, acks: seq<Signal>, mem: seq<byte>)
    requires !d.Ft60r? && |mem| == MEM_SIZE
    ensures var sent := Upload(ProtocolOf(d), acks, mem).sent;
            var n := if d.Bf888? then 8 else 0x10;
            && |sent| >= 4 + n
            && sent[0] as int == (if d.Uv5r? || d.Uv5rAged? then 0x58 else 0x57) && sent[3] as int == n
            && 256 * sent[1] as int + sent[2] as int == (if d.Bf888? then 0x10 else 0)
            && sent[4..4 + n] == if d.Bf888? then mem[0x10..0x18] else mem[..0x10]
  {
    hide Header, Tiles, GiveRange, RangesTile;
    var p := ProtocolOf(d);
    FirstRange(p.ranges, p.writeBlock);
    var (from, to) := p.ranges[0];
    HeaderInNumbers(p.carry, from, p.writeBlock);
    GivenBegins(p, acks, mem, from, to);
    var first := GiveRange(p, acks, mem, from, to).sent;
    var sent := Upload(p, acks, mem).sent;
    assert first <= sent;
    var h, data := Header(p.carry, from, p.writeBlock), mem[from..from + p.writeBlock];
    assert (h + data)[..4] == h && (h + data)[4..] == data;
    assert sent[..4 + |data|] == h + data;
    assert sent[0] == h[0] && sent[1] == h[1] && sent[2] == h[2] && sent[3] == h[3];
    assert sent[4..4 + |data|] == sent[..4 + |data|][4..];
  }

  /** The acknowledges 0x06 that the line brings first, in time. */
  predicate Acked(input: seq<Signal>, n: nat) {
    n <= |input| && forall k :: 0 <= k < n ==> input[k] == Arrives(0x06)
  }

  lemma AckedSplits(input: seq<Signal>, n: nat, m: nat)
    ensures Acked(input, n + m) <==> Acked(input, n) && Acked(input[n..], m)
    ensures n + m <= |input| ==> input[n..][m..] == input[n + m..]
  {
    if Acked(input, n) && Acked(input[n..], m) {
      assert forall k :: n <= k < n + m ==> input[k] == input[n..][k - n];
    }
  }

  lemma {:induction false} RangeCompletes(p: Protocol, input: seq<Signal>, mem: seq<byte>, from: nat, to: nat, n: nat)
    requires WellFormed(p) && |mem| == MEM_SIZE && to <= MEM_SIZE && Tiles(from, to, p.writeBlock)
    requires n * p.writeBlock == to - from
    ensures var w := GiveRange(p, input, mem, from, to);
            && (w.end.Good? <==> Acked(input, n))
            && (w.end.Good? ==> w.end.rest == input[n..] && |w.sent| == n * (4 + p.writeBlock))
    decreases n
  {
    hide Header, RangesTile;
    WriteAckInNumbers(input);
    if n == 0 {
      assert input[0..] == input;
    } else {
      LengthsAdd(n - 1, 1, p.writeBlock);
      LengthsAdd(n - 1, 1, 4 + p.writeBlock);
      AckedSplits(input, 1, n - 1);
      if WriteAck(input).Good? {
        RangeCompletes(p, input[1..], mem, from + p.writeBlock, to, n - 1);
      }
    }
  }

  function Total(counts: seq<nat>): nat {
    if counts == [] then 0 else counts[0] + Total(counts[1..])
  }

  lemma {:induction false} RangesComplete(p: Protocol, ranges: seq<(nat, nat)>, counts: seq<nat>, input: seq<Signal>,
                                          mem: seq<byte>)
    requires WellFormed(p) && |mem| == MEM_SIZE && RangesTile(ranges, p.writeBlock) && |counts| == |ranges|
    requires forall k :: 0 <= k < |ranges| ==> counts[k] * p.writeBlock == ranges[k].1 - ranges[k].0
    ensures var w := GiveRanges(p, ranges, input, mem);
            && (w.end.Good? <==> Acked(input, Total(counts)))
            && (w.end.Good? ==> |w.sent| == Total(counts) * (4 + p.writeBlock))
    decreases |ranges|
  {
    hide WellFormed, GiveRange, Tiles, RangesTile;
    if ranges == [] {
    } else {
      FirstRange(ranges, p.writeBlock);
      RangeCompletes(p, input, mem, ranges[0].0, ranges[0].1, counts[0]);
      AckedSplits(input, counts[0], Total(counts[1..]));
      LengthsAdd(counts[0], Total(counts[1..]), 4 + p.writeBlock);
      if GiveRange(p, input, mem, ranges[0].0, ranges[0].1).end.Good? {
        RangesComplete(p, ranges[1..], counts[1..], input[counts[0]..], mem);
      }
    }
  }

  /** An upload that a write run starts completes exactly when every one of its blocks is acknowledged by 0x06 in time:
      404, 384 or 256 blocks of 16 bytes, or 38 of 8, each behind four bytes of header. */
  lemma UploadCompletes(run: Restore, acks: seq<Signal>)
    requires run.Uploads? && !run.device.Ft60r? && |run.g.mem| == MEM_SIZE
    ensures var n := match run.device case Uv5r => 404 case Uv5rAged => 384 case UvB5 => 256 case _ => 38;
            && (UploadOf(run, acks).end.Good? <==>
                n <= |acks| && forall k :: 0 <= k < n ==> acks[k] == Arrives(0x06))
            && (UploadOf(run, acks).end.Good? ==>
                  |UploadOf(run, acks).sent| == n * if run.device.Bf888? then 12 else 20)
  {
    hide GiveRanges, Tiles, RangesTile;
    var p := ProtocolOf(run.device);
    var counts: seq<nat>;
    if run.device.Uv5r? {
      counts := [384, 20];
      assert counts[1..] == [20] && [20][1..] == [];
    } else if run.device.Bf888? {
      counts := [32, 2, 4];
      assert counts[1..] == [2, 4] && [2, 4][1..] == [4] && [4][1..] == [];
    } else {
      counts := [if run.device.UvB5? then 256 else 384];
      assert counts[1..] == [];
    }
    RangesComplete(p, p.ranges, counts, acks, run.g.mem);
  }

  /** The memory after a download from a radio: its bytes at the addresses transferred, and elsewhere what was there,
      except that the BF-888S driver first fills the lowest 0x400 bytes with 0xff. */
  lemma BackupInNumbers(d: Device, source: seq<byte>, ack: byte, before: seq<byte>, rest: seq<Signal>, a: nat)
    requires !d.Ft60r? && |source| == |before| == MEM_SIZE && a < MEM_SIZE && ack in ProtocolOf(d).readAcks
    ensures var backup := Backup(d, source, ack, before, rest);
            && backup.Loaded?
            && backup.mem[a]
               == if Transferred(d, a) then source[a] else if d.Bf888? && a < 0x400 then 0xff else before[a]
  {
    var p := ProtocolOf(d);
    assert p.erased == if d.Bf888? then 0x400 else 0;
    hide Download, Replies, AllRequests, Overlay, ProtocolOf, WellFormed, InRanges;
    DownloadOfRadio(p, source, ack, before, rest);
    OverlayAt(Erased(before, p.erased), source, p.ranges, a);
  }

  // ---- A whole backup and restore ----

  /**
   * Backup from one radio and a write run on another, for all four drivers. The run starts an upload exactly when the
   * target tells the identifier in the file. A complete upload gives the target every transferred byte of the source
   * and leaves its other bytes alone; a run that starts none leaves all of them alone.
   */
  lemma BackupRestores(d: Device, source: seq<byte>, target: seq<byte>, ident: seq<byte>, ack: byte, before: seq<byte>,
                       rest: seq<Signal>, tries: seq<seq<Signal>>, later: seq<byte>, acks: seq<Signal>)
    requires !d.Ft60r? && |source| == |target| == |before| == |later| == MEM_SIZE && |ident| == IDENT_LENGTH
    requires ack in ProtocolOf(d).readAcks && |tries| == TRIES
    ensures var backup := Backup(d, source, ack, before, rest);
            && backup.Loaded?
            && var run := WriteRun(tries, SaveImage(d, ident, backup.mem), later);
            && (run.Uploads? <==> Connect(tries).Connected? && Connect(tries).ident == ident)
            && (run.Uploads? ==> run.device == d)
            && var after := Stores(ProtocolOf(d), target, UploadOf(run, acks).sent);
            && (UploadOf(run, acks).end.Good? ==>
                  forall a :: 0 <= a < MEM_SIZE ==>
                    after[a] ==
                    match d
                    case Uv5r => if a < 0x1800 || 0x1ec0 <= a < 0x2000 then source[a] else target[a]
                    case Uv5rAged => if a < 0x1800 then source[a] else target[a]
                    case UvB5 => if a < 0x1000 then source[a] else target[a]
                    case Bf888 =>
                      if 0x10 <= a < 0x110 || 0x2b0 <= a < 0x2c0 || 0x3c0 <= a < 0x3e0 then source[a] else target[a])
            && (run.Exits? ==> after == target)
  {
    hide Backup, SaveImage, ReadImage, Upload, Stores, ProtocolOf, Transferred, Connect, GuessDevice;
    TransferredSurvives(d, source, ident, ack, before, later, rest);
    var mem := Backup(d, source, ack, before, rest).mem;
    SaveSelectsDriver(d, ident, mem);
    NothingStored(ProtocolOf(d), target);
    var image := ReadImage(SaveImage(d, ident, mem), later).mem;
    if Upload(ProtocolOf(d), acks, image).end.Good? {
      UploadRestores(d, source, image, target, acks);
      forall a | 0 <= a < MEM_SIZE
        ensures Transferred(d, a) <==>
                match d
                case Uv5r => a < 0x1800 || 0x1ec0 <= a < 0x2000
                case Uv5rAged => a < 0x1800
                case UvB5 => a < 0x1000
                case _ => 0x10 <= a < 0x110 || 0x2b0 <= a < 0x2c0 || 0x3c0 <= a < 0x3e0
      {
        TransferredInNumbers(d, a);
      }
    }
  }
}

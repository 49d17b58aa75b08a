/** The transfers of the four Baofeng drivers on the memory array. */
module BaofengDriver {
  import opened Bytes
  import opened SerialLink
  import opened ImageFiles
  import opened BaofengTransfer

  lemma FetchedArrives(p: Protocol, input: seq<Signal>, start: nat)
    requires WellFormed(p) && start < 0x1_0000 && ReadBlock(p, input, start).Fetched?
    ensures DataArrives(p, input, start)
  {
  }

  class Driver {
    const mem: array<byte>

    ghost predicate Valid() {
      mem.Length == MEM_SIZE
    }

    constructor ()
      ensures Valid() && fresh(mem)
    {
      mem := new byte[MEM_SIZE](_ => 0);
    }

    /** On a memory that is there already. */
    constructor Over(mem: array<byte>)
      requires mem.Length == MEM_SIZE
      ensures Valid() && this.mem == mem
    {
      this.mem := mem;
    }

    /** read_block; false when the program halts. */
    method TakeBlock(line: Line, p: Protocol, start: nat) returns (ok: bool)
      requires Valid() && WellFormed(p) && start + p.readBlock <= MEM_SIZE
      modifies line, mem
      ensures match ReadBlock(p, old(line.input), start)
              case Halted => !ok
              case Fetched(data, rest) =>
                ok && line.input == rest && mem[..] == Splice(old(mem[..]), start, data)
      ensures line.sent == old(line.sent) + Header(p.ask, start, p.readBlock)
                         + if DataArrives(p, old(line.input), start) then [ACK] else []
    {
      hide Receive, Header, RangesTile;
      var reply := new byte[4](_ => 0);
      line.Write(Header(p.ask, start, p.readBlock));
      ok := line.Read(reply, 0, 4);
      assert reply[0..4] == reply[..];
      if !ok || reply[..] != Header(p.carry, start, p.readBlock) {
        return false;
      }
      ghost var before := mem[..];
      ok := line.Read(mem, start, p.readBlock);
      if !ok {
        return false;
      }
      ghost var data := mem[start..start + p.readBlock];
      assert mem[..] == Splice(before, start, data);
      line.Write([ACK]);
      ok := line.Read(reply, 0, 1);
      if !ok || reply[0..1][0] !in p.readAcks {
        return false;
      }
    }

    method TakeRange(line: Line, p: Protocol, from: nat, to: nat) returns (ok: bool)
      requires Valid() && WellFormed(p) && to <= MEM_SIZE && Tiles(from, to, p.readBlock)
      modifies line, mem
      ensures match FetchRange(p, old(line.input), old(mem[..]), from, to)
              case Stopped => !ok
              case Loaded(m, rest) => ok && line.input == rest && mem[..] == m
      ensures ok ==> line.sent == old(line.sent) + Requests(p, from, to)
    {
      hide ReadBlock, Splice, Header, DataArrives, RangesTile;
      TilesOrdered(from, to, p.readBlock);
      ghost var whole := FetchRange(p, line.input, mem[..], from, to);
      ghost var start := line.sent;
      var addr := from;
      while addr < to
        invariant from <= addr <= to && Tiles(addr, to, p.readBlock)
        invariant whole == FetchRange(p, line.input, mem[..], addr, to)
        invariant line.sent + Requests(p, addr, to) == start + Requests(p, from, to)
      {
        ghost var sent, input := line.sent, line.input;
        TileStep(addr, to, p.readBlock);
        TilesOrdered(addr + p.readBlock, to, p.readBlock);
        ok := TakeBlock(line, p, addr);
        if !ok {
          return;
        }
        FetchedArrives(p, input, addr);
        var next := addr + p.readBlock;
        assert sent + (Header(p.ask, addr, p.readBlock) + [ACK] + Requests(p, next, to))
            == line.sent + Requests(p, next, to);
        addr := next;
      }
      ok := true;
    }

    method TakeRanges(line: Line, p: Protocol, ranges: seq<(nat, nat)>) returns (ok: bool)
      requires Valid() && WellFormed(p) && RangesTile(ranges, p.readBlock)
      modifies line, mem
      ensures match FetchRanges(p, ranges, old(line.input), old(mem[..]))
              case Stopped => !ok
              case Loaded(m, rest) => ok && line.input == rest && mem[..] == m
      ensures ok ==> line.sent == old(line.sent) + AllRequests(p, ranges)
    {
      hide FetchRange, Requests, Tiles, RangesTile, WellFormed;
      if ranges == [] {
        return true;
      }
      FirstRange(ranges, p.readBlock);
      ok := TakeRange(line, p, ranges[0].0, ranges[0].1);
      if ok {
        ok := TakeRanges(line, p, ranges[1..]);
      }
    }

    /** The download of a driver: its ranges one after the other. */
    method Take(line: Line, p: Protocol) returns (ok: bool)
      requires Valid() && WellFormed(p)
      modifies line, mem
      ensures match Download(p, old(line.input), old(mem[..]))
              case Stopped => !ok
              case Loaded(m, rest) => ok && line.input == rest && mem[..] == m
      ensures ok ==> line.sent == old(line.sent) + AllRequests(p, p.ranges)
    {
      hide FetchRanges, AllRequests, RangesTile, Erased;
      EraseFront(p.erased);
      ok := TakeRanges(line, p, p.ranges);
    }

    method EraseFront(n: nat)
      requires Valid() && n <= MEM_SIZE
      modifies mem
      ensures mem[..] == Erased(old(mem[..]), n)
    {
      forall a | 0 <= a < n { mem[a] := 0xff; }
    }

    /** write_block. */
    method GiveBlock(line: Line, p: Protocol, start: nat) returns (ok: bool)
      requires Valid() && WellFormed(p) && start + p.writeBlock <= MEM_SIZE
      modifies line
      ensures line.sent == old(line.sent) + Command(p, start, mem[start..start + p.writeBlock])
      ensures var end := WriteAck(old(line.input));
              ok == end.Good? && (ok ==> line.input == end.rest)
    {
      hide Receive, Header, RangesTile;
      var reply := new byte[1](_ => 0);
      line.Write(Header(p.carry, start, p.writeBlock));
      line.Write(mem[start..start + p.writeBlock]);
      ok := line.Read(reply, 0, 1);
      ok := ok && reply[0..1][0] == ACK;
    }

    method GiveBlocks(line: Line, p: Protocol, from: nat, to: nat) returns (ok: bool)
      requires Valid() && WellFormed(p) && to <= MEM_SIZE && Tiles(from, to, p.writeBlock)
      modifies line
      ensures var w := GiveRange(p, old(line.input), mem[..], from, to);
              && line.sent == old(line.sent) + w.sent
              && ok == w.end.Good? && (ok ==> line.input == w.end.rest)
    {
      hide Command, WriteAck, RangesTile;
      TilesOrdered(from, to, p.writeBlock);
      ghost var start := line.sent;
      ghost var whole := GiveRange(p, line.input, mem[..], from, to);
      var addr := from;
      while addr < to
        invariant from <= addr <= to && Tiles(addr, to, p.writeBlock)
        invariant var rest := GiveRange(p, line.input, mem[..], addr, to);
                  start + whole.sent == line.sent + rest.sent && whole.end == rest.end
      {
        TileStep(addr, to, p.writeBlock);
        TilesOrdered(addr + p.writeBlock, to, p.writeBlock);
        var next := addr + p.writeBlock;
        ghost var sent := line.sent;
        ghost var rest := GiveRange(p, line.input, mem[..], addr, to);
        ok := GiveBlock(line, p, addr);
        assert mem[..][addr..next] == mem[addr..next];
        if !ok {
          return;
        }
        ghost var later := GiveRange(p, line.input, mem[..], next, to);
        assert sent + (Command(p, addr, mem[addr..next]) + later.sent) == line.sent + later.sent;
        addr := next;
      }
      assert line.sent + [] == line.sent;
      ok := true;
    }

    method GiveAll(line: Line, p: Protocol, ranges: seq<(nat, nat)>) returns (ok: bool)
      requires Valid() && WellFormed(p) && RangesTile(ranges, p.writeBlock)
      modifies line
      ensures var w := GiveRanges(p, ranges, old(line.input), mem[..]);
              && line.sent == old(line.sent) + w.sent
              && ok == w.end.Good? && (ok ==> line.input == w.end.rest)
    {
      hide GiveRange, Tiles, RangesTile, WellFormed;
      if ranges == [] {
        return true;
      }
      FirstRange(ranges, p.writeBlock);
      ok := GiveBlocks(line, p, ranges[0].0, ranges[0].1);
      if ok {
        ok := GiveAll(line, p, ranges[1..]);
      }
    }

    /** The upload of a driver: its ranges one after the other. */
    method Give(line: Line, p: Protocol) returns (ok: bool)
      requires Valid() && WellFormed(p)
      modifies line
      ensures var w := Upload(p, old(line.input), mem[..]);
              line.sent == old(line.sent) + w.sent && ok == w.end.Good?
    {
      hide GiveRanges, RangesTile;
      ok := GiveAll(line, p, p.ranges);
    }
  }
}

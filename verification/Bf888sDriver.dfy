/** BF-888S channels on the memory array. */
module Bf888sDriver {
  import opened Bytes
  import opened Bcd
  import opened Bf888sChannel
  import opened ImageFiles
  import opened SquelchSettings

  function At(i: nat): nat
    requires i < NCHAN
  {
    TABLE + RECORD * i
  }

  function ChannelAt(mem: seq<byte>, i: nat): Decoded
    requires |mem| == MEM_SIZE && i < NCHAN
  {
    DecodeRecord(mem[At(i)..At(i) + RECORD])
  }

  function WithChannel(mem: seq<byte>, i: nat, ch: Channel): (r: seq<byte>)
    requires |mem| == MEM_SIZE && i < NCHAN
    ensures |r| == MEM_SIZE
  {
    Splice(mem, At(i), Record(ch))
  }

  lemma RecordAfter(mem: seq<byte>, i: nat, j: nat, ch: Channel)
    requires |mem| == MEM_SIZE && i < NCHAN && j < NCHAN
    ensures var r := WithChannel(mem, i, ch)[At(j)..At(j) + RECORD];
            r == if j == i then Record(ch) else mem[At(j)..At(j) + RECORD]
  {
    hide Record, Splice;
    var r := WithChannel(mem, i, ch)[At(j)..At(j) + RECORD];
    forall k | 0 <= k < RECORD
      ensures r[k] == if j == i then Record(ch)[k] else mem[At(j) + k]
    {
      SpliceAt(mem, At(i), Record(ch), At(j) + k);
    }
    if j == i {
      assert r == Record(ch);
    } else {
      assert r == mem[At(j)..At(j) + RECORD];
    }
  }

  /** Setting one channel up gives that channel back, as far as its record can hold it, and leaves the others alone. */
  lemma ChannelsAfterSetup(mem: seq<byte>, i: nat, j: nat, ch: Channel)
    requires |mem| == MEM_SIZE && i < NCHAN && j < NCHAN
    ensures ChannelAt(WithChannel(mem, i, ch), j) == if j == i then DecodeRecord(Record(ch)) else ChannelAt(mem, j)
  {
    hide Record, DecodeRecord, WithChannel;
    RecordAfter(mem, i, j, ch);
  }

  /** The sixteen records begin at 0x10. */
  lemma PlacesInNumbers(mem: seq<byte>, i: nat, ch: Channel, a: nat)
    requires |mem| == MEM_SIZE && i < 16 && a < MEM_SIZE
    ensures WithChannel(mem, i, ch)[a]
         == if 0x10 + 16 * i <= a < 0x20 + 16 * i then Record(ch)[a - 0x10 - 16 * i] else mem[a]
    ensures ChannelAt(mem, i) == DecodeRecord(mem[0x10 + 16 * i..0x20 + 16 * i])
  {
    hide Record, Splice, DecodeRecord;
    SpliceAt(mem, 0x10 + 16 * i, Record(ch), a);
  }

  lemma SliceOfSlice(s: seq<byte>, from: nat, to: nat, i: nat, j: nat)
    requires from <= to <= |s| && i <= j <= to - from
    ensures s[from..to][i..j] == s[from + i..from + j]
  {
    forall k | 0 <= k < j - i
      ensures s[from..to][i..j][k] == s[from + i..from + j][k]
    {
    }
    assert s[from..to][i..j] == s[from + i..from + j];
  }

  /** The fields of a record inside the memory. */
  lemma RecordFields(mem: seq<byte>, at: nat)
    requires |mem| == MEM_SIZE && at + RECORD <= MEM_SIZE
    ensures var r := mem[at..at + RECORD];
            && r[0..4] == mem[at..at + 4] && r[4..8] == mem[at + 4..at + 8]
            && r[8..10] == mem[at + 8..at + 10] && r[10..12] == mem[at + 10..at + 12] && r[12] == mem[at + 12]
  {
    SliceOfSlice(mem, at, at + RECORD, 0, 4);
    SliceOfSlice(mem, at, at + RECORD, 4, 8);
    SliceOfSlice(mem, at, at + RECORD, 8, 10);
    SliceOfSlice(mem, at, at + RECORD, 10, 12);
  }

  class Driver {
    const mem: array<byte>

    ghost predicate Valid() {
      mem.Length == MEM_SIZE
    }

    constructor ()
      ensures Valid() && fresh(mem)
    {
      mem := new byte[MEM_SIZE](_ => 0);
    }

    /** setup_channel, for frequencies already in units of 10 Hz. */
    method SetupChannel(i: nat, ch: Channel)
      requires Valid() && i < NCHAN
      modifies mem
      ensures mem[..] == WithChannel(old(mem[..]), i, ch)
    {
      hide Splice, Word32, Word16, FlagByte, EncodeSquelch, IntToBcd;
      var at := At(i);
      ghost var before := mem[..];
      var rx, tx := Word32(IntToBcd(ch.rx) % WORD_LIMIT), Word32(IntToBcd(ch.tx) % WORD_LIMIT);
      var rxTone, txTone := Word16(EncodeSquelch(ch.rxTone)), Word16(EncodeSquelch(ch.txTone));
      var flags := [FlagByte(ch), 0xff, 0xff, 0xff];
      CopyInto(mem, at, rx);
      CopyInto(mem, at + 4, tx);
      SpliceAppend(before, at, rx, tx);
      CopyInto(mem, at + 8, rxTone);
      SpliceAppend(before, at, rx + tx, rxTone);
      CopyInto(mem, at + 10, txTone);
      SpliceAppend(before, at, rx + tx + rxTone, txTone);
      CopyInto(mem, at + 12, flags);
      SpliceAppend(before, at, rx + tx + rxTone + txTone, flags);
    }

    /** A 16-bit field, low byte first. */
    method Word16At(at: nat) returns (w: nat)
      requires Valid() && at + 2 <= MEM_SIZE
      ensures w == Read16(mem[at..at + 2])
    {
      w := mem[at] as nat;
      w := w + 0x100 * mem[at + 1] as nat;
    }

    /** A 32-bit field, low half first. */
    method Word32At(at: nat) returns (w: nat)
      requires Valid() && at + 4 <= MEM_SIZE
      ensures w == Read32(mem[at..at + 4])
    {
      hide Read16;
      assert mem[at..at + 4][..2] == mem[at..at + 2] && mem[at..at + 4][2..] == mem[at + 2..at + 4];
      var low := Word16At(at);
      var high := Word16At(at + 2);
      w := low + 0x1_0000 * high;
    }

    /** decode_squelch, on top of two results that start at 0. */
    method SplitSquelch(w: nat) returns (ctcs: int, dcs: int)
      ensures Squelch(ctcs, dcs) == DecodeSquelch(w)
    {
      ctcs, dcs := 0, 0;
      if w == 0 || w == 0xffff {
        return;
      }
      var index := w / 0x1000 % 16 * 1000;
      index := index + w / 0x100 % 16 * 100;
      index := index + w / 0x10 % 16 * 10;
      index := index + w % 16;
      if index < 8000 {
        ctcs := index;
        return;
      }
      if index < 12000 {
        dcs := index - 8000;
      } else {
        dcs := -(index - 12000);
      }
    }

    /** decode_channel: every result on its own; the numbers of a channel that is not in use are all 0. */
    method DecodeChannel(i: nat)
      returns (rxHz: nat, txHz: nat, rxCtcs: int, txCtcs: int, rxDcs: int, txDcs: int,
               lowPower: bool, wide: bool, scan: bool, bcl: bool, scramble: bool)
      requires Valid() && i < NCHAN
      ensures match ChannelAt(mem[..], i)
              case Disabled => rxHz == txHz == 0 && rxCtcs == txCtcs == rxDcs == txDcs == 0
              case Enabled(v) =>
                && v.rxHz == rxHz && v.txHz == txHz
                && v.rxSquelch == Squelch(rxCtcs, rxDcs) && v.txSquelch == Squelch(txCtcs, txDcs)
                && v.lowPower == lowPower && v.wide == wide && v.scan == scan && v.bcl == bcl && v.scramble == scramble
    {
      hide Read32, Read16, BcdToInt, DecodeSquelch, BitSet;
      rxHz, txHz, rxCtcs, txCtcs, rxDcs, txDcs := 0, 0, 0, 0, 0, 0;
      lowPower, wide, scan, bcl, scramble := false, false, false, false, false;
      var at := At(i);
      RecordFields(mem[..], at);
      assert mem[..][at + 12] == mem[at + 12];
      var rx := Word32At(at);
      assert mem[..][at..at + 4] == mem[at..at + 4];
      if rx == 0 || rx == 0xffff_ffff {
        return;
      }
      rxHz := BcdToInt(rx) * 10;
      var tx := Word32At(at + 4);
      txHz := BcdToInt(tx) * 10;
      var rxTone := Word16At(at + 8);
      rxCtcs, rxDcs := SplitSquelch(rxTone);
      var txTone := Word16At(at + 10);
      txCtcs, txDcs := SplitSquelch(txTone);
      assert mem[..][at + 4..at + 8] == mem[at + 4..at + 8];
      assert mem[..][at + 8..at + 10] == mem[at + 8..at + 10] && mem[..][at + 10..at + 12] == mem[at + 10..at + 12];
      var flags := mem[at + 12];
      lowPower := !BitSet(flags, 3);
      wide := !BitSet(flags, 2);
      scan := !BitSet(flags, 4);
      bcl := !BitSet(flags, 0);
      scramble := !BitSet(flags, 1);
    }
  }
}

/** A serial line as the programs see it: bytes and silences coming in, bytes going out. */
module SerialLink {
  import opened Bytes

  /** What every radio and program of the repository answers to a block it took. */
  const ACK: byte := 0x06

  /** One event on the line: a byte arrives, or nothing does for longer than the read timeout. */
  datatype Signal = Arrives(b: byte) | Silence

  /** What serial_read returns: all bytes, or 0 after a silence. A line whose events are over is silent for ever. */
  datatype Received = Full(data: seq<byte>, rest: seq<Signal>) | TimedOut(rest: seq<Signal>)

  function Receive(input: seq<Signal>, n: nat): (r: Received)
    ensures r.Full? ==> |r.data| == n && |r.rest| == |input| - n
    ensures r.TimedOut? ==> |r.rest| < |input| || (input == [] && r.rest == [])
  {
    if n == 0 then Full([], input)
    else if input == [] then TimedOut([])
    else if input[0].Silence? then TimedOut(input[1..])
    else
      match Receive(input[1..], n - 1)
      case Full(data, rest) => Full([input[0].b] + data, rest)
      case TimedOut(rest) => TimedOut(rest)
  }

  /** A read is full exactly when that many bytes come in time; it takes them in order and no more. */
  lemma {:induction false} ReceivesExactly(input: seq<Signal>, n: nat)
    ensures Receive(input, n).Full? <==> n <= |input| && forall k :: 0 <= k < n ==> input[k].Arrives?
    ensures Receive(input, n).Full? ==>
              Receive(input, n).rest == input[n..]
              && forall k :: 0 <= k < n ==> input[k] == Arrives(Receive(input, n).data[k])
  {
    if n == 0 {
      assert input[0..] == input;
    } else if input == [] || input[0].Silence? {
    } else {
      ReceivesExactly(input[1..], n - 1);
      assert forall k :: 1 <= k < n && k < |input| ==> input[1..][k - 1] == input[k];
      if n <= |input| {
        assert input[1..][n - 1..] == input[n..];
      }
    }
  }

  /** Whether a read gets all its bytes, and where it stops. */
  ghost function Stops(input: seq<Signal>, n: nat): (bool, seq<Signal>) {
    (Receive(input, n).Full?, Receive(input, n).rest)
  }

  lemma StopsIs(input: seq<Signal>, n: nat)
    ensures Stops(input, n) == (Receive(input, n).Full?, Receive(input, n).rest)
  {
  }

  lemma StopsNext(input: seq<Signal>, n: nat)
    ensures n > 0 && input != [] && input[0].Arrives? ==> Stops(input, n) == Stops(input[1..], n - 1)
    ensures n == 0 ==> Stops(input, n) == (true, input)
    ensures n > 0 && input == [] ==> Stops(input, n) == (false, [])
    ensures n > 0 && input != [] && input[0].Silence? ==> Stops(input, n) == (false, input[1..])
  {
  }

  /** The bytes of a block, arriving without a silence. */
  function Carry(data: seq<byte>): (s: seq<Signal>)
    ensures |s| == |data|
  {
    seq(|data|, k requires 0 <= k < |data| => Arrives(data[k]))
  }

  lemma {:induction false} ReceiveCarried(data: seq<byte>, rest: seq<Signal>)
    ensures Receive(Carry(data) + rest, |data|) == Full(data, rest)
  {
    var input := Carry(data) + rest;
    if data == [] {
      assert input == rest;
    } else {
      ReceiveCarried(data[1..], rest);
      assert input[1..] == Carry(data[1..]) + rest;
      assert [data[0]] + data[1..] == data;
    }
  }

  /** The other way round: what a read has taken was carried in front of what is left. */
  lemma {:induction false} ReceivedIsCarried(input: seq<Signal>, n: nat)
    requires Receive(input, n).Full?
    ensures input == Carry(Receive(input, n).data) + Receive(input, n).rest
  {
    if n == 0 {
      assert input == Carry([]) + input;
    } else {
      ReceivedIsCarried(input[1..], n - 1);
      var r := Receive(input[1..], n - 1);
      assert Carry([input[0].b] + r.data) == [input[0]] + Carry(r.data);
    }
  }

  /** What a read leaves in its buffer, in full or not: the bytes that came before a silence lie over the old ones. */
  function Landed(buf: seq<byte>, input: seq<Signal>): (after: seq<byte>)
    ensures |after| == |buf|
  {
    if buf == [] || input == [] || input[0].Silence? then buf
    else [input[0].b] + Landed(buf[1..], input[1..])
  }

  lemma {:induction false} LandedInFull(buf: seq<byte>, input: seq<Signal>)
    requires Receive(input, |buf|).Full?
    ensures Landed(buf, input) == Receive(input, |buf|).data
  {
    if buf == [] {
      assert Landed(buf, input) == [];
    } else {
      LandedInFull(buf[1..], input[1..]);
    }
  }

  /** One more byte of a read under way. */
  lemma LandedNext(got: seq<byte>, left: seq<byte>, input: seq<Signal>)
    ensures left == [] || input == [] || input[0].Silence? ==> Landed(left, input) == left
    ensures left != [] && input != [] && input[0].Arrives? ==>
              got + Landed(left, input) == got + [input[0].b] + Landed(left[1..], input[1..])
  {
  }

  /** How a sender sees the answer to a block. */
  datatype Ack = Good(rest: seq<Signal>) | Bad

  /** What a run of blocks puts on the line, and how it ends. */
  datatype Written = Written(sent: seq<byte>, end: Ack)

  /** The line: what is still to come and what was sent. */
  class Line {
    var input: seq<Signal>
    var sent: seq<byte>

    constructor (script: seq<Signal>)
      ensures input == script && sent == []
    {
      input, sent := script, [];
    }

    /** serial_write. */
    method Write(data: seq<byte>)
      modifies this
      ensures sent == old(sent) + data && input == old(input)
    {
      sent := sent + data;
    }

    /** serial_read into a buffer; after a silence the buffer holds the part of the data that came. */
    method Read(buf: array<byte>, at: nat, n: nat) returns (all: bool)
      requires at + n <= buf.Length
      modifies this, buf
      ensures sent == old(sent)
      ensures var r := Receive(old(input), n);
              all == r.Full? && input == r.rest && (all ==> buf[at..at + n] == r.data)
      ensures buf[at..at + n] == Landed(old(buf[at..at + n]), old(input))
      ensures forall a :: 0 <= a < buf.Length && !(at <= a < at + n) ==> buf[a] == old(buf[a])
    {
      hide Receive, Landed, Stops;
      ghost var whole, before := input, buf[at..at + n];
      ghost var got: seq<byte> := [];
      var k := 0;
      all := true;
      while k < n && all
        invariant k <= n && sent == old(sent) && |got| == k
        invariant forall a :: 0 <= a < buf.Length && !(at <= a < at + k) ==> buf[a] == old(buf[a])
        invariant forall j :: 0 <= j < k ==> buf[at + j] == got[j]
        invariant Stops(whole, n) == if all then Stops(input, n - k) else (false, input)
        invariant Landed(before, whole) == got + if all then Landed(before[k..], input) else before[k..]
        decreases n - k, all
      {
        StopsNext(input, n - k);
        LandedNext(got, before[k..], input);
        if input == [] {
          all := false;
        } else if input[0].Silence? {
          input := input[1..];
          all := false;
        } else {
          buf[at + k] := input[0].b;
          got := got + [input[0].b];
          input := input[1..];
          k := k + 1;
        }
      }
      StopsNext(input, n - k);
      LandedNext(got, before[k..], input);
      ghost var landed := got + before[k..];
      forall j | 0 <= j < n
        ensures buf[at + j] == landed[j]
      {
        assert j >= k ==> before[k..][j - k] == before[j];
      }
      assert buf[at..at + n] == landed;
      StopsIs(whole, n);
      if all {
        LandedInFull(before, whole);
      }
    }
  }
}

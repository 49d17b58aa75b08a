/** The watchdog's challenge: a 32-bit number is sent, and the answer must be two CRCs of its bytes. */
module FlyAvr {
  import opened Bytes
  import opened Words
  import opened Crc
  import CrcErrors
  import opened CrcInvariants

  const CRC_TRY_COUNT := 5
  const CMD_GET_CRC1: byte := 0x20

  type Quad = b: seq<byte> | |b| == 4 witness [0, 0, 0, 0]

  // ---- 32-bit numbers in buffers ----

  function ByteOf(num: bv32, k: nat): byte
    requires k < 4
  {
    match k
    case 0 => (num & 0xff) as byte
    case 1 => ((num >> 8) & 0xff) as byte
    case 2 => ((num >> 16) & 0xff) as byte
    case 3 => ((num >> 24) & 0xff) as byte
  }

  function Join4(a: byte, b: byte, c: byte, d: byte): bv32 {
    (a as bv32) | (b as bv32 << 8) | (c as bv32 << 16) | (d as bv32 << 24)
  }

  /** What u32to_buf stores, and what u32from_buf reads. */
  function Split(num: bv32): Quad {
    [ByteOf(num, 0), ByteOf(num, 1), ByteOf(num, 2), ByteOf(num, 3)]
  }

  function Join(b: Quad): bv32 {
    Join4(b[0], b[1], b[2], b[3])
  }

  lemma JoinOfBytes(num: bv32)
    ensures Join4(ByteOf(num, 0), ByteOf(num, 1), ByteOf(num, 2), ByteOf(num, 3)) == num
  {
  }

  lemma JoinOfSplit(num: bv32)
    ensures Join(Split(num)) == num
  {
    hide Join4, ByteOf;
    JoinOfBytes(num);
  }

  lemma ByteOfJoin(a: byte, b: byte, c: byte, d: byte)
    ensures ByteOf(Join4(a, b, c, d), 0) == a && ByteOf(Join4(a, b, c, d), 1) == b
    ensures ByteOf(Join4(a, b, c, d), 2) == c && ByteOf(Join4(a, b, c, d), 3) == d
  {
  }

  lemma SplitOfJoin(b: Quad)
    ensures Split(Join(b)) == b
  {
    hide Join4, ByteOf;
    ByteOfJoin(b[0], b[1], b[2], b[3]);
  }

  method U32ToBuf(num: bv32, buf: array<byte>, at: nat)
    requires at + 4 <= buf.Length
    modifies buf
    ensures buf[..] == old(buf[..at]) + Split(num) + old(buf[at + 4..])
  {
    hide ByteOf;
    buf[at] := ByteOf(num, 0);
    buf[at + 1] := ByteOf(num, 1);
    buf[at + 2] := ByteOf(num, 2);
    buf[at + 3] := ByteOf(num, 3);
  }

  // ---- The answer ----

  /** How each byte of the challenge is disguised. */
  function Mask0(b: byte): byte { b ^ 0x55 }

  function Mask1(b: byte): byte { !b }

  function Mask3(b: byte): byte { b ^ 0x66 }

  function FirstCrc(b: Quad): word {
    XmodemMessage(0, [Mask0(b[0]), Mask1(b[1])])
  }

  function SecondCrc(b: Quad): word {
    CcittMessage(FirstCrc(b), [Mask3(b[3])])
  }

  /** The two values interleaved, low bytes first. */
  function Answer(b: Quad): Quad {
    [Lo8(FirstCrc(b)), Lo8(SecondCrc(b)), Hi8(FirstCrc(b)), Hi8(SecondCrc(b))]
  }

  /** crc1: the value computed from byte 2 is overwritten before it is used. */
  method Crc1(buf: array<byte>)
    requires buf.Length == 4
    modifies buf
    ensures buf[..] == Answer(old(buf[..]))
  {
    hide Xmodem, Ccitt, Mask0, Mask1, Mask3, Lo8, Hi8;
    ghost var b := buf[..];
    var xmodem := XmodemUpdate(0, Mask0(buf[0]));
    xmodem := XmodemUpdate(xmodem, Mask1(buf[1]));
    var ccitt := CcittUpdate(xmodem, Mask1(buf[2]));
    ccitt := CcittUpdate(xmodem, Mask3(buf[3]));
    MessageOfTwo(Mask0(b[0]), Mask1(b[1]));
    MessageOfOne(xmodem, Mask3(b[3]));
    buf[0] := Lo8(xmodem);
    buf[1] := Lo8(ccitt);
    buf[2] := Hi8(xmodem);
    buf[3] := Hi8(ccitt);
  }

  lemma MessageOfTwo(a: byte, b: byte)
    ensures XmodemMessage(0, [a, b]) == Xmodem(Xmodem(0, a), b)
  {
    hide Xmodem;
    XmodemTwoMore(0, [], a, b);
    assert [] + [a, b] == [a, b];
  }

  lemma MessageOfOne(state: word, a: byte)
    ensures CcittMessage(state, [a]) == Ccitt(state, a)
  {
    hide Ccitt;
    assert [a][..0] == [];
  }

  lemma HalvesDecide(v: word, w: word)
    requires Lo8(v) == Lo8(w) && Hi8(v) == Hi8(w)
    ensures v == w
  {
  }

  lemma MasksInjective(a: byte, b: byte)
    ensures Mask0(a) == Mask0(b) <==> a == b
    ensures Mask1(a) == Mask1(b) <==> a == b
    ensures Mask3(a) == Mask3(b) <==> a == b
  {
  }

  lemma FirstDecides(x: Quad, y: Quad)
    ensures FirstCrc(x) == FirstCrc(y) <==> x[0] == y[0] && x[1] == y[1]
  {
    hide XmodemMessage, Mask0, Mask1, CcittMessage;
    var m, n := [Mask0(x[0]), Mask1(x[1])], [Mask0(y[0]), Mask1(y[1])];
    CrcErrors.TwoBytesDetected(0, m, n, 0);
    MasksInjective(x[0], y[0]);
    MasksInjective(x[1], y[1]);
    assert m == n <==> m[0] == n[0] && m[1] == n[1];
  }

  lemma SecondDecides(state: word, a: byte, b: byte)
    ensures CcittMessage(state, [Mask3(a)]) == CcittMessage(state, [Mask3(b)]) <==> a == b
  {
    hide XmodemMessage, CcittMessage, Mask3;
    var m, n := [Mask3(a)], [Mask3(b)];
    CrcErrors.TwoBytesDetected(state, m, n, 0);
    MasksInjective(a, b);
    assert m == n <==> m[0] == n[0];
  }

  /** Two challenges have one answer exactly when they agree on bytes 0, 1 and 3. */
  lemma AnswersAgree(x: Quad, y: Quad)
    ensures Answer(x) == Answer(y) <==> x[0] == y[0] && x[1] == y[1] && x[3] == y[3]
  {
    hide FirstCrc, Lo8, Hi8, CcittMessage, Mask3;
    FirstDecides(x, y);
    SecondDecides(FirstCrc(x), x[3], y[3]);
    if Answer(x) == Answer(y) {
      assert Answer(x)[0] == Answer(y)[0] && Answer(x)[1] == Answer(y)[1];
      assert Answer(x)[2] == Answer(y)[2] && Answer(x)[3] == Answer(y)[3];
      HalvesDecide(FirstCrc(x), FirstCrc(y));
      HalvesDecide(SecondCrc(x), SecondCrc(y));
    }
  }

  // ---- The exchange and the timer ----

  /** What the bus does with one request. A failed transfer leaves the receive buffer as it was. */
  datatype Reply = Silent | Answered(bytes: Quad)

  function Received(before: Quad, reply: Reply): Quad {
    if reply.Answered? then reply.bytes else before
  }

  predicate Accepts(received: Quad, num: bv32) {
    received == Answer(Split(num))
  }

  /** Failures in a row, and whether the driver has already stopped the machine. */
  datatype Watch = Watch(failures: nat, panicked: bool)

  function Fire(w: Watch, ok: bool): Watch {
    if w.panicked then w
    else
      var failures := if ok then 0 else w.failures + 1;
      Watch(failures, failures >= CRC_TRY_COUNT)
  }

  function FireAll(results: seq<bool>): Watch {
    if results == [] then Watch(0, false) else Fire(FireAll(results[..|results| - 1]), results[|results| - 1])
  }

  /** Five failures in a row, ending at `i`. */
  predicate FiveFailures(results: seq<bool>, i: int) {
    CRC_TRY_COUNT <= i <= |results| && forall k :: i - CRC_TRY_COUNT <= k < i ==> !results[k]
  }

  lemma FailureInside(results: seq<bool>, i: int)
    requires FiveFailures(results, i)
    ensures exists k :: 0 <= k < |results| && !results[k]
  {
    assert !results[i - 1];
  }

  /** While the machine runs, the counter is the length of the last run of failures. */
  predicate CountsTail(results: seq<bool>, failures: nat) {
    && failures <= |results|
    && (forall k :: |results| - failures <= k < |results| ==> !results[k])
    && (failures < |results| ==> results[|results| - failures - 1])
  }

  lemma TailStops(results: seq<bool>, failures: nat, i: int)
    requires CountsTail(results, failures) && failures < CRC_TRY_COUNT
    ensures i == |results| ==> !FiveFailures(results, i)
  {
    if i == |results| >= CRC_TRY_COUNT {
      assert results[i - failures - 1];
    }
  }

  lemma {:induction false} CounterIsTail(results: seq<bool>)
    ensures var w := FireAll(results); !w.panicked ==> CountsTail(results, w.failures) && w.failures < CRC_TRY_COUNT
  {
    if results == [] {
    } else {
      CounterIsTail(results[..|results| - 1]);
    }
  }

  /** The machine is stopped exactly when five checks in a row have failed. */
  lemma {:induction false} PanicIffFiveInARow(results: seq<bool>)
    ensures FireAll(results).panicked <==> exists i :: FiveFailures(results, i)
  {
    if results != [] {
      var n := |results| - 1;
      var before := FireAll(results[..n]);
      PanicIffFiveInARow(results[..n]);
      CounterIsTail(results[..n]);
      if before.panicked {
        var i :| FiveFailures(results[..n], i);
        assert FiveFailures(results, i);
      } else if FireAll(results).panicked {
        assert FiveFailures(results, n + 1);
      } else {
        CounterIsTail(results);
        forall i
          ensures !FiveFailures(results, i)
        {
          if FiveFailures(results, i) {
            if i <= n {
              assert FiveFailures(results[..n], i);
            } else {
              TailStops(results, FireAll(results).failures, i);
            }
          }
        }
      }
    } else {
      forall i
        ensures !FiveFailures(results, i)
      {
      }
    }
  }

  class Watchdog {
    const send: array<byte>
    const recv: array<byte>
    var failCounter: nat
    var panicked: bool

    predicate Valid()
      reads this, send, recv
    {
      send.Length == 16 && recv.Length == 16 && send != recv
    }

    function View(): Watch
      reads this
    {
      Watch(failCounter, panicked)
    }

    constructor ()
      ensures Valid() && fresh(send) && fresh(recv)
      ensures View() == Watch(0, false)
    {
      send := new byte[16](_ => 0);
      recv := new byte[16](_ => 0);
      failCounter, panicked := 0, false;
    }

    method SendReceive(reply: Reply)
      requires Valid()
      modifies recv
      ensures Valid()
      ensures recv[..] == Received(old(recv[..4]), reply) + old(recv[4..])
    {
      if reply.Answered? {
        recv[0], recv[1], recv[2], recv[3] := reply.bytes[0], reply.bytes[1], reply.bytes[2], reply.bytes[3];
      }
    }

    /** get_crc1. */
    method GetCrc1(num: bv32, reply: Reply) returns (ok: bool)
      requires Valid()
      modifies send, recv
      ensures Valid()
      ensures send[..] == [CMD_GET_CRC1] + Split(num) + old(send[5..])
      ensures recv[..] == Received(old(recv[..4]), reply) + old(recv[4..])
      ensures ok == Accepts(Received(old(recv[..4]), reply), num)
    {
      hide Split, Join, Answer;
      send[0] := CMD_GET_CRC1;
      U32ToBuf(num, send, 1);
      assert send[..] == [CMD_GET_CRC1] + Split(num) + old(send[5..]);
      SendReceive(reply);
      var flyavr := Join(recv[..4]);
      var buf := new byte[4](_ => 0);
      U32ToBuf(num, buf, 0);
      assert buf[..] == Split(num);
      Crc1(buf);
      var computed := Join(buf[..4]);
      assert buf[..4] == buf[..];
      SplitOfJoin(recv[..4]);
      SplitOfJoin(buf[..]);
      assert recv[..4] == Received(old(recv[..4]), reply);
      ok := computed == flyavr;
    }

    /** flyavr_timer_func; `num` is the random challenge. */
    method TimerFunc(num: bv32, reply: Reply)
      requires Valid() && !panicked
      modifies this`failCounter, this`panicked, send, recv
      ensures Valid()
      ensures recv[..] == Received(old(recv[..4]), reply) + old(recv[4..])
      ensures View() == Fire(old(View()), Accepts(Received(old(recv[..4]), reply), num))
    {
      var ok := GetCrc1(num, reply);
      if !ok {
        failCounter := failCounter + 1;
      } else {
        failCounter := 0;
      }
      if failCounter >= CRC_TRY_COUNT {
        panicked := true;
      }
    }
  }

  // ---- Whole runs ----

  datatype Round = Round(num: bv32, reply: Reply)

  /** What the receive buffer holds after some rounds. */
  function Buffer(start: Quad, rounds: seq<Round>): Quad {
    if rounds == [] then start
    else Received(Buffer(start, rounds[..|rounds| - 1]), rounds[|rounds| - 1].reply)
  }

  function Results(start: Quad, rounds: seq<Round>): (r: seq<bool>)
    ensures |r| == |rounds|
  {
    if rounds == [] then []
    else
      var n := |rounds| - 1;
      Results(start, rounds[..n]) + [Accepts(Buffer(start, rounds), rounds[n].num)]
  }

  lemma {:induction false} HonestPass(start: Quad, rounds: seq<Round>)
    requires forall k :: 0 <= k < |rounds| ==> rounds[k].reply == Answered(Answer(Split(rounds[k].num)))
    ensures forall k :: 0 <= k < |rounds| ==> Results(start, rounds)[k]
  {
    hide Answer, Split;
    if rounds == [] {
    } else {
      HonestPass(start, rounds[..|rounds| - 1]);
    }
  }

  /** A device that computes the answer is never given up on. */
  lemma HonestDeviceLives(start: Quad, rounds: seq<Round>)
    requires forall k :: 0 <= k < |rounds| ==> rounds[k].reply == Answered(Answer(Split(rounds[k].num)))
    ensures !FireAll(Results(start, rounds)).panicked
  {
    hide Answer, Split;
    var results := Results(start, rounds);
    HonestPass(start, rounds);
    PanicIffFiveInARow(results);
    forall i
      ensures !FiveFailures(results, i)
    {
      if FiveFailures(results, i) {
        FailureInside(results, i);
      }
    }
  }

  /** A bus gone silent leaves the last answer in the buffer: a later challenge still passes exactly when it agrees
      with the answered one on bytes 0, 1 and 3. */
  lemma {:induction false} SilentDevice(num: bv32, rounds: seq<Round>)
    requires forall k :: 0 <= k < |rounds| ==> rounds[k].reply == Silent
    ensures var start := Answer(Split(num));
            && Buffer(start, rounds) == start
            && forall k :: 0 <= k < |rounds| ==>
                 var x, y := Split(num), Split(rounds[k].num);
                 Results(start, rounds)[k] <==> x[0] == y[0] && x[1] == y[1] && x[3] == y[3]
  {
    hide Answer, Split;
    if rounds == [] {
    } else {
      var n := |rounds| - 1;
      SilentDevice(num, rounds[..n]);
      AnswersAgree(Split(num), Split(rounds[n].num));
    }
  }

  // ---- In numbers ----

  /** The answer to a challenge: the one CRC over its first two bytes, disguised, the other carried on over the last;
      the low bytes of both, and then the high bytes. */
  lemma AnswerInNumbers(b: Quad)
    ensures var x := Xmodem(Xmodem(0, b[0] ^ 0x55), !b[1]);
            var c := Ccitt(x, b[3] ^ 0x66);
            Answer(b) == [(x & 0xff) as byte, (c & 0xff) as byte, (x >> 8) as byte, (c >> 8) as byte]
  {
    hide Xmodem, Ccitt;
    MessageOfTwo(Mask0(b[0]), Mask1(b[1]));
    MessageOfOne(FirstCrc(b), Mask3(b[3]));
  }

  /** Numbers travel low byte first, behind the command byte. */
  lemma RequestInNumbers(num: bv32)
    ensures [CMD_GET_CRC1] + Split(num)
         == [0x20, (num & 0xff) as byte, ((num >> 8) & 0xff) as byte, ((num >> 16) & 0xff) as byte, (num >> 24) as byte]
  {
    TopByte(num);
  }

  lemma TopByte(num: bv32)
    ensures (num >> 24) & 0xff == num >> 24
  {
  }

  /** Four failures in a row are borne, the fifth stops the machine, and a success starts the count again. */
  lemma PanicInNumbers(w: Watch, ok: bool)
    requires !w.panicked
    ensures Fire(w, true) == Watch(0, false)
    ensures Fire(w, false) == Watch(w.failures + 1, w.failures >= 4)
  {
  }

  lemma FiveInNumbers(results: seq<bool>, i: int)
    ensures FiveFailures(results, i) <==>
            && 5 <= i <= |results|
            && !results[i - 5] && !results[i - 4] && !results[i - 3] && !results[i - 2] && !results[i - 1]
  {
  }
}

/** The two CRC-16 updates of the watchdog driver, over single bytes and over messages of any length. */
module Crc {
  import opened Bytes
  import opened Words

  // ---- The bit loops ----

  /** One step of the bit loop: shift out the top bit, and fold 0x1021 in when it was set. */
  function XmodemBit(crc: word): word {
    if crc & 0x8000 != 0 then (crc << 1) ^ 0x1021 else crc << 1
  }

  function XmodemBits(crc: word, n: nat): word {
    if n == 0 then crc else XmodemBit(XmodemBits(crc, n - 1))
  }

  function Xmodem(crc: word, data: byte): word {
    XmodemBits(crc ^ (data as word << 8), 8)
  }

  /** The reflected update as a reference: eight steps from the low end with the polynomial 0x8408. */
  function CcittBit(crc: word): word {
    if crc & 1 != 0 then (crc >> 1) ^ 0x8408 else crc >> 1
  }

  function CcittBits(crc: word, n: nat): word {
    if n == 0 then crc else CcittBit(CcittBits(crc, n - 1))
  }

  function Ccitt(crc: word, data: byte): word {
    CcittBits(crc ^ (data as word), 8)
  }

  // ---- The same steps without branches: one, two and four at a time ----
  //
  // Facts about particular bits are stated on the bit operations alone, with a name for every intermediate
  // word; the lemmas that put them together see the functions by name only.

  function X1(x: word): word { (x << 1) ^ ((x & 0x8000) >> 15) ^ ((x & 0x8000) >> 10) ^ ((x & 0x8000) >> 3) }

  function X2(x: word): word { (x << 2) ^ ((x & 0xc000) >> 14) ^ ((x & 0xc000) >> 9) ^ ((x & 0xc000) >> 2) }

  function X4(x: word): word { (x << 4) ^ ((x & 0xf000) >> 12) ^ ((x & 0xf000) >> 7) ^ (x & 0xf000) }

  function C1(x: word): word { (x >> 1) ^ ((x & 1) << 15) ^ ((x & 1) << 10) ^ ((x & 1) << 3) }

  function C2(x: word): word { (x >> 2) ^ ((x & 3) << 14) ^ ((x & 3) << 9) ^ ((x & 3) << 2) }

  function C4(x: word): word { (x >> 4) ^ ((x & 15) << 12) ^ ((x & 15) << 7) ^ (x & 15) }

  lemma X1Is(x: word) ensures X1(x) == (x << 1) ^ ((x & 0x8000) >> 15) ^ ((x & 0x8000) >> 10) ^ ((x & 0x8000) >> 3) {}

  lemma X2Is(x: word) ensures X2(x) == (x << 2) ^ ((x & 0xc000) >> 14) ^ ((x & 0xc000) >> 9) ^ ((x & 0xc000) >> 2) {}

  lemma X4Is(x: word) ensures X4(x) == (x << 4) ^ ((x & 0xf000) >> 12) ^ ((x & 0xf000) >> 7) ^ (x & 0xf000) {}

  lemma C1Is(x: word) ensures C1(x) == (x >> 1) ^ ((x & 1) << 15) ^ ((x & 1) << 10) ^ ((x & 1) << 3) {}

  lemma C2Is(x: word) ensures C2(x) == (x >> 2) ^ ((x & 3) << 14) ^ ((x & 3) << 9) ^ ((x & 3) << 2) {}

  lemma C4Is(x: word) ensures C4(x) == (x >> 4) ^ ((x & 15) << 12) ^ ((x & 15) << 7) ^ (x & 15) {}

  lemma XmodemBitSet(x: word)
    requires x & 0x8000 != 0
    ensures (x << 1) ^ 0x1021 == X1(x)
  {
  }

  lemma XmodemBitClear(x: word)
    requires x & 0x8000 == 0
    ensures x << 1 == X1(x)
  {
  }

  lemma XmodemBitIs(x: word)
    ensures XmodemBit(x) == X1(x)
  {
    if x & 0x8000 != 0 { XmodemBitSet(x); } else { XmodemBitClear(x); }
  }

  lemma CcittBitSet(x: word)
    requires x & 1 != 0
    ensures (x >> 1) ^ 0x8408 == C1(x)
  {
  }

  lemma CcittBitClear(x: word)
    requires x & 1 == 0
    ensures x >> 1 == C1(x)
  {
  }

  lemma CcittBitIs(x: word)
    ensures CcittBit(x) == C1(x)
  {
    if x & 1 != 0 { CcittBitSet(x); } else { CcittBitClear(x); }
  }

  lemma XmodemTwoBits(x: word, y: word, z: word, w: word)
    requires y == (x << 1) ^ ((x & 0x8000) >> 15) ^ ((x & 0x8000) >> 10) ^ ((x & 0x8000) >> 3)
    requires z == (y << 1) ^ ((y & 0x8000) >> 15) ^ ((y & 0x8000) >> 10) ^ ((y & 0x8000) >> 3)
    requires w == (x << 2) ^ ((x & 0xc000) >> 14) ^ ((x & 0xc000) >> 9) ^ ((x & 0xc000) >> 2)
    ensures z == w
  {
  }

  lemma XmodemTwo(x: word)
    ensures X1(X1(x)) == X2(x)
  {
    hide X1, X2;
    var y := X1(x);
    X1Is(x);
    X1Is(y);
    X2Is(x);
    XmodemTwoBits(x, y, X1(y), X2(x));
  }

  lemma XmodemFourBits(x: word, y: word, z: word, w: word)
    requires y == (x << 2) ^ ((x & 0xc000) >> 14) ^ ((x & 0xc000) >> 9) ^ ((x & 0xc000) >> 2)
    requires z == (y << 2) ^ ((y & 0xc000) >> 14) ^ ((y & 0xc000) >> 9) ^ ((y & 0xc000) >> 2)
    requires w == (x << 4) ^ ((x & 0xf000) >> 12) ^ ((x & 0xf000) >> 7) ^ (x & 0xf000)
    ensures z == w
  {
  }

  lemma XmodemFour(x: word)
    ensures X2(X2(x)) == X4(x)
  {
    hide X2, X4;
    var y := X2(x);
    X2Is(x);
    X2Is(y);
    X4Is(x);
    XmodemFourBits(x, y, X2(y), X4(x));
  }

  lemma CcittTwoBits(x: word, y: word, z: word, w: word)
    requires y == (x >> 1) ^ ((x & 1) << 15) ^ ((x & 1) << 10) ^ ((x & 1) << 3)
    requires z == (y >> 1) ^ ((y & 1) << 15) ^ ((y & 1) << 10) ^ ((y & 1) << 3)
    requires w == (x >> 2) ^ ((x & 3) << 14) ^ ((x & 3) << 9) ^ ((x & 3) << 2)
    ensures z == w
  {
  }

  lemma CcittTwo(x: word)
    ensures C1(C1(x)) == C2(x)
  {
    hide C1, C2;
    var y := C1(x);
    C1Is(x);
    C1Is(y);
    C2Is(x);
    CcittTwoBits(x, y, C1(y), C2(x));
  }

  lemma CcittFourBits(x: word, y: word, z: word, w: word)
    requires y == (x >> 2) ^ ((x & 3) << 14) ^ ((x & 3) << 9) ^ ((x & 3) << 2)
    requires z == (y >> 2) ^ ((y & 3) << 14) ^ ((y & 3) << 9) ^ ((y & 3) << 2)
    requires w == (x >> 4) ^ ((x & 15) << 12) ^ ((x & 15) << 7) ^ (x & 15)
    ensures z == w
  {
  }

  lemma CcittFour(x: word)
    ensures C2(C2(x)) == C4(x)
  {
    hide C2, C4;
    var y := C2(x);
    C2Is(x);
    C2Is(y);
    C4Is(x);
    CcittFourBits(x, y, C2(y), C4(x));
  }

  lemma XmodemBitsFour(x: word, n: nat)
    ensures XmodemBits(x, n + 4) == X4(XmodemBits(x, n))
  {
    hide XmodemBit, X1, X2, X4;
    var y := XmodemBits(x, n);
    var y1 := XmodemBit(y);
    assert XmodemBits(x, n + 1) == y1;
    var y2 := XmodemBit(y1);
    assert XmodemBits(x, n + 2) == y2;
    var y3 := XmodemBit(y2);
    assert XmodemBits(x, n + 3) == y3;
    XmodemBitIs(y);
    XmodemBitIs(y1);
    XmodemBitIs(y2);
    XmodemBitIs(y3);
    XmodemTwo(y);
    XmodemTwo(y2);
    XmodemFour(y);
  }

  lemma CcittBitsFour(x: word, n: nat)
    ensures CcittBits(x, n + 4) == C4(CcittBits(x, n))
  {
    hide CcittBit, C1, C2, C4;
    var y := CcittBits(x, n);
    var y1 := CcittBit(y);
    assert CcittBits(x, n + 1) == y1;
    var y2 := CcittBit(y1);
    assert CcittBits(x, n + 2) == y2;
    var y3 := CcittBit(y2);
    assert CcittBits(x, n + 3) == y3;
    CcittBitIs(y);
    CcittBitIs(y1);
    CcittBitIs(y2);
    CcittBitIs(y3);
    CcittTwo(y);
    CcittTwo(y2);
    CcittFour(y);
  }

  /** Eight steps. */
  function X8(x: word): word { X4(X4(x)) }

  function C8(x: word): word { C4(C4(x)) }

  function LowByte(data: byte): word { data as word }

  function HighByte(data: byte): word { data as word << 8 }

  lemma LowByteIs(data: byte) ensures LowByte(data) == data as word {}

  lemma HighByteIs(data: byte) ensures HighByte(data) == data as word << 8 {}

  lemma XmodemIs(crc: word, data: byte)
    ensures Xmodem(crc, data) == X8(Xor(crc, HighByte(data)))
  {
    hide X4, XmodemBit;
    var x := crc ^ (data as word << 8);
    XmodemBitsFour(x, 0);
    XmodemBitsFour(x, 4);
    assert XmodemBits(x, 0) == x;
  }

  lemma CcittIs(crc: word, data: byte)
    ensures Ccitt(crc, data) == C8(Xor(crc, LowByte(data)))
  {
    hide C4, CcittBit;
    var x := crc ^ (data as word);
    CcittBitsFour(x, 0);
    CcittBitsFour(x, 4);
    assert CcittBits(x, 0) == x;
  }

  // ---- The two update routines ----

  method XmodemStep(crc: word) returns (next: word)
    ensures next == XmodemBit(crc)
  {
    if crc & 0x8000 != 0 {
      next := (crc << 1) ^ 0x1021;
    } else {
      next := crc << 1;
    }
  }

  /** crc_xmodem_update. */
  method XmodemUpdate(start: word, data: byte) returns (crc: word)
    ensures crc == Xmodem(start, data)
  {
    hide XmodemBit;
    crc := start ^ (data as word << 8);
    for i := 0 to 8
      invariant crc == XmodemBits(start ^ (data as word << 8), i)
    {
      crc := XmodemStep(crc);
    }
  }

  /** The three assignments of crc_ccitt_update. */
  function Mixed(crc: word, data: byte): byte { data ^ ((crc & 0xff) as byte) }

  function Spread(d: byte): byte { d ^ (d << 4) }

  function Combined(e: byte, crc: word): word {
    ((e as word << 8) | (crc >> 8)) ^ ((e >> 4) as word) ^ (e as word << 3)
  }

  lemma MixedIs(crc: word, data: byte) ensures Mixed(crc, data) == data ^ ((crc & 0xff) as byte) {}

  lemma SpreadIs(d: byte) ensures Spread(d) == d ^ (d << 4) {}

  // The shifts by name, so that the next proofs contain no bits at all.

  function Up3(x: word): word { x << 3 }

  function Up4(x: word): word { x << 4 }

  function Up7(x: word): word { x << 7 }

  function Up8(x: word): word { x << 8 }

  function Up12(x: word): word { x << 12 }

  function Down4(x: word): word { x >> 4 }

  function Down8(x: word): word { x >> 8 }

  function Low4(x: word): word { x & 15 }

  /** A half step and the whole step, each from the bits it keeps and the bits it spreads. */
  function Half(rest: word, low: word): word { Xor(Xor(Xor(rest, Up12(low)), Up7(low)), low) }

  function Tail(top: word, e: word): word { Xor(Xor(Xor(top, Up8(e)), Down4(e)), Up3(e)) }

  function Below(top: word, low: word): word { Xor(Xor(top, Up8(low)), Up3(low)) }

  function Joined(low: word, next: word): word { Xor(low, Up4(next)) }

  function Next4(x: word): word { Xor(Low4(Down4(x)), Low4(x)) }

  /** What the fast form spreads, as a word. */
  function Folded(x: word): word { (x & 0xff) ^ ((x << 4) & 0xf0) }

  lemma C4IsHalf(x: word)
    ensures C4(x) == Half(Down4(x), Low4(x))
  {
  }

  lemma Up12OfXor(x: word, y: word) ensures Up12(Xor(x, y)) == Xor(Up12(x), Up12(y)) {}

  lemma Up7OfXor(x: word, y: word) ensures Up7(Xor(x, y)) == Xor(Up7(x), Up7(y)) {}

  lemma Down4OfXor(x: word, y: word) ensures Down4(Xor(x, y)) == Xor(Down4(x), Down4(y)) {}

  lemma Low4OfXor(x: word, y: word) ensures Low4(Xor(x, y)) == Xor(Low4(x), Low4(y)) {}

  lemma LowShifts(x: word, low: word)
    requires low == Low4(x)
    ensures Down4(Down4(x)) == Down8(x) && Down4(Up12(low)) == Up8(low)
    ensures Down4(Up7(low)) == Up3(low) && Down4(low) == 0
    ensures Low4(Up12(low)) == 0 && Low4(Up7(low)) == 0 && Low4(low) == low
  {
  }

  lemma SecondHalf(x: word)
    ensures C4(C4(x)) == Half(Below(Down8(x), Low4(x)), Next4(x))
  {
    hide C4, Xor, Low4, Up3, Up7, Up8, Up12, Down4, Down8;
    var low := Low4(x);
    C4IsHalf(x);
    C4IsHalf(C4(x));
    LowShifts(x, low);
    var a := Xor(Down4(x), Up12(low));
    var b := Xor(a, Up7(low));
    Down4OfXor(Down4(x), Up12(low));
    Down4OfXor(a, Up7(low));
    Down4OfXor(b, low);
    Low4OfXor(Down4(x), Up12(low));
    Low4OfXor(a, Up7(low));
    Low4OfXor(b, low);
    XorNothing(Low4(Down4(x)));
    XorNothing(Xor(Xor(Down8(x), Up8(low)), Up3(low)));
  }

  predicate Nibble(x: word) { x & 0xfff0 == 0 }

  lemma JoinedShifts(low: word, next: word)
    requires Nibble(low) && Nibble(next)
    ensures Up8(Joined(low, next)) == Xor(Up8(low), Up12(next))
    ensures Down4(Joined(low, next)) == next
    ensures Up3(Joined(low, next)) == Xor(Up3(low), Up7(next))
  {
  }

  lemma Rearranged(p: word, a: word, b: word, c: word, d: word, h: word)
    ensures Xor(Xor(Xor(Xor(Xor(p, a), b), c), d), h) == Xor(Xor(Xor(p, Xor(a, c)), h), Xor(b, d))
  {
    hide Xor;
    var q := Xor(p, Xor(a, c));
    XorSwap(Xor(p, a), b, c);
    XorAssociates(p, a, c);
    XorAssociates(q, b, d);
    XorSwap(q, Xor(b, d), h);
  }

  lemma TailOfHalf(top: word, low: word, next: word)
    requires Nibble(low) && Nibble(next)
    ensures Half(Below(top, low), next) == Tail(top, Joined(low, next))
  {
    hide Xor, Joined, Nibble, Up3, Up7, Up8, Up12, Down4;
    JoinedShifts(low, next);
    Rearranged(top, Up8(low), Up3(low), Up12(next), Up7(next), next);
  }

  lemma FoldedIs(x: word)
    ensures Folded(x) == Joined(Low4(x), Next4(x)) && Nibble(Low4(x)) && Nibble(Next4(x))
  {
  }

  lemma EightSteps(x: word)
    ensures C8(x) == Tail(Down8(x), Folded(x))
  {
    hide C4, Low4, Next4, Folded, Half, Joined, Below, Down8, Tail, Nibble;
    SecondHalf(x);
    FoldedIs(x);
    TailOfHalf(Down8(x), Low4(x), Next4(x));
  }

  lemma FoldedByteBits(crc: word, data: byte, x: word, d: byte, e: byte)
    requires x == crc ^ (data as word)
    requires d == data ^ ((crc & 0xff) as byte)
    requires e == d ^ (d << 4)
    ensures (x & 0xff) ^ ((x << 4) & 0xf0) == e as word
    ensures x >> 8 == crc >> 8
  {
  }

  lemma FoldedByte(crc: word, data: byte)
    ensures Folded(Xor(crc, LowByte(data))) == LowByte(Spread(Mixed(crc, data)))
    ensures Down8(Xor(crc, LowByte(data))) == Down8(crc)
  {
    hide Spread, Mixed, Xor;
    XorIs(crc, LowByte(data));
    MixedIs(crc, data);
    SpreadIs(Mixed(crc, data));
    FoldedByteBits(crc, data, Xor(crc, LowByte(data)), Mixed(crc, data), Spread(Mixed(crc, data)));
  }

  lemma JoinedBits(p: word, e: byte, w: word)
    requires w == e as word
    requires p & 0xff00 == 0
    ensures (w << 8) | p == p ^ (w << 8)
    ensures (e >> 4) as word == w >> 4
  {
  }

  lemma CombinedIsTail(e: byte, crc: word)
    ensures Combined(e, crc) == Tail(Down8(crc), LowByte(e))
  {
    assert (crc >> 8) & 0xff00 == 0;
    JoinedBits(crc >> 8, e, e as word);
  }

  /** The branch-free form computes the eight bit steps. */
  lemma FastIsBitwise(crc: word, data: byte)
    ensures Combined(Spread(Mixed(crc, data)), crc) == Ccitt(crc, data)
  {
    hide Ccitt, C8, Mixed, Spread, Combined, Xor, LowByte, Folded, Tail, Down8;
    CcittIs(crc, data);
    EightSteps(Xor(crc, LowByte(data)));
    FoldedByte(crc, data);
    CombinedIsTail(Spread(Mixed(crc, data)), crc);
  }

  /** crc_ccitt_update. */
  method CcittUpdate(start: word, input: byte) returns (crc: word)
    ensures crc == Ccitt(start, input)
  {
    hide Ccitt, Mixed, Spread, Combined;
    var data := Mixed(start, input);
    data := Spread(data);
    crc := Combined(data, start);
    FastIsBitwise(start, input);
  }

  // ---- Messages ----

  function XmodemMessage(start: word, m: seq<byte>): word {
    if m == [] then start else Xmodem(XmodemMessage(start, m[..|m| - 1]), m[|m| - 1])
  }

  function CcittMessage(start: word, m: seq<byte>): word {
    if m == [] then start else Ccitt(CcittMessage(start, m[..|m| - 1]), m[|m| - 1])
  }

  lemma {:induction false} XmodemConcat(start: word, a: seq<byte>, b: seq<byte>)
    ensures XmodemMessage(start, a + b) == XmodemMessage(XmodemMessage(start, a), b)
    decreases |b|
  {
    hide Xmodem;
    if b == [] {
      assert a + b == a;
    } else {
      assert (a + b)[..|a + b| - 1] == a + b[..|b| - 1];
      XmodemConcat(start, a, b[..|b| - 1]);
    }
  }

  lemma {:induction false} CcittConcat(start: word, a: seq<byte>, b: seq<byte>)
    ensures CcittMessage(start, a + b) == CcittMessage(CcittMessage(start, a), b)
    decreases |b|
  {
    hide Ccitt;
    if b == [] {
      assert a + b == a;
    } else {
      assert (a + b)[..|a + b| - 1] == a + b[..|b| - 1];
      CcittConcat(start, a, b[..|b| - 1]);
    }
  }

  // ---- The two are mirror images ----

  function Rev16(x: word): word {
    ((x & 0x0001) << 15) | ((x & 0x0002) << 13) | ((x & 0x0004) << 11) | ((x & 0x0008) << 9)
    | ((x & 0x0010) << 7) | ((x & 0x0020) << 5) | ((x & 0x0040) << 3) | ((x & 0x0080) << 1)
    | ((x >> 1) & 0x0080) | ((x >> 3) & 0x0040) | ((x >> 5) & 0x0020) | ((x >> 7) & 0x0010)
    | ((x >> 9) & 0x0008) | ((x >> 11) & 0x0004) | ((x >> 13) & 0x0002) | (x >> 15)
  }

  function Rev8(x: byte): byte {
    ((x & 0x01) << 7) | ((x & 0x02) << 5) | ((x & 0x04) << 3) | ((x & 0x08) << 1)
    | ((x >> 1) & 0x08) | ((x >> 3) & 0x04) | ((x >> 5) & 0x02) | (x >> 7)
  }

  lemma Rev16Is(x: word)
    ensures Rev16(x) == ((x & 0x0001) << 15) | ((x & 0x0002) << 13) | ((x & 0x0004) << 11) | ((x & 0x0008) << 9)
            | ((x & 0x0010) << 7) | ((x & 0x0020) << 5) | ((x & 0x0040) << 3) | ((x & 0x0080) << 1)
            | ((x >> 1) & 0x0080) | ((x >> 3) & 0x0040) | ((x >> 5) & 0x0020) | ((x >> 7) & 0x0010)
            | ((x >> 9) & 0x0008) | ((x >> 11) & 0x0004) | ((x >> 13) & 0x0002) | (x >> 15)
  {
  }

  lemma Rev8Is(x: byte)
    ensures Rev8(x) == ((x & 0x01) << 7) | ((x & 0x02) << 5) | ((x & 0x04) << 3) | ((x & 0x08) << 1)
            | ((x >> 1) & 0x08) | ((x >> 3) & 0x04) | ((x >> 5) & 0x02) | (x >> 7)
  {
  }

  function RevBytes(m: seq<byte>): (r: seq<byte>)
    ensures |r| == |m|
  {
    seq(|m|, k requires 0 <= k < |m| => Rev8(m[k]))
  }

  lemma MirrorFourBits(x: word, y: word, z: word, u: word, w: word)
    requires y == (x >> 4) ^ ((x & 15) << 12) ^ ((x & 15) << 7) ^ (x & 15)
    requires z == ((x & 0x0001) << 15) | ((x & 0x0002) << 13) | ((x & 0x0004) << 11) | ((x & 0x0008) << 9)
             | ((x & 0x0010) << 7) | ((x & 0x0020) << 5) | ((x & 0x0040) << 3) | ((x & 0x0080) << 1)
             | ((x >> 1) & 0x0080) | ((x >> 3) & 0x0040) | ((x >> 5) & 0x0020) | ((x >> 7) & 0x0010)
             | ((x >> 9) & 0x0008) | ((x >> 11) & 0x0004) | ((x >> 13) & 0x0002) | (x >> 15)
    requires u == ((y & 0x0001) << 15) | ((y & 0x0002) << 13) | ((y & 0x0004) << 11) | ((y & 0x0008) << 9)
             | ((y & 0x0010) << 7) | ((y & 0x0020) << 5) | ((y & 0x0040) << 3) | ((y & 0x0080) << 1)
             | ((y >> 1) & 0x0080) | ((y >> 3) & 0x0040) | ((y >> 5) & 0x0020) | ((y >> 7) & 0x0010)
             | ((y >> 9) & 0x0008) | ((y >> 11) & 0x0004) | ((y >> 13) & 0x0002) | (y >> 15)
    requires w == (z << 4) ^ ((z & 0xf000) >> 12) ^ ((z & 0xf000) >> 7) ^ (z & 0xf000)
    ensures u == w
  {
  }

  lemma MirrorFour(x: word)
    ensures Rev16(C4(x)) == X4(Rev16(x))
  {
    hide C4, X4, Rev16;
    var y, z := C4(x), Rev16(x);
    C4Is(x);
    Rev16Is(x);
    Rev16Is(y);
    X4Is(z);
    MirrorFourBits(x, y, z, Rev16(y), X4(z));
  }

  lemma MirrorXorBits(x: word, y: word, z: word)
    requires z == x ^ y
    ensures (((z & 0x0001) << 15) | ((z & 0x0002) << 13) | ((z & 0x0004) << 11) | ((z & 0x0008) << 9)
             | ((z & 0x0010) << 7) | ((z & 0x0020) << 5) | ((z & 0x0040) << 3) | ((z & 0x0080) << 1)
             | ((z >> 1) & 0x0080) | ((z >> 3) & 0x0040) | ((z >> 5) & 0x0020) | ((z >> 7) & 0x0010)
             | ((z >> 9) & 0x0008) | ((z >> 11) & 0x0004) | ((z >> 13) & 0x0002) | (z >> 15))
            == (((x & 0x0001) << 15) | ((x & 0x0002) << 13) | ((x & 0x0004) << 11) | ((x & 0x0008) << 9)
             | ((x & 0x0010) << 7) | ((x & 0x0020) << 5) | ((x & 0x0040) << 3) | ((x & 0x0080) << 1)
             | ((x >> 1) & 0x0080) | ((x >> 3) & 0x0040) | ((x >> 5) & 0x0020) | ((x >> 7) & 0x0010)
             | ((x >> 9) & 0x0008) | ((x >> 11) & 0x0004) | ((x >> 13) & 0x0002) | (x >> 15))
             ^ (((y & 0x0001) << 15) | ((y & 0x0002) << 13) | ((y & 0x0004) << 11) | ((y & 0x0008) << 9)
             | ((y & 0x0010) << 7) | ((y & 0x0020) << 5) | ((y & 0x0040) << 3) | ((y & 0x0080) << 1)
             | ((y >> 1) & 0x0080) | ((y >> 3) & 0x0040) | ((y >> 5) & 0x0020) | ((y >> 7) & 0x0010)
             | ((y >> 9) & 0x0008) | ((y >> 11) & 0x0004) | ((y >> 13) & 0x0002) | (y >> 15))
  {
  }

  lemma MirrorXor(x: word, y: word)
    ensures Rev16(Xor(x, y)) == Xor(Rev16(x), Rev16(y))
  {
    XorIs(x, y);
    XorIs(Rev16(x), Rev16(y));
    hide Rev16, Xor;
    Rev16Is(x);
    Rev16Is(y);
    Rev16Is(Xor(x, y));
    MirrorXorBits(x, y, Xor(x, y));
  }

  lemma MirrorByteBits(data: byte, x: word)
    requires x == data as word
    ensures (((x & 0x0001) << 15) | ((x & 0x0002) << 13) | ((x & 0x0004) << 11) | ((x & 0x0008) << 9)
             | ((x & 0x0010) << 7) | ((x & 0x0020) << 5) | ((x & 0x0040) << 3) | ((x & 0x0080) << 1)
             | ((x >> 1) & 0x0080) | ((x >> 3) & 0x0040) | ((x >> 5) & 0x0020) | ((x >> 7) & 0x0010)
             | ((x >> 9) & 0x0008) | ((x >> 11) & 0x0004) | ((x >> 13) & 0x0002) | (x >> 15))
            == ((((data & 0x01) << 7) | ((data & 0x02) << 5) | ((data & 0x04) << 3) | ((data & 0x08) << 1)
             | ((data >> 1) & 0x08) | ((data >> 3) & 0x04) | ((data >> 5) & 0x02) | (data >> 7)) as word) << 8
  {
  }

  lemma MirrorByte(data: byte)
    ensures Rev16(LowByte(data)) == HighByte(Rev8(data))
  {
    LowByteIs(data);
    HighByteIs(Rev8(data));
    hide Rev16, Rev8, LowByte, HighByte;
    Rev16Is(LowByte(data));
    Rev8Is(data);
    MirrorByteBits(data, LowByte(data));
  }

  lemma Mirror(crc: word, data: byte)
    ensures Rev16(Ccitt(crc, data)) == Xmodem(Rev16(crc), Rev8(data))
  {
    hide Ccitt, Xmodem, Rev16, Rev8, C4, X4, Xor, LowByte, HighByte;
    CcittIs(crc, data);
    XmodemIs(Rev16(crc), Rev8(data));
    var x := Xor(crc, LowByte(data));
    MirrorXor(crc, LowByte(data));
    MirrorByte(data);
    MirrorFour(x);
    MirrorFour(C4(x));
  }

  /** For messages of any length: reversing the bits of everything turns one CRC into the other. */
  lemma {:induction false} MirrorMessage(start: word, m: seq<byte>)
    ensures Rev16(CcittMessage(start, m)) == XmodemMessage(Rev16(start), RevBytes(m))
  {
    hide Ccitt, Xmodem, Rev16, Rev8;
    if m == [] {
    } else {
      var n := |m| - 1;
      MirrorMessage(start, m[..n]);
      Mirror(CcittMessage(start, m[..n]), m[n]);
      assert RevBytes(m)[..n] == RevBytes(m[..n]);
    }
  }
}

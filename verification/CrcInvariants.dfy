/** Constants and parities that both CRCs keep for every message of any length, and the limit of what they detect. */
module CrcInvariants {
  import opened Bytes
  import opened Words
  import opened Crc
  import opened CrcErrors

  // ---- Appending a value ----

  lemma ComplementBits(c: word, l: word, h: word, x: word, a: word, b: word, y: word, d: word, e: word)
    requires l == !c & 0xff && h == !c >> 8
    requires x == c ^ l
    requires a == (x >> 4) ^ ((x & 15) << 12) ^ ((x & 15) << 7) ^ (x & 15)
    requires b == (a >> 4) ^ ((a & 15) << 12) ^ ((a & 15) << 7) ^ (a & 15)
    requires y == b ^ h
    requires d == (y >> 4) ^ ((y & 15) << 12) ^ ((y & 15) << 7) ^ (y & 15)
    requires e == (d >> 4) ^ ((d & 15) << 12) ^ ((d & 15) << 7) ^ (d & 15)
    ensures e == 0xf0b8
  {
  }

  lemma HalvesAre(c: word)
    ensures LowByte(Lo8(c)) == c & 0xff && LowByte(Hi8(c)) == c >> 8
    ensures HighByte(Lo8(c)) == (c & 0xff) << 8 && HighByte(Hi8(c)) == c & 0xff00
  {
  }

  lemma ComplementStep(c: word)
    ensures Ccitt(Ccitt(c, Lo8(!c)), Hi8(!c)) == 0xf0b8
  {
    HalvesAre(!c);
    hide Ccitt, C4, Xor, LowByte, Lo8, Hi8;
    var l, h := LowByte(Lo8(!c)), LowByte(Hi8(!c));
    var x := Xor(c, l);
    var a := C4(x);
    var b := C4(a);
    var y := Xor(b, h);
    var d := C4(y);
    CcittIs(c, Lo8(!c));
    CcittIs(b, Hi8(!c));
    XorIs(c, l);
    C4Is(x);
    C4Is(a);
    XorIs(b, h);
    C4Is(y);
    C4Is(d);
    ComplementBits(c, l, h, x, a, b, y, d, C4(d));
  }

  lemma {:induction false} CcittTwoMore(state: word, m: seq<byte>, a: byte, b: byte)
    ensures CcittMessage(state, m + [a, b]) == Ccitt(Ccitt(CcittMessage(state, m), a), b)
  {
    hide Ccitt;
    assert (m + [a, b])[..|m| + 1] == m + [a] && (m + [a])[..|m|] == m;
  }

  /** The good-frame value of section C.2 of RFC 1662. */
  lemma CcittGoodFrame(state: word, m: seq<byte>)
    ensures var c := CcittMessage(state, m); CcittMessage(state, m + [Lo8(!c), Hi8(!c)]) == 0xf0b8
  {
    hide Ccitt, CcittMessage, Lo8, Hi8;
    var c := CcittMessage(state, m);
    CcittTwoMore(state, m, Lo8(!c), Hi8(!c));
    ComplementStep(c);
  }

  lemma AppendBits(c: word, l: word, h: word, x: word, a: word, b: word, y: word, d: word, e: word)
    requires l == (c & 0xff) << 8 && h == c & 0xff00
    requires x == c ^ h
    requires a == (x << 4) ^ ((x & 0xf000) >> 12) ^ ((x & 0xf000) >> 7) ^ (x & 0xf000)
    requires b == (a << 4) ^ ((a & 0xf000) >> 12) ^ ((a & 0xf000) >> 7) ^ (a & 0xf000)
    requires y == b ^ l
    requires d == (y << 4) ^ ((y & 0xf000) >> 12) ^ ((y & 0xf000) >> 7) ^ (y & 0xf000)
    requires e == (d << 4) ^ ((d & 0xf000) >> 12) ^ ((d & 0xf000) >> 7) ^ (d & 0xf000)
    ensures e == 0
  {
  }

  lemma AppendStep(c: word)
    ensures Xmodem(Xmodem(c, Hi8(c)), Lo8(c)) == 0
  {
    HalvesAre(c);
    hide Xmodem, X4, Xor, HighByte, Lo8, Hi8;
    var l, h := HighByte(Lo8(c)), HighByte(Hi8(c));
    var x := Xor(c, h);
    var a := X4(x);
    var b := X4(a);
    var y := Xor(b, l);
    var d := X4(y);
    XmodemIs(c, Hi8(c));
    XmodemIs(b, Lo8(c));
    XorIs(c, h);
    X4Is(x);
    X4Is(a);
    XorIs(b, l);
    X4Is(y);
    X4Is(d);
    AppendBits(c, l, h, x, a, b, y, d, X4(d));
  }

  lemma {:induction false} XmodemTwoMore(state: word, m: seq<byte>, a: byte, b: byte)
    ensures XmodemMessage(state, m + [a, b]) == Xmodem(Xmodem(XmodemMessage(state, m), a), b)
  {
    hide Xmodem;
    assert (m + [a, b])[..|m| + 1] == m + [a] && (m + [a])[..|m|] == m;
  }

  lemma XmodemZeroFrame(state: word, m: seq<byte>)
    ensures var c := XmodemMessage(state, m); XmodemMessage(state, m + [Hi8(c), Lo8(c)]) == 0
  {
    hide Xmodem, XmodemMessage, Lo8, Hi8;
    var c := XmodemMessage(state, m);
    XmodemTwoMore(state, m, Hi8(c), Lo8(c));
    AppendStep(c);
  }

  // ---- Parity ----

  function WordPower(k: nat): word
    requires k < 16
  {
    match k
    case 0 => 0x0001
    case 1 => 0x0002
    case 2 => 0x0004
    case 3 => 0x0008
    case 4 => 0x0010
    case 5 => 0x0020
    case 6 => 0x0040
    case 7 => 0x0080
    case 8 => 0x0100
    case 9 => 0x0200
    case 10 => 0x0400
    case 11 => 0x0800
    case 12 => 0x1000
    case 13 => 0x2000
    case 14 => 0x4000
    case 15 => 0x8000
  }

  predicate WordBit(x: word, k: nat)
    requires k < 16
  {
    And(x, WordPower(k)) != 0
  }

  /** Whether an odd number of the `n` low bits are set. */
  predicate OddBits(x: word, n: nat)
    requires n <= 16
  {
    n > 0 && OddBits(x, n - 1) != WordBit(x, n - 1)
  }

  predicate Odd(x: word) {
    OddBits(x, 16)
  }

  function And(x: word, p: word): word { x & p }

  lemma AllOrNothing(x: word, k: nat)
    requires k < 16
    ensures And(x, WordPower(k)) == 0 || And(x, WordPower(k)) == WordPower(k)
    ensures WordPower(k) != 0
  {
  }

  lemma AndOfXor(x: word, y: word, p: word)
    ensures And(Xor(x, y), p) == Xor(And(x, p), And(y, p))
  {
  }

  lemma WordBitOfXor(x: word, y: word, k: nat)
    requires k < 16
    ensures WordBit(Xor(x, y), k) == (WordBit(x, k) != WordBit(y, k))
  {
    hide WordPower, Xor, And;
    var p := WordPower(k);
    AllOrNothing(x, k);
    AllOrNothing(y, k);
    AndOfXor(x, y, p);
    XorNothing(p);
    XorNothing(0);
    XorSame(p);
  }

  lemma {:induction false} OddBitsOfXor(x: word, y: word, z: word, n: nat)
    requires n <= 16 && z == Xor(x, y)
    ensures OddBits(z, n) == (OddBits(x, n) != OddBits(y, n))
  {
    hide WordBit, Xor;
    if n == 0 {
    } else {
      OddBitsOfXor(x, y, z, n - 1);
      WordBitOfXor(x, y, n - 1);
    }
  }

  lemma ShiftedBits(x: word, y: word, k: nat)
    requires k < 15 && y == x >> 1
    ensures WordBit(y, k) == WordBit(x, k + 1)
  {
  }

  lemma ShiftedTop(x: word)
    ensures !WordBit(x >> 1, 15)
    ensures WordBit(x, 0) == (x & 1 != 0)
  {
  }

  lemma {:induction false} OddBitsOfShift(x: word, y: word, n: nat)
    requires n < 16 && y == x >> 1
    ensures OddBits(x, n + 1) == (OddBits(y, n) != WordBit(x, 0))
  {
    hide WordBit;
    if n == 0 {
    } else {
      OddBitsOfShift(x, y, n - 1);
      ShiftedBits(x, y, n - 1);
    }
  }

  lemma PolynomialBits()
    ensures WordBit(0x8408, 15) && WordBit(0x8408, 10) && WordBit(0x8408, 3)
    ensures forall k: nat :: k < 16 && k != 15 && k != 10 && k != 3 ==> !WordBit(0x8408, k)
  {
  }

  lemma PolynomialIsOdd()
    ensures Odd(0x8408)
  {
    hide WordBit;
    PolynomialBits();
    assert !OddBits(0x8408, 3);
    assert OddBits(0x8408, 6);
    assert OddBits(0x8408, 9);
    assert !OddBits(0x8408, 12);
    assert !OddBits(0x8408, 15);
  }

  lemma OddOfShift(x: word)
    ensures Odd(x >> 1) == (Odd(x) != (x & 1 != 0))
  {
    hide WordBit;
    ShiftedTop(x);
    OddBitsOfShift(x, x >> 1, 15);
  }

  lemma OddStep(x: word)
    ensures Odd(CcittBit(x)) == Odd(x)
  {
    assert Xor(x >> 1, 0x8408) == (x >> 1) ^ 0x8408;
    hide OddBits, Xor;
    OddOfShift(x);
    PolynomialIsOdd();
    OddBitsOfXor(x >> 1, 0x8408, Xor(x >> 1, 0x8408), 16);
  }

  lemma {:induction false} OddSteps(x: word, n: nat)
    ensures Odd(CcittBits(x, n)) == Odd(x)
  {
    hide Odd, CcittBit;
    if n == 0 {
    } else {
      OddSteps(x, n - 1);
      OddStep(CcittBits(x, n - 1));
    }
  }

  /** The number of one bits among the `n` low bits of a byte, and in a message. */
  function Ones(b: byte, n: nat): nat
    requires n <= 8
  {
    if n == 0 then 0 else Ones(b, n - 1) + if BitSet(b, n - 1) then 1 else 0
  }

  function MessageOnes(m: seq<byte>): nat {
    if m == [] then 0 else MessageOnes(m[..|m| - 1]) + Ones(m[|m| - 1], 8)
  }

  lemma BitOfLowByte(b: byte, k: nat)
    requires k < 16
    ensures WordBit(LowByte(b), k) == (k < 8 && BitSet(b, k))
  {
  }

  lemma {:induction false} OddOnes(b: byte, n: nat)
    requires n <= 16
    ensures OddBits(LowByte(b), n) == (Ones(b, if n <= 8 then n else 8) % 2 == 1)
  {
    hide WordBit, BitSet, LowByte;
    if n == 0 {
    } else {
      OddOnes(b, n - 1);
      BitOfLowByte(b, n - 1);
    }
  }

  lemma CcittFromBits(state: word, b: byte)
    ensures Ccitt(state, b) == CcittBits(Xor(state, LowByte(b)), 8)
  {
    hide CcittBits;
  }

  lemma OddByteStep(state: word, b: byte)
    ensures Odd(Ccitt(state, b)) == (Odd(state) != (Ones(b, 8) % 2 == 1))
  {
    hide Ccitt, CcittBits, OddBits, Ones, LowByte, Xor;
    CcittFromBits(state, b);
    OddSteps(Xor(state, LowByte(b)), 8);
    OddBitsOfXor(state, LowByte(b), Xor(state, LowByte(b)), 16);
    OddOnes(b, 16);
  }

  /** The CRC's parity is the start value's, flipped once for every one bit of the message. */
  lemma {:induction false} CcittParity(state: word, m: seq<byte>)
    ensures Odd(CcittMessage(state, m)) == (Odd(state) != (MessageOnes(m) % 2 == 1))
  {
    hide Odd, Ccitt, Ones;
    if m == [] {
    } else {
      CcittParity(state, m[..|m| - 1]);
      OddByteStep(CcittMessage(state, m[..|m| - 1]), m[|m| - 1]);
    }
  }

  /** An odd number of flipped, lost or added one bits always shows. */
  lemma CcittDetectsOddErrors(state: word, m: seq<byte>, n: seq<byte>)
    requires MessageOnes(m) % 2 != MessageOnes(n) % 2
    ensures CcittMessage(state, m) != CcittMessage(state, n)
  {
    hide Odd, Ccitt, CcittMessage, MessageOnes;
    CcittParity(state, m);
    CcittParity(state, n);
  }

  lemma {:induction false} OnesReversed(b: byte, c: byte, n: nat)
    requires c == Rev8(b) && n <= 8
    ensures Ones(c, n) + Ones(b, 8 - n) == Ones(b, 8)
  {
    hide BitSet, Rev8;
    if n == 0 {
    } else {
      OnesReversed(b, c, n - 1);
      Rev8Bit(b, n - 1);
    }
  }

  lemma {:induction false} MessageOnesReversed(m: seq<byte>)
    ensures MessageOnes(RevBytes(m)) == MessageOnes(m)
  {
    hide Rev8, Ones;
    if m == [] {
    } else {
      var n := |m| - 1;
      MessageOnesReversed(m[..n]);
      assert RevBytes(m)[..n] == RevBytes(m[..n]);
      OnesReversed(m[n], Rev8(m[n]), 8);
      NoOnes(m[n]);
    }
  }

  lemma NoOnes(b: byte)
    ensures Ones(b, 0) == 0
  {
  }

  lemma XmodemDetectsOddErrors(state: word, m: seq<byte>, n: seq<byte>)
    requires MessageOnes(m) % 2 != MessageOnes(n) % 2
    ensures XmodemMessage(state, m) != XmodemMessage(state, n)
  {
    hide Rev16, RevBytes, XmodemMessage, CcittMessage, MessageOnes;
    XmodemThroughCcitt(state, m);
    XmodemThroughCcitt(state, n);
    MessageOnesReversed(m);
    MessageOnesReversed(n);
    CcittDetectsOddErrors(Rev16(state), RevBytes(m), RevBytes(n));
    Rev16Twice(CcittMessage(Rev16(state), RevBytes(m)));
    Rev16Twice(CcittMessage(Rev16(state), RevBytes(n)));
  }

  // ---- The limit ----

  lemma CancellingBytes()
    ensures C8(LowByte(Diff(0x00, 0x11))) == 0x0108
    ensures Xor(0x0108, LowByte(Diff(0x00, 0x08))) == 0x0100
    ensures C8(0x0100) == 0x0001
    ensures Xor(0x0001, LowByte(Diff(0x00, 0x01))) == 0
  {
  }

  /** Differences spread over seventeen bits can cancel, from any state. */
  lemma SeventeenBitsCanPass(state: word)
    ensures CcittMessage(state, [0x00, 0x00, 0x00]) == CcittMessage(state, [0x11, 0x08, 0x01])
  {
    hide Ccitt, C8, Xor, LowByte, Diff;
    CancellingBytes();
    CcittThree(state, [0x00, 0x00, 0x00]);
    CcittThree(state, [0x11, 0x08, 0x01]);
    var m1, n1 := Ccitt(state, 0x00), Ccitt(state, 0x11);
    var m2, n2 := Ccitt(m1, 0x00), Ccitt(n1, 0x08);
    CcittDifference(state, state, 0x00, 0x11);
    XorSame(state);
    XorNothing(LowByte(Diff(0x00, 0x11)));
    assert Xor(m1, n1) == 0x0108;
    CcittDifference(m1, n1, 0x00, 0x08);
    assert Xor(m2, n2) == 0x0001;
    CcittDifference(m2, n2, 0x00, 0x01);
    C8Zero(0);
    XorZero(Ccitt(m2, 0x00), Ccitt(n2, 0x01));
  }
}

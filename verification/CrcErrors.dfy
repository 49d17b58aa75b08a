/** What the two CRCs detect, in messages of any length and from any start value. */
module CrcErrors {
  import opened Bytes
  import opened Words
  import opened Crc

  function Diff(a: byte, b: byte): byte { a ^ b }

  lemma ByteDifference(a: byte, b: byte)
    ensures Xor(LowByte(a), LowByte(b)) == LowByte(Diff(a, b))
  {
  }

  // ---- A step is linear and loses nothing ----

  lemma HalfLinear(u: word, h: word, v: word, k: word)
    ensures Half(Xor(u, v), Xor(h, k)) == Xor(Half(u, h), Half(v, k))
  {
    hide Xor, Up7, Up12;
    Up12OfXor(h, k);
    Up7OfXor(h, k);
    XorPairs(u, Up12(h), v, Up12(k));
    XorPairs(Xor(u, Up12(h)), Up7(h), Xor(v, Up12(k)), Up7(k));
    XorPairs(Xor(Xor(u, Up12(h)), Up7(h)), h, Xor(Xor(v, Up12(k)), Up7(k)), k);
  }

  lemma C4Linear(x: word, y: word)
    ensures C4(Xor(x, y)) == Xor(C4(x), C4(y))
  {
    hide C4, Xor, Half, Low4, Down4;
    C4IsHalf(x);
    C4IsHalf(y);
    C4IsHalf(Xor(x, y));
    Down4OfXor(x, y);
    Low4OfXor(x, y);
    HalfLinear(Down4(x), Low4(x), Down4(y), Low4(y));
  }

  lemma C8Linear(x: word, y: word)
    ensures C8(Xor(x, y)) == Xor(C8(x), C8(y))
  {
    hide C4, Xor;
    C4Linear(x, y);
    C4Linear(C4(x), C4(y));
  }

  lemma C4ZeroBits(x: word, a: word)
    requires a == (x >> 4) ^ ((x & 15) << 12) ^ ((x & 15) << 7) ^ (x & 15)
    requires a == 0
    ensures x == 0
  {
  }

  lemma C8Zero(x: word)
    ensures C8(x) == 0 <==> x == 0
  {
    assert x == 0 ==> C8(x) == 0;
    hide C4;
    if C8(x) == 0 {
      C4Is(x);
      C4Is(C4(x));
      C4ZeroBits(C4(x), C4(C4(x)));
      C4ZeroBits(x, C4(x));
    }
  }

  /** The difference of two states after a step, from the differences before it. */
  lemma CcittDifference(s: word, t: word, a: byte, b: byte)
    ensures Xor(Ccitt(s, a), Ccitt(t, b)) == C8(Xor(Xor(s, t), LowByte(Diff(a, b))))
  {
    hide Ccitt, C8, Xor, LowByte, Diff;
    CcittIs(s, a);
    CcittIs(t, b);
    C8Linear(Xor(s, LowByte(a)), Xor(t, LowByte(b)));
    XorPairs(s, LowByte(a), t, LowByte(b));
    ByteDifference(a, b);
  }

  lemma CcittStateInjective(s: word, t: word, a: byte)
    requires Ccitt(s, a) == Ccitt(t, a)
    ensures s == t
  {
    assert LowByte(Diff(a, a)) == 0;
    hide Ccitt, C8, Xor, LowByte, Diff;
    CcittDifference(s, t, a, a);
    XorSame(Ccitt(s, a));
    XorNothing(Xor(s, t));
    C8Zero(Xor(s, t));
    XorZero(s, t);
  }

  /** Whatever follows, two different states stay different. */
  lemma {:induction false} CcittSuffixInjective(s: word, t: word, m: seq<byte>)
    requires CcittMessage(s, m) == CcittMessage(t, m)
    ensures s == t
    decreases |m|
  {
    hide Ccitt;
    if m == [] {
    } else {
      var n := |m| - 1;
      CcittStateInjective(CcittMessage(s, m[..n]), CcittMessage(t, m[..n]), m[n]);
      CcittSuffixInjective(s, t, m[..n]);
    }
  }

  // ---- Bursts ----

  /** Bit `p` of a message that is sent low bit first. */
  predicate BitAt(m: seq<byte>, p: nat)
    requires p < 8 * |m|
  {
    BitSet(m[p / 8], p % 8)
  }

  /** Bit `p` of a message that is sent high bit first. */
  predicate HighBitAt(m: seq<byte>, p: nat)
    requires p < 8 * |m|
  {
    BitSet(m[p / 8], 7 - p % 8)
  }

  /** The two messages agree on every bit outside the sixteen that start at `start`. */
  predicate Burst(m: seq<byte>, n: seq<byte>, start: nat) {
    |m| == |n| && forall p: nat :: p < 8 * |m| && !(start <= p < start + 16) ==> BitAt(m, p) == BitAt(n, p)
  }

  predicate HighBurst(m: seq<byte>, n: seq<byte>, start: nat) {
    |m| == |n| && forall p: nat :: p < 8 * |m| && !(start <= p < start + 16) ==> HighBitAt(m, p) == HighBitAt(n, p)
  }

  /** The byte whose `s` low bits are set. */
  function LowBits(s: nat): byte
    requires s <= 8
  {
    match s
    case 0 => 0x00
    case 1 => 0x01
    case 2 => 0x03
    case 3 => 0x07
    case 4 => 0x0f
    case 5 => 0x1f
    case 6 => 0x3f
    case 7 => 0x7f
    case 8 => 0xff
  }

  lemma BitOfLowBits(s: nat, j: nat)
    requires s <= 8 && j < 8
    ensures LowBits(s) & Power(j) == 0 <==> s <= j
    ensures !LowBits(s) & Power(j) == 0 <==> j < s
  {
  }

  predicate Agree(a: byte, b: byte, k: byte, p: byte) {
    k & p == 0 || ((a & p == 0) == (b & p == 0))
  }

  lemma AgreeOnMask(a: byte, b: byte, k: byte)
    requires Agree(a, b, k, 0x01) && Agree(a, b, k, 0x02) && Agree(a, b, k, 0x04) && Agree(a, b, k, 0x08)
    requires Agree(a, b, k, 0x10) && Agree(a, b, k, 0x20) && Agree(a, b, k, 0x40) && Agree(a, b, k, 0x80)
    ensures Diff(a, b) & k == 0
  {
  }

  lemma AgreeAt(a: byte, b: byte, k: byte, j: nat)
    requires j < 8
    requires k & Power(j) == 0 || BitSet(a, j) == BitSet(b, j)
    ensures Agree(a, b, k, Power(j))
  {
  }

  /** Two bytes that agree on every bit of a mask. */
  lemma SameBits(a: byte, b: byte, k: byte)
    requires forall j: nat :: j < 8 ==> k & Power(j) == 0 || BitSet(a, j) == BitSet(b, j)
    ensures Diff(a, b) & k == 0
  {
    hide Agree, BitSet;
    AgreeAt(a, b, k, 0);
    AgreeAt(a, b, k, 1);
    AgreeAt(a, b, k, 2);
    AgreeAt(a, b, k, 3);
    AgreeAt(a, b, k, 4);
    AgreeAt(a, b, k, 5);
    AgreeAt(a, b, k, 6);
    AgreeAt(a, b, k, 7);
    AgreeOnMask(a, b, k);
  }

  lemma LowBitsSame(a: byte, b: byte, s: nat)
    requires s <= 8
    requires forall j: nat :: j < s ==> BitSet(a, j) == BitSet(b, j)
    ensures Diff(a, b) & LowBits(s) == 0
  {
    hide BitSet, Power, LowBits;
    forall j: nat | j < 8
      ensures LowBits(s) & Power(j) == 0 || BitSet(a, j) == BitSet(b, j)
    {
      BitOfLowBits(s, j);
    }
    SameBits(a, b, LowBits(s));
  }

  lemma HighBitsSame(a: byte, b: byte, s: nat)
    requires s <= 8
    requires forall j: nat :: s <= j < 8 ==> BitSet(a, j) == BitSet(b, j)
    ensures Diff(a, b) & !LowBits(s) == 0
  {
    hide BitSet, Power, LowBits;
    forall j: nat | j < 8
      ensures !LowBits(s) & Power(j) == 0 || BitSet(a, j) == BitSet(b, j)
    {
      BitOfLowBits(s, j);
    }
    SameBits(a, b, !LowBits(s));
  }

  lemma AllBitsSame(a: byte, b: byte)
    requires forall j: nat :: j < 8 ==> BitSet(a, j) == BitSet(b, j)
    ensures a == b
  {
    assert LowBits(8) == 0xff;
    hide BitSet, LowBits, Diff;
    LowBitsSame(a, b, 8);
    NoDifference(a, b);
  }

  lemma NoDifference(a: byte, b: byte)
    requires Diff(a, b) & 0xff == 0
    ensures a == b
  {
  }

  lemma WindowBits(k: word, x: word, y: word, z: word, a: word, b: word, c: word, d: word)
    requires k == 0 || k == 1 || k == 3 || k == 7 || k == 15 || k == 31 || k == 63 || k == 127
    requires x & k == 0 && x & 0xff00 == 0
    requires y & 0xff00 == 0
    requires z & !k == 0
    requires a == (x >> 4) ^ ((x & 15) << 12) ^ ((x & 15) << 7) ^ (x & 15)
    requires b == (a >> 4) ^ ((a & 15) << 12) ^ ((a & 15) << 7) ^ (a & 15)
    requires c == b ^ y
    requires d == (c >> 4) ^ ((c & 15) << 12) ^ ((c & 15) << 7) ^ (c & 15)
    requires z == (d >> 4) ^ ((d & 15) << 12) ^ ((d & 15) << 7) ^ (d & 15)
    ensures x == 0 && y == 0 && z == 0
  {
  }

  /** Three difference bytes that cancel, the first clear below bit `s` and the last from bit `s` on, are none. */
  lemma WindowOfDifferences(s: nat, x: byte, y: byte, z: byte)
    requires s < 8
    requires x & LowBits(s) == 0 && z & !LowBits(s) == 0
    requires C8(Xor(C8(LowByte(x)), LowByte(y))) == LowByte(z)
    ensures x == 0 && y == 0 && z == 0
  {
    var k: word := LowBits(s) as word;
    assert LowByte(x) & k == 0 && LowByte(x) & 0xff00 == 0 by { Masked(x, LowBits(s)); }
    assert LowByte(y) & 0xff00 == 0 by { Masked(y, 0); }
    assert LowByte(z) & !k == 0 by { Masked(z, LowBits(s)); }
    Unmasked(x);
    Unmasked(y);
    Unmasked(z);
    hide C4, Xor, LowByte;
    var a := C4(LowByte(x));
    var b := C4(a);
    var c := Xor(b, LowByte(y));
    var d := C4(c);
    C4Is(LowByte(x));
    C4Is(a);
    C4Is(c);
    C4Is(d);
    XorIs(b, LowByte(y));
    WindowBits(k, LowByte(x), LowByte(y), LowByte(z), a, b, c, d);
  }

  lemma Masked(x: byte, k: byte)
    ensures x & k == 0 ==> LowByte(x) & (k as word) == 0
    ensures x & !k == 0 ==> LowByte(x) & !(k as word) == 0
    ensures LowByte(x) & 0xff00 == 0
  {
  }

  lemma Unmasked(x: byte)
    ensures LowByte(x) == 0 ==> x == 0
  {
  }

  /** Three bytes that differ only in the sixteen bits from bit `s` of the first. */
  predicate InWindow(m: seq<byte>, n: seq<byte>, s: nat)
    requires s < 8
  {
    && |m| == |n| == 3
    && Diff(m[0], n[0]) & LowBits(s) == 0
    && Diff(m[2], n[2]) & !LowBits(s) == 0
  }

  /** Three bytes on which two runs from one state differ by at most sixteen bits in a row end in different states. */
  lemma WindowDetected(state: word, m: seq<byte>, n: seq<byte>, s: nat)
    requires s < 8 && InWindow(m, n, s)
    requires CcittMessage(state, m) == CcittMessage(state, n)
    ensures m == n
  {
    hide Ccitt, C8, Xor, LowByte, LowBits, Diff;
    var x, y, z := Diff(m[0], n[0]), Diff(m[1], n[1]), Diff(m[2], n[2]);
    CcittThree(state, m);
    CcittThree(state, n);
    var m1, n1 := Ccitt(state, m[0]), Ccitt(state, n[0]);
    var m2, n2 := Ccitt(m1, m[1]), Ccitt(n1, n[1]);
    CcittDifference(state, state, m[0], n[0]);
    XorSame(state);
    XorNothing(LowByte(x));
    assert Xor(m1, n1) == C8(LowByte(x));
    CcittDifference(m1, n1, m[1], n[1]);
    CcittDifference(m2, n2, m[2], n[2]);
    XorSame(Ccitt(m2, m[2]));
    C8Zero(Xor(Xor(m2, n2), LowByte(z)));
    XorZero(Xor(m2, n2), LowByte(z));
    WindowOfDifferences(s, x, y, z);
    SameByte(m[0], n[0]);
    SameByte(m[1], n[1]);
    SameByte(m[2], n[2]);
  }

  lemma SameByte(a: byte, b: byte)
    requires Diff(a, b) == 0
    ensures a == b
  {
  }

  lemma CcittThree(state: word, m: seq<byte>)
    requires |m| == 3
    ensures CcittMessage(state, m) == Ccitt(Ccitt(Ccitt(state, m[0]), m[1]), m[2])
  {
    hide Ccitt;
    assert m[..2][..1] == m[..1] && m[..1][..0] == [];
    assert CcittMessage(state, m[..1]) == Ccitt(state, m[0]);
    assert CcittMessage(state, m[..2]) == Ccitt(Ccitt(state, m[0]), m[1]);
  }

  /** What a burst says of one byte. */
  lemma BurstByte(m: seq<byte>, n: seq<byte>, start: nat, i: nat)
    requires Burst(m, n, start) && i < |m|
    ensures forall j: nat :: j < 8 && !(start <= 8 * i + j < start + 16) ==> BitSet(m[i], j) == BitSet(n[i], j)
  {
    hide BitSet;
    forall j: nat | j < 8 && !(start <= 8 * i + j < start + 16)
      ensures BitSet(m[i], j) == BitSet(n[i], j)
    {
      assert (8 * i + j) / 8 == i && (8 * i + j) % 8 == j;
      assert BitAt(m, 8 * i + j) == BitAt(n, 8 * i + j);
    }
  }

  lemma BurstSplit(m: seq<byte>, n: seq<byte>, start: nat)
    requires Burst(m, n, start)
    requires start / 8 + 3 <= |m|
    ensures var i, s := start / 8, start % 8;
            && m[..i] == n[..i] && m[i + 3..] == n[i + 3..]
            && InWindow(m[i..i + 3], n[i..i + 3], s)
  {
    assert |m| == |n|;
    hide BitSet, LowBits, Burst, Diff;
    var i, s := start / 8, start % 8;
    assert start == 8 * i + s;
    forall k: nat | k < |m| && !(i <= k < i + 3)
      ensures m[k] == n[k]
    {
      BurstByte(m, n, start, k);
      AllBitsSame(m[k], n[k]);
    }
    BurstByte(m, n, start, i);
    LowBitsSame(m[i], n[i], s);
    BurstByte(m, n, start, i + 2);
    HighBitsSame(m[i + 2], n[i + 2], s);
  }

  lemma CcittAround(state: word, m: seq<byte>, i: nat)
    requires i + 3 <= |m|
    ensures CcittMessage(state, m)
         == CcittMessage(CcittMessage(CcittMessage(state, m[..i]), m[i..i + 3]), m[i + 3..])
  {
    hide CcittMessage;
    assert m[..i + 3] == m[..i] + m[i..i + 3] && m == m[..i + 3] + m[i + 3..];
    CcittConcat(state, m[..i + 3], m[i + 3..]);
    CcittConcat(state, m[..i], m[i..i + 3]);
  }

  lemma SameParts(m: seq<byte>, n: seq<byte>, i: nat)
    requires |m| == |n| && i + 3 <= |m|
    requires m[..i] == n[..i] && m[i..i + 3] == n[i..i + 3] && m[i + 3..] == n[i + 3..]
    ensures m == n
  {
    assert m == m[..i] + m[i..i + 3] + m[i + 3..];
    assert n == n[..i] + n[i..i + 3] + n[i + 3..];
  }

  lemma CcittDetectsWindow(state: word, m: seq<byte>, n: seq<byte>, i: nat, s: nat)
    requires s < 8 && i + 3 <= |m| && |m| == |n|
    requires m[..i] == n[..i] && InWindow(m[i..i + 3], n[i..i + 3], s) && m[i + 3..] == n[i + 3..]
    requires CcittMessage(state, m) == CcittMessage(state, n)
    ensures m[i..i + 3] == n[i..i + 3]
  {
    hide InWindow, CcittMessage;
    CcittAround(state, m, i);
    CcittAround(state, n, i);
    var v, w := m[i..i + 3], n[i..i + 3];
    var t := CcittMessage(state, m[..i]);
    CcittSuffixInjective(CcittMessage(t, v), CcittMessage(t, w), m[i + 3..]);
    WindowDetected(t, v, w, s);
  }

  /** A burst inside three bytes of the message. */
  lemma CcittDetectsInside(state: word, m: seq<byte>, n: seq<byte>, start: nat)
    requires Burst(m, n, start)
    requires start / 8 + 3 <= |m|
    requires CcittMessage(state, m) == CcittMessage(state, n)
    ensures m == n
  {
    assert |m| == |n|;
    hide Burst, InWindow, CcittMessage;
    BurstSplit(m, n, start);
    CcittDetectsWindow(state, m, n, start / 8, start % 8);
    SameParts(m, n, start / 8);
  }

  const PAD: seq<byte> := [0, 0, 0]

  lemma BurstPadded(m: seq<byte>, n: seq<byte>, start: nat)
    requires Burst(m, n, start)
    ensures Burst(m + PAD, n + PAD, start)
  {
    hide BitSet;
    forall p: nat | p < 8 * |m + PAD| && !(start <= p < start + 16)
      ensures BitAt(m + PAD, p) == BitAt(n + PAD, p)
    {
      if p < 8 * |m| {
        assert BitAt(m, p) == BitAt(n, p);
      } else {
        assert (m + PAD)[p / 8] == PAD[p / 8 - |m|] == (n + PAD)[p / 8];
      }
    }
  }

  /** Two different messages of one length whose differences lie within sixteen consecutive bits never collide. */
  lemma CcittDetectsBursts(state: word, m: seq<byte>, n: seq<byte>, start: nat)
    requires Burst(m, n, start)
    ensures CcittMessage(state, m) == CcittMessage(state, n) <==> m == n
  {
    if CcittMessage(state, m) == CcittMessage(state, n) {
      BurstPadded(m, n, start);
      hide CcittMessage;
      if start / 8 <= |m| {
        CcittConcat(state, m, PAD);
        CcittConcat(state, n, PAD);
        CcittDetectsInside(state, m + PAD, n + PAD, start);
        assert m == (m + PAD)[..|m|] && n == (n + PAD)[..|n|];
      } else {
        assert |m| == |n|;
        hide Burst, BitSet;
        forall k: nat | k < |m|
          ensures m[k] == n[k]
        {
          BurstByte(m, n, start, k);
          AllBitsSame(m[k], n[k]);
        }
      }
    }
  }

  // ---- The other update, by reflection ----

  lemma Rev16TwiceBits(x: word, y: word, z: word)
    requires y == ((x & 0x0001) << 15) | ((x & 0x0002) << 13) | ((x & 0x0004) << 11) | ((x & 0x0008) << 9)
             | ((x & 0x0010) << 7) | ((x & 0x0020) << 5) | ((x & 0x0040) << 3) | ((x & 0x0080) << 1)
             | ((x >> 1) & 0x0080) | ((x >> 3) & 0x0040) | ((x >> 5) & 0x0020) | ((x >> 7) & 0x0010)
             | ((x >> 9) & 0x0008) | ((x >> 11) & 0x0004) | ((x >> 13) & 0x0002) | (x >> 15)
    requires z == ((y & 0x0001) << 15) | ((y & 0x0002) << 13) | ((y & 0x0004) << 11) | ((y & 0x0008) << 9)
             | ((y & 0x0010) << 7) | ((y & 0x0020) << 5) | ((y & 0x0040) << 3) | ((y & 0x0080) << 1)
             | ((y >> 1) & 0x0080) | ((y >> 3) & 0x0040) | ((y >> 5) & 0x0020) | ((y >> 7) & 0x0010)
             | ((y >> 9) & 0x0008) | ((y >> 11) & 0x0004) | ((y >> 13) & 0x0002) | (y >> 15)
    ensures z == x
  {
  }

  lemma Rev16Twice(x: word)
    ensures Rev16(Rev16(x)) == x
  {
    hide Rev16;
    Rev16Is(x);
    Rev16Is(Rev16(x));
    Rev16TwiceBits(x, Rev16(x), Rev16(Rev16(x)));
  }

  lemma Rev8Bit(x: byte, j: nat)
    requires j < 8
    ensures BitSet(Rev8(x), j) == BitSet(x, 7 - j)
  {
  }

  lemma Rev8Twice(x: byte)
    ensures Rev8(Rev8(x)) == x
  {
    hide Rev8, BitSet;
    forall j: nat | j < 8
      ensures BitSet(Rev8(Rev8(x)), j) == BitSet(x, j)
    {
      Rev8Bit(Rev8(x), j);
      Rev8Bit(x, 7 - j);
    }
    AllBitsSame(Rev8(Rev8(x)), x);
  }

  lemma RevBytesTwice(m: seq<byte>)
    ensures RevBytes(RevBytes(m)) == m
  {
    hide Rev8;
    forall k | 0 <= k < |m|
      ensures RevBytes(RevBytes(m))[k] == m[k]
    {
      Rev8Twice(m[k]);
    }
  }

  /** Any message's XMODEM value, from the other update run on the mirrored message. */
  lemma XmodemThroughCcitt(state: word, m: seq<byte>)
    ensures XmodemMessage(state, m) == Rev16(CcittMessage(Rev16(state), RevBytes(m)))
  {
    hide Rev16, RevBytes, XmodemMessage, CcittMessage;
    MirrorMessage(Rev16(state), RevBytes(m));
    Rev16Twice(state);
    RevBytesTwice(m);
  }

  lemma BurstMirrored(m: seq<byte>, n: seq<byte>, start: nat)
    requires HighBurst(m, n, start)
    ensures Burst(RevBytes(m), RevBytes(n), start)
  {
    hide Rev8, BitSet;
    forall p: nat | p < 8 * |m| && !(start <= p < start + 16)
      ensures BitAt(RevBytes(m), p) == BitAt(RevBytes(n), p)
    {
      assert HighBitAt(m, p) == HighBitAt(n, p);
      Rev8Bit(m[p / 8], p % 8);
      Rev8Bit(n[p / 8], p % 8);
    }
  }

  lemma XmodemDetectsBursts(state: word, m: seq<byte>, n: seq<byte>, start: nat)
    requires HighBurst(m, n, start)
    ensures XmodemMessage(state, m) == XmodemMessage(state, n) <==> m == n
  {
    hide Rev16, RevBytes, XmodemMessage, CcittMessage, Burst;
    BurstMirrored(m, n, start);
    XmodemThroughCcitt(state, m);
    XmodemThroughCcitt(state, n);
    Rev16Twice(CcittMessage(Rev16(state), RevBytes(m)));
    Rev16Twice(CcittMessage(Rev16(state), RevBytes(n)));
    CcittDetectsBursts(Rev16(state), RevBytes(m), RevBytes(n), start);
    RevBytesTwice(m);
    RevBytesTwice(n);
  }

  // ---- Two adjacent bytes ----

  /** The two messages agree outside bytes `i` and `i + 1`. */
  predicate TwoBytes(m: seq<byte>, n: seq<byte>, i: nat) {
    |m| == |n| && forall k: nat :: k < |m| && k != i && k != i + 1 ==> m[k] == n[k]
  }

  lemma TwoBytesDetected(state: word, m: seq<byte>, n: seq<byte>, i: nat)
    requires TwoBytes(m, n, i)
    ensures CcittMessage(state, m) == CcittMessage(state, n) <==> m == n
    ensures XmodemMessage(state, m) == XmodemMessage(state, n) <==> m == n
  {
    hide BitSet;
    assert Burst(m, n, 8 * i);
    assert HighBurst(m, n, 8 * i);
    CcittDetectsBursts(state, m, n, 8 * i);
    XmodemDetectsBursts(state, m, n, 8 * i);
  }
}

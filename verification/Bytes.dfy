/** Bytes of a radio image, and the masked overwrite: the one shape every codeplug edit takes. */
module Bytes {

  type byte = bv8

  /** Keep the bits of `keep`, then or in `put`. */
  datatype Mask = Mask(keep: byte, put: byte)

  const UNTOUCHED := Mask(0xff, 0)

  function Overwrite(b: byte, m: Mask): byte {
    (b & m.keep) | m.put
  }

  /** The mask that does `m` and then `n`. */
  function Then(m: Mask, n: Mask): Mask {
    Mask(m.keep & n.keep, (m.put & n.keep) | n.put)
  }

  lemma UntouchedKeeps(b: byte)
    ensures Overwrite(b, UNTOUCHED) == b
  {
  }

  lemma ThenIsSequence(b: byte, m: Mask, n: Mask)
    ensures Overwrite(Overwrite(b, m), n) == Overwrite(b, Then(m, n))
  {
  }

  /** A masked overwrite is idempotent whatever its two bytes are. */
  lemma OverwriteTwice(b: byte, m: Mask)
    ensures Overwrite(Overwrite(b, m), m) == Overwrite(b, m)
  {
  }

  /** The byte with only bit `k` set. */
  function Power(k: nat): (p: byte)
    requires k < 8
  {
    match k
    case 0 => 0x01
    case 1 => 0x02
    case 2 => 0x04
    case 3 => 0x08
    case 4 => 0x10
    case 5 => 0x20
    case 6 => 0x40
    case 7 => 0x80
  }

  predicate BitSet(b: byte, k: nat)
    requires k < 8
  {
    b & Power(k) != 0
  }

  /** The masks of `*p |= 1 << k` and of `*p &= ~(1 << k)`. */
  function BitMask(k: nat, on: bool): Mask
    requires k < 8
  {
    Mask(!Power(k), if on then Power(k) else 0)
  }

  lemma PowersApart(k: nat, j: nat)
    requires k < 8 && j < 8
    ensures Power(k) & Power(j) == if j == k then Power(k) else 0
    ensures Power(k) != 0
  {
  }

  lemma BitOfOverwrite(b: byte, p: byte, q: byte)
    requires p & q == 0 || p == q
    ensures ((b & !p) | p) & q == if p == q then p else b & q
    ensures ((b & !p) | 0) & q == if p == q then 0 else b & q
  {
  }

  /** Writing one bit sets that bit and no other. */
  lemma BitMaskWrites(b: byte, k: nat, j: nat, on: bool)
    requires k < 8 && j < 8
    ensures BitSet(Overwrite(b, BitMask(k, on)), j) == if j == k then on else BitSet(b, j)
  {
    PowersApart(k, j);
    PowersApart(j, k);
    BitOfOverwrite(b, Power(k), Power(j));
  }

  /** The C expression `1 << k`. */
  function OneShifted(k: nat): byte
    requires k < 8
  {
    (1 as byte) << k
  }

  /** The C expressions `1 << k` and `(b >> k) & 1`, in terms of `Power`. */
  lemma ShiftOfOne(k: nat)
    requires k < 8
    ensures OneShifted(k) == Power(k)
  {
  }

  lemma ShiftedBit(b: byte, k: nat)
    requires k < 8
    ensures ((b >> k) & 1 == 1) == BitSet(b, k)
  {
  }

  lemma BitMaskIsOrOrAnd(b: byte, k: nat)
    requires k < 8
    ensures Overwrite(b, BitMask(k, true)) == b | Power(k)
    ensures Overwrite(b, BitMask(k, false)) == b & !Power(k)
  {
    OrAfterClear(b, Power(k));
  }

  lemma OrOrAndWrites(b: byte, k: nat, on: bool)
    requires k < 8
    ensures (if on then b | OneShifted(k) else b & !OneShifted(k)) == Overwrite(b, BitMask(k, on))
  {
    hide Power, OneShifted, Overwrite, BitMask;
    ShiftOfOne(k);
    BitMaskIsOrOrAnd(b, k);
  }

  lemma OrAfterClear(b: byte, p: byte)
    ensures (b & !p) | p == b | p
    ensures (b & !p) | 0 == b & !p
  {
  }

  lemma DoubledByte(h: byte, odd: bool)
    requires h as int < 128
    ensures ((h << 1) | (if odd then 1 else 0)) as int == 2 * (h as int) + (if odd then 1 else 0)
  {
  }

  /** The cast of a small integer to a byte, digit by binary digit. */
  function AsByte(x: nat): (b: byte)
    requires x < 256
    ensures b as int == x
  {
    if x == 0 then 0
    else
      DoubledByte(AsByte(x / 2), x % 2 == 1);
      (AsByte(x / 2) << 1) | (if x % 2 == 1 then 1 else 0)
  }

  /** Small values have no high bits. */
  lemma HighBits(b: byte)
    ensures b as int < 128 <==> b & 0x80 == 0
    ensures b as int < 64 <==> b & 0xc0 == 0
    ensures b as int < 16 <==> b & 0xf0 == 0
    ensures b as int < 8 <==> b & 0xf8 == 0
    ensures b as int < 4 <==> b & 0xfc == 0
  {
  }

  lemma SmallByte(x: int)
    requires 0 <= x < 256
    ensures var b := AsByte(x);
            && (x < 128 <==> b & 0x80 == 0) && (x < 64 <==> b & 0xc0 == 0) && (x < 16 <==> b & 0xf0 == 0)
            && (x < 8 <==> b & 0xf8 == 0) && (x < 4 <==> b & 0xfc == 0)
  {
    HighBits(AsByte(x));
  }

  lemma ByteInjective(x: byte, y: byte)
    requires x as int == y as int
    ensures x == y
  {
  }

  // ---- Fields of an image ----

  /** The image with a field copied into it. */
  function Splice(f: seq<byte>, at: nat, field: seq<byte>): (r: seq<byte>)
    requires at + |field| <= |f|
    ensures |r| == |f|
  {
    f[..at] + field + f[at + |field|..]
  }

  lemma SpliceNothing(f: seq<byte>, at: nat)
    requires at <= |f|
    ensures Splice(f, at, []) == f
  {
  }

  lemma SpliceAll(f: seq<byte>, field: seq<byte>)
    requires |f| == |field|
    ensures Splice(f, 0, field) == field
  {
  }

  lemma SpliceAt(f: seq<byte>, at: nat, field: seq<byte>, k: nat)
    requires at + |field| <= |f| && k < |f|
    ensures Splice(f, at, field)[k] == if at <= k < at + |field| then field[k - at] else f[k]
  {
  }

  /** Two fields copied one after the other, side by side. */
  lemma SpliceAppend(f: seq<byte>, at: nat, a: seq<byte>, b: seq<byte>)
    requires at + |a| + |b| <= |f|
    ensures Splice(Splice(f, at, a), at + |a|, b) == Splice(f, at, a + b)
  {
  }

  /** memcpy. */
  method CopyInto(a: array<byte>, at: nat, field: seq<byte>)
    requires at + |field| <= a.Length
    modifies a
    ensures a[..] == Splice(old(a[..]), at, field)
  {
    hide Splice;
    ghost var before := a[..];
    var k := 0;
    while k < |field|
      invariant k <= |field|
      invariant forall j :: 0 <= j < k ==> a[at + j] == field[j]
      invariant forall j :: 0 <= j < a.Length && !(at <= j < at + k) ==> a[j] == before[j]
    {
      a[at + k] := field[k];
      k := k + 1;
    }
    forall j | 0 <= j < a.Length
      ensures a[j] == Splice(before, at, field)[j]
    {
      SpliceAt(before, at, field, j);
      assert at <= j < at + k ==> a[at + (j - at)] == field[j - at];
    }
  }
}

/** Sixteen-bit words and their halves. Proofs that only rearrange exclusive ors see `Xor` by name. */
module Words {
  import opened Bytes

  type word = bv16

  function Xor(x: word, y: word): word { x ^ y }

  lemma XorIs(x: word, y: word) ensures Xor(x, y) == x ^ y {}

  lemma XorCommutes(x: word, y: word) ensures Xor(x, y) == Xor(y, x) {}

  lemma XorAssociates(x: word, y: word, z: word) ensures Xor(Xor(x, y), z) == Xor(x, Xor(y, z)) {}

  lemma XorSame(x: word) ensures Xor(x, x) == 0 {}

  lemma XorNothing(x: word) ensures Xor(0, x) == x && Xor(x, 0) == x {}

  lemma XorZero(x: word, y: word)
    requires Xor(x, y) == 0
    ensures x == y
  {
  }

  lemma XorPairs(s: word, d: word, t: word, e: word)
    ensures Xor(Xor(s, d), Xor(t, e)) == Xor(Xor(s, t), Xor(d, e))
  {
    hide Xor;
    XorAssociates(s, d, Xor(t, e));
    XorAssociates(d, t, e);
    XorCommutes(d, t);
    XorAssociates(t, d, e);
    XorAssociates(s, t, Xor(d, e));
  }

  lemma XorSwap(x: word, y: word, z: word)
    ensures Xor(Xor(x, y), z) == Xor(Xor(x, z), y)
  {
    hide Xor;
    XorAssociates(x, y, z);
    XorCommutes(y, z);
    XorAssociates(x, z, y);
  }

  function Lo8(w: word): byte { (w & 0xff) as byte }

  function Hi8(w: word): byte { (w >> 8) as byte }
}

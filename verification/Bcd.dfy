/** Eight-digit binary coded decimal words, as unsigned 32-bit numbers. */
module Bcd {

  const WORD_LIMIT: nat := 0x1_0000_0000
  const INT_LIMIT: nat := 100_000_000

  /** int_to_bcd: the eight decimal digits shifted to their nibbles, which do not overlap. */
  function IntToBcd(val: nat): nat {
    Weighted16(val % 10, val / 10 % 10, val / 100 % 10, val / 1000 % 10,
               val / 10_000 % 10, val / 100_000 % 10, val / 1_000_000 % 10, val / 10_000_000 % 10)
  }

  /** bcd_to_int: the eight nibbles weighted by powers of ten. */
  function BcdToInt(bcd: nat): nat {
    Weighted10(bcd % 16, bcd / 0x10 % 16, bcd / 0x100 % 16, bcd / 0x1000 % 16,
               bcd / 0x1_0000 % 16, bcd / 0x10_0000 % 16, bcd / 0x100_0000 % 16, bcd / 0x1000_0000 % 16)
  }

  function Weighted16(a: nat, b: nat, c: nat, d: nat, e: nat, f: nat, g: nat, h: nat): nat {
    a + 0x10 * b + 0x100 * c + 0x1000 * d + 0x1_0000 * e + 0x10_0000 * f + 0x100_0000 * g + 0x1000_0000 * h
  }

  function Weighted10(a: nat, b: nat, c: nat, d: nat, e: nat, f: nat, g: nat, h: nat): nat {
    a + 10 * b + 100 * c + 1000 * d + 10_000 * e + 100_000 * f + 1_000_000 * g + 10_000_000 * h
  }

  /** Every nibble is a decimal digit. */
  predicate Canonical(w: nat) {
    && w % 16 < 10 && w / 0x10 % 16 < 10 && w / 0x100 % 16 < 10 && w / 0x1000 % 16 < 10
    && w / 0x1_0000 % 16 < 10 && w / 0x10_0000 % 16 < 10 && w / 0x100_0000 % 16 < 10 && w / 0x1000_0000 % 16 < 10
  }

  lemma SixteenQuotients(v: nat)
    ensures v / 0x10 / 0x10 == v / 0x100 && v / 0x100 / 0x10 == v / 0x1000 && v / 0x1000 / 0x10 == v / 0x1_0000
    ensures v / 0x1_0000 / 0x10 == v / 0x10_0000 && v / 0x10_0000 / 0x10 == v / 0x100_0000
    ensures v / 0x100_0000 / 0x10 == v / 0x1000_0000
  {
  }

  lemma TenQuotients(v: nat)
    ensures v / 10 / 10 == v / 100 && v / 100 / 10 == v / 1000 && v / 1000 / 10 == v / 10_000
    ensures v / 10_000 / 10 == v / 100_000 && v / 100_000 / 10 == v / 1_000_000 && v / 1_000_000 / 10 == v / 10_000_000
  {
  }

  lemma Split16(a: nat, q: nat)
    requires a < 16
    ensures (a + 16 * q) / 16 == q && (a + 16 * q) % 16 == a
  {
  }

  lemma Split10(a: nat, q: nat)
    requires a < 10
    ensures (a + 10 * q) / 10 == q && (a + 10 * q) % 10 == a
  {
  }

  /** The nibbles of a word built from nibbles. */
  lemma NibblesOf(a: nat, b: nat, c: nat, d: nat, e: nat, f: nat, g: nat, h: nat)
    requires a < 16 && b < 16 && c < 16 && d < 16 && e < 16 && f < 16 && g < 16 && h < 16
    ensures var w := Weighted16(a, b, c, d, e, f, g, h);
            && w < WORD_LIMIT
            && w % 16 == a && w / 0x10 % 16 == b && w / 0x100 % 16 == c && w / 0x1000 % 16 == d
            && w / 0x1_0000 % 16 == e && w / 0x10_0000 % 16 == f
            && w / 0x100_0000 % 16 == g && w / 0x1000_0000 % 16 == h
  {
    var w := Weighted16(a, b, c, d, e, f, g, h);
    SixteenQuotients(w);
    var w7: nat := h;
    var w6: nat := g + 16 * w7;
    var w5: nat := f + 16 * w6;
    var w4: nat := e + 16 * w5;
    var w3: nat := d + 16 * w4;
    var w2: nat := c + 16 * w3;
    var w1: nat := b + 16 * w2;
    Split16(a, w1);
    Split16(b, w2);
    Split16(c, w3);
    Split16(d, w4);
    Split16(e, w5);
    Split16(f, w6);
    Split16(g, w7);
  }

  /** The digits of a number built from digits. */
  lemma DigitsOf(a: nat, b: nat, c: nat, d: nat, e: nat, f: nat, g: nat, h: nat)
    requires a < 10 && b < 10 && c < 10 && d < 10 && e < 10 && f < 10 && g < 10 && h < 10
    ensures var v := Weighted10(a, b, c, d, e, f, g, h);
            && v < INT_LIMIT
            && v % 10 == a && v / 10 % 10 == b && v / 100 % 10 == c && v / 1000 % 10 == d
            && v / 10_000 % 10 == e && v / 100_000 % 10 == f && v / 1_000_000 % 10 == g && v / 10_000_000 % 10 == h
  {
    var v := Weighted10(a, b, c, d, e, f, g, h);
    TenQuotients(v);
    var v7: nat := h;
    var v6: nat := g + 10 * v7;
    var v5: nat := f + 10 * v6;
    var v4: nat := e + 10 * v5;
    var v3: nat := d + 10 * v4;
    var v2: nat := c + 10 * v3;
    var v1: nat := b + 10 * v2;
    Split10(a, v1);
    Split10(b, v2);
    Split10(c, v3);
    Split10(d, v4);
    Split10(e, v5);
    Split10(f, v6);
    Split10(g, v7);
  }

  lemma FourNibbles(v: nat)
    ensures v % 16 + 0x10 * (v / 0x10 % 16) + 0x100 * (v / 0x100 % 16) + 0x1000 * (v / 0x1000 % 16)
          + 0x1_0000 * (v / 0x1_0000) == v
  {
    var v1, v2, v3 := v / 0x10, v / 0x100, v / 0x1000;
    assert v1 / 0x10 == v2 && v2 / 0x10 == v3 && v3 / 0x10 == v / 0x1_0000;
  }

  lemma FourDigits(v: nat)
    ensures v % 10 + 10 * (v / 10 % 10) + 100 * (v / 100 % 10) + 1000 * (v / 1000 % 10) + 10_000 * (v / 10_000) == v
  {
    var v1, v2, v3 := v / 10, v / 100, v / 1000;
    assert v1 / 10 == v2 && v2 / 10 == v3 && v3 / 10 == v / 10_000;
  }

  lemma HighQuotients(v: nat)
    ensures v / 0x1_0000 / 0x10 == v / 0x10_0000 && v / 0x1_0000 / 0x100 == v / 0x100_0000
    ensures v / 0x1_0000 / 0x1000 == v / 0x1000_0000
    ensures v < WORD_LIMIT ==> v / 0x1_0000 / 0x1_0000 == 0
    ensures v / 10_000 / 10 == v / 100_000 && v / 10_000 / 100 == v / 1_000_000 && v / 10_000 / 1000 == v / 10_000_000
  {
  }

  lemma WordIsItsNibbles(w: nat)
    requires w < WORD_LIMIT
    ensures Weighted16(w % 16, w / 0x10 % 16, w / 0x100 % 16, w / 0x1000 % 16,
                       w / 0x1_0000 % 16, w / 0x10_0000 % 16, w / 0x100_0000 % 16, w / 0x1000_0000 % 16) == w
  {
    HighQuotients(w);
    FourNibbles(w);
    FourNibbles(w / 0x1_0000);
  }

  lemma NumberIsItsDigits(v: nat)
    ensures Weighted10(v % 10, v / 10 % 10, v / 100 % 10, v / 1000 % 10,
                       v / 10_000 % 10, v / 100_000 % 10, v / 1_000_000 % 10, v / 10_000_000 % 10) == v % INT_LIMIT
  {
    var high := v / 10_000;
    HighQuotients(v);
    FourDigits(v);
    FourDigits(high);
    Remainder(v, high / 10_000, v - INT_LIMIT * (high / 10_000));
  }

  lemma Remainder(v: nat, q: nat, r: int)
    requires v == INT_LIMIT * q + r && 0 <= r < INT_LIMIT
    ensures v % INT_LIMIT == r
  {
  }

  /** Coding a number and decoding it keeps its eight low digits. */
  lemma IntRoundTrip(v: nat)
    ensures IntToBcd(v) < WORD_LIMIT && Canonical(IntToBcd(v))
    ensures BcdToInt(IntToBcd(v)) == v % INT_LIMIT
  {
    hide Weighted16, Weighted10;
    NibblesOf(v % 10, v / 10 % 10, v / 100 % 10, v / 1000 % 10,
              v / 10_000 % 10, v / 100_000 % 10, v / 1_000_000 % 10, v / 10_000_000 % 10);
    NumberIsItsDigits(v);
  }

  /** Decoding a word and coding it again gives the word exactly when all its nibbles are decimal digits. */
  lemma BcdRoundTrip(w: nat)
    requires w < WORD_LIMIT
    ensures IntToBcd(BcdToInt(w)) == w <==> Canonical(w)
    ensures Canonical(w) ==> BcdToInt(w) < INT_LIMIT
  {
    hide Weighted16, Weighted10;
    if Canonical(w) {
      DigitsOf(w % 16, w / 0x10 % 16, w / 0x100 % 16, w / 0x1000 % 16,
               w / 0x1_0000 % 16, w / 0x10_0000 % 16, w / 0x100_0000 % 16, w / 0x1000_0000 % 16);
      WordIsItsNibbles(w);
    } else {
      hide Canonical;
      IntRoundTrip(BcdToInt(w));
    }
  }

  lemma ZeroQuotients(v: nat)
    requires v == 0
    ensures v / 0x10 == 0 && v / 0x100 == 0 && v / 0x1000 == 0 && v / 0x1_0000 == 0
    ensures v / 0x10_0000 == 0 && v / 0x100_0000 == 0 && v / 0x1000_0000 == 0
  {
  }

  lemma ZeroDecodes(v: nat)
    requires v == 0
    ensures BcdToInt(v) == 0
  {
    ZeroQuotients(v);
  }

  lemma ZeroIsCanonical(v: nat)
    requires v == 0
    ensures Canonical(v)
  {
    ZeroQuotients(v);
  }

  lemma ZeroWord()
    ensures IntToBcd(0) == 0 && BcdToInt(0) == 0
  {
    hide IntToBcd, BcdToInt, Canonical;
    ZeroDecodes(0);
    ZeroIsCanonical(0);
    BcdRoundTrip(0);
  }

  // ---- In numbers ----

  /** The nibbles of a coded number are its decimal digits, the last digit lowest. */
  lemma NibblesInNumbers(v: nat)
    ensures var w := IntToBcd(v);
            && w < 0x1_0000_0000
            && w % 16 == v % 10 && w / 0x10 % 16 == v / 10 % 10 && w / 0x100 % 16 == v / 100 % 10
            && w / 0x1000 % 16 == v / 1000 % 10 && w / 0x1_0000 % 16 == v / 10_000 % 10
            && w / 0x10_0000 % 16 == v / 100_000 % 10 && w / 0x100_0000 % 16 == v / 1_000_000 % 10
            && w / 0x1000_0000 % 16 == v / 10_000_000 % 10
  {
    hide Weighted16;
    IntRoundTrip(v);
    NibblesOf(v % 10, v / 10 % 10, v / 100 % 10, v / 1000 % 10,
              v / 10_000 % 10, v / 100_000 % 10, v / 1_000_000 % 10, v / 10_000_000 % 10);
  }

  /** A word decodes to its nibbles weighted by powers of ten, whether they are decimal or not. */
  lemma DigitsInNumbers(w: nat)
    ensures BcdToInt(w) ==
            w % 16 + 10 * (w / 0x10 % 16) + 100 * (w / 0x100 % 16) + 1000 * (w / 0x1000 % 16)
            + 10_000 * (w / 0x1_0000 % 16) + 100_000 * (w / 0x10_0000 % 16)
            + 1_000_000 * (w / 0x100_0000 % 16) + 10_000_000 * (w / 0x1000_0000 % 16)
  {
  }
}

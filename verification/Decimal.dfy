/** The three decimal bytes of an FT-60R frequency. */
module Decimal {
  import opened Bytes

  /** A frequency in Hz with at most nine digits: every frequency the parsers accept lies below 1 GHz. */
  type Hz = h: int | 0 <= h < 1_000_000_000

  /** The three bytes written by hz_to_freq. */
  function HzToFreq(hz: Hz): (bcd: seq<byte>)
    ensures |bcd| == 3
  {
    [(AsByte(hz / 2500 % 4) << 6) | AsByte(hz / 100_000_000 % 10),
     (AsByte(hz / 10_000_000 % 10) << 4) | AsByte(hz / 1_000_000 % 10),
     (AsByte(hz / 100_000 % 10) << 4) | AsByte(hz / 10_000 % 10)]
  }

  /** freq_to_hz: the digits, and two bits that count 2.5 kHz steps inside the last digit. */
  function FreqToHz(b0: byte, b1: byte, b2: byte): (hz: int)
    ensures 0 <= hz
  {
    (b0 & 15) as int * 100_000_000 +
    ((b1 >> 4) & 15) as int * 10_000_000 +
    (b1 & 15) as int * 1_000_000 +
    ((b2 >> 4) & 15) as int * 100_000 +
    (b2 & 15) as int * 10_000 +
    (b0 >> 6) as int * 2500
  }

  lemma Nibbles(hi: byte, lo: byte)
    requires hi & 0xf0 == 0 && lo & 0xf0 == 0
    ensures ((hi << 4) | lo) & 15 == lo
    ensures (((hi << 4) | lo) >> 4) & 15 == hi
  {
  }

  lemma DigitPair(x: int, y: int)
    requires 0 <= x < 16 && 0 <= y < 16
    ensures (((AsByte(x) << 4) | AsByte(y)) & 15) as int == y
    ensures ((((AsByte(x) << 4) | AsByte(y)) >> 4) & 15) as int == x
  {
    SmallByte(x);
    SmallByte(y);
    Nibbles(AsByte(x), AsByte(y));
  }

  lemma QuarterAndNibble(hi: byte, lo: byte)
    requires hi & 0xfc == 0 && lo & 0xf0 == 0
    ensures ((hi << 6) | lo) & 15 == lo
    ensures ((hi << 6) | lo) >> 6 == hi
  {
  }

  lemma QuarterAndDigit(x: int, y: int)
    requires 0 <= x < 4 && 0 <= y < 16
    ensures (((AsByte(x) << 6) | AsByte(y)) & 15) as int == y
    ensures (((AsByte(x) << 6) | AsByte(y)) >> 6) as int == x
  {
    SmallByte(x);
    SmallByte(y);
    QuarterAndNibble(AsByte(x), AsByte(y));
  }

  lemma FiveDigits(a: int)
    requires 0 <= a < 100_000
    ensures (a / 10_000 % 10) * 10_000 + (a / 1000 % 10) * 1000 + (a / 100 % 10) * 100
            + (a / 10 % 10) * 10 + a % 10 == a
  {
    assert a / 10 / 10 == a / 100;
    assert a / 100 / 10 == a / 1000;
    assert a / 1000 / 10 == a / 10_000;
  }

  /** The decimal digits of a frequency, and its quarter of a 10 kHz step, add up to it rounded down to 2.5 kHz. */
  lemma DigitsOfHz(hz: Hz)
    ensures (hz / 100_000_000 % 10) * 100_000_000 + (hz / 10_000_000 % 10) * 10_000_000 +
            (hz / 1_000_000 % 10) * 1_000_000 + (hz / 100_000 % 10) * 100_000 +
            (hz / 10_000 % 10) * 10_000 + (hz / 2500 % 4) * 2500 == hz - hz % 2500
  {
    var a := hz / 10_000;
    assert hz / 100_000 == a / 10;
    assert hz / 1_000_000 == a / 100;
    assert hz / 10_000_000 == a / 1000;
    assert hz / 100_000_000 == a / 10_000;
    assert hz / 2500 / 4 == a;
    FiveDigits(a);
  }

  /** The sum freq_to_hz forms from its six parts. */
  function DigitSum(q: int, d8: int, d7: int, d6: int, d5: int, d4: int): int {
    d8 * 100_000_000 + d7 * 10_000_000 + d6 * 1_000_000 + d5 * 100_000 + d4 * 10_000 + q * 2500
  }

  lemma DigitsReadBack(q: int, d8: int, d7: int, d6: int, d5: int, d4: int)
    requires 0 <= q < 4 && 0 <= d8 < 10 && 0 <= d7 < 10 && 0 <= d6 < 10 && 0 <= d5 < 10 && 0 <= d4 < 10
    ensures FreqToHz((AsByte(q) << 6) | AsByte(d8), (AsByte(d7) << 4) | AsByte(d6), (AsByte(d5) << 4) | AsByte(d4))
         == DigitSum(q, d8, d7, d6, d5, d4)
  {
    QuarterAndDigit(q, d8);
    DigitPair(d7, d6);
    DigitPair(d5, d4);
  }

  /** Writing a frequency and reading it back rounds down to a multiple of 2.5 kHz, and to nothing else. */
  lemma FreqRoundTrip(hz: Hz)
    ensures var b := HzToFreq(hz); FreqToHz(b[0], b[1], b[2]) == hz - hz % 2500
  {
    hide FreqToHz, AsByte, DigitSum;
    var q, d8, d7, d6, d5, d4 := hz / 2500 % 4, hz / 100_000_000 % 10, hz / 10_000_000 % 10,
                                 hz / 1_000_000 % 10, hz / 100_000 % 10, hz / 10_000 % 10;
    DigitsReadBack(q, d8, d7, d6, d5, d4);
    DigitSumOfHz(hz);
  }

  lemma DigitSumOfHz(hz: Hz)
    ensures DigitSum(hz / 2500 % 4, hz / 100_000_000 % 10, hz / 10_000_000 % 10, hz / 1_000_000 % 10,
                     hz / 100_000 % 10, hz / 10_000 % 10) == hz - hz % 2500
  {
    DigitsOfHz(hz);
  }

  /** The stored digits, each in its nibble, from 100 MHz down to 10 kHz; the 2.5 kHz steps are on top of the first. */
  lemma DigitsInNumbers(hz: Hz)
    ensures var b := HzToFreq(hz);
            && b[0] & 0x30 == 0
            && (b[0] >> 6) as int == hz / 2500 % 4 && (b[0] & 15) as int == hz / 100_000_000 % 10
            && (b[1] >> 4) as int == hz / 10_000_000 % 10 && (b[1] & 15) as int == hz / 1_000_000 % 10
            && (b[2] >> 4) as int == hz / 100_000 % 10 && (b[2] & 15) as int == hz / 10_000 % 10
  {
    QuarterAndDigit(hz / 2500 % 4, hz / 100_000_000 % 10);
    GapStaysClear(hz / 2500 % 4, hz / 100_000_000 % 10);
    DigitPair(hz / 10_000_000 % 10, hz / 1_000_000 % 10);
    DigitPair(hz / 100_000 % 10, hz / 10_000 % 10);
    HighNibble(HzToFreq(hz)[1]);
    HighNibble(HzToFreq(hz)[2]);
  }

  lemma GapStaysClear(x: int, y: int)
    requires 0 <= x < 4 && 0 <= y < 16
    ensures ((AsByte(x) << 6) | AsByte(y)) & 0x30 == 0
  {
    SmallByte(y);
    NoMiddle(AsByte(x), AsByte(y));
  }

  lemma NoMiddle(hi: byte, lo: byte)
    requires lo & 0xf0 == 0
    ensures ((hi << 6) | lo) & 0x30 == 0
  {
  }

  lemma HighNibble(b: byte)
    ensures (b >> 4) & 15 == b >> 4
  {
  }

  lemma DigitsRead(b0: byte, b1: byte, b2: byte)
    ensures FreqToHz(b0, b1, b2)
         == (b0 & 15) as int * 100_000_000 + (b1 >> 4) as int * 10_000_000 + (b1 & 15) as int * 1_000_000
            + (b2 >> 4) as int * 100_000 + (b2 & 15) as int * 10_000 + (b0 >> 6) as int * 2500
  {
    HighNibble(b1);
    HighNibble(b2);
  }
}

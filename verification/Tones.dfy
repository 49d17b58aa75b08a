/** The CTCSS and DCS tables, and the searches through them. */
module Tones {

  const NCTCSS := 50
  const NDCS := 104

  /** The tables keep the ten-to-a-row layout of the source. */
  const CTCSS_ROWS: seq<seq<int>> := [
    [ 670,  693,  719,  744,  770,  797,  825,  854,  885,  915],
    [ 948,  974, 1000, 1035, 1072, 1109, 1148, 1188, 1230, 1273],
    [1318, 1365, 1413, 1462, 1514, 1567, 1598, 1622, 1655, 1679],
    [1713, 1738, 1773, 1799, 1835, 1862, 1899, 1928, 1966, 1995],
    [2035, 2065, 2107, 2181, 2257, 2291, 2336, 2418, 2503, 2541]]

  const DCS_ROWS: seq<seq<int>> := [
    [ 23,  25,  26,  31,  32,  36,  43,  47,  51,  53],
    [ 54,  65,  71,  72,  73,  74, 114, 115, 116, 122],
    [125, 131, 132, 134, 143, 145, 152, 155, 156, 162],
    [165, 172, 174, 205, 212, 223, 225, 226, 243, 244],
    [245, 246, 251, 252, 255, 261, 263, 265, 266, 271],
    [274, 306, 311, 315, 325, 331, 332, 343, 346, 351],
    [356, 364, 365, 371, 411, 412, 413, 423, 431, 432],
    [445, 446, 452, 454, 455, 462, 464, 465, 466, 503],
    [506, 516, 523, 526, 532, 546, 565, 606, 612, 624],
    [627, 631, 632, 654, 662, 664, 703, 712, 723, 731],
    [732, 734, 743, 754]]

  function CtcssTone(i: nat): (tenths: int)
    requires i < NCTCSS
    ensures 0x258 <= tenths < 8000
  {
    CTCSS_ROWS[i / 10][i % 10]
  }

  function DcsCode(i: nat): (code: int)
    requires i < NDCS
    ensures 1 <= code < 999
  {
    DCS_ROWS[i / 10][i % 10]
  }

  lemma CtcssNext(i: nat)
    requires i + 1 < NCTCSS
    ensures CtcssTone(i) < CtcssTone(i + 1)
  {
    var q, r := i / 10, i % 10;
    if r < 9 {
      assert (i + 1) / 10 == q && (i + 1) % 10 == r + 1;
    } else {
      assert (i + 1) / 10 == q + 1 && (i + 1) % 10 == 0;
    }
  }

  lemma DcsInRow(q: nat, r: nat)
    requires 10 * q + r + 1 < NDCS && r < 9
    ensures DCS_ROWS[q][r] < DCS_ROWS[q][r + 1]
  {
  }

  lemma DcsAcrossRows(q: nat)
    requires q < 10
    ensures DCS_ROWS[q][9] < DCS_ROWS[q + 1][0]
  {
  }

  lemma DcsNext(i: nat)
    requires i + 1 < NDCS
    ensures DcsCode(i) < DcsCode(i + 1)
  {
    var q, r := i / 10, i % 10;
    if r < 9 {
      assert (i + 1) / 10 == q && (i + 1) % 10 == r + 1;
      DcsInRow(q, r);
    } else {
      assert (i + 1) / 10 == q + 1 && (i + 1) % 10 == 0;
      DcsAcrossRows(q);
    }
  }

  lemma {:induction false} CtcssIncreasing(i: nat, j: nat)
    requires i < j < NCTCSS
    ensures CtcssTone(i) < CtcssTone(j)
    decreases j
  {
    hide CtcssTone;
    CtcssNext(j - 1);
    if i == j - 1 {
    } else {
      CtcssIncreasing(i, j - 1);
    }
  }

  lemma {:induction false} DcsIncreasing(i: nat, j: nat)
    requires i < j < NDCS
    ensures DcsCode(i) < DcsCode(j)
    decreases j
  {
    hide DcsCode;
    DcsNext(j - 1);
    if i == j - 1 {
    } else {
      DcsIncreasing(i, j - 1);
    }
  }

  /** Both tables are injective: a tone or a code names one index. */
  lemma CtcssInjective(i: nat, j: nat)
    requires i < NCTCSS && j < NCTCSS && CtcssTone(i) == CtcssTone(j)
    ensures i == j
  {
    if i < j { CtcssIncreasing(i, j); } else if j < i { CtcssIncreasing(j, i); }
  }

  lemma DcsInjective(i: nat, j: nat)
    requires i < NDCS && j < NDCS && DcsCode(i) == DcsCode(j)
    ensures i == j
  {
    if i < j { DcsIncreasing(i, j); } else if j < i { DcsIncreasing(j, i); }
  }

  ghost predicate IsTone(val: int) {
    exists i: nat :: i < NCTCSS && CtcssTone(i) == val
  }

  ghost predicate IsCode(val: int) {
    exists i: nat :: i < NDCS && DcsCode(i) == val
  }

  /** encode_tone on a tone already rounded to tenths of a hertz: its index, or -1. */
  method FindTone(val: nat) returns (index: int)
    ensures index == ToneIndex(val)
  {
    hide CtcssTone;
    if val < 0x258 {
      NotInTable(val);
      return -1;
    }
    for i := 0 to NCTCSS
      invariant forall j: nat :: j < i ==> CtcssTone(j) != val
    {
      if CtcssTone(i) == val {
        ToneIndexIs(i);
        return i;
      }
    }
    assert !IsTone(val);
    return -1;
  }

  /** encode_dcs: the index of a DCS code, or -1. */
  method FindCode(val: nat) returns (index: int)
    ensures index == CodeIndex(val)
  {
    hide DcsCode;
    for i := 0 to NDCS
      invariant forall j: nat :: j < i ==> DcsCode(j) != val
    {
      if DcsCode(i) == val {
        CodeIndexIs(i);
        return i;
      }
    }
    assert !IsCode(val);
    return -1;
  }

  lemma NotInTable(val: nat)
    requires val < 0x258
    ensures !IsTone(val)
  {
  }

  /** The index the searches return; the tables being injective, there is at most one. */
  ghost function ToneIndex(val: nat): (index: int)
    ensures -1 <= index < NCTCSS
    ensures index >= 0 <==> IsTone(val)
    ensures index >= 0 ==> CtcssTone(index) == val
  {
    if IsTone(val) then var i: nat :| i < NCTCSS && CtcssTone(i) == val; i else -1
  }

  ghost function CodeIndex(val: nat): (index: int)
    ensures -1 <= index < NDCS
    ensures index >= 0 <==> IsCode(val)
    ensures index >= 0 ==> DcsCode(index) == val
  {
    if IsCode(val) then var i: nat :| i < NDCS && DcsCode(i) == val; i else -1
  }

  lemma ToneIndexIs(i: nat)
    requires i < NCTCSS
    ensures ToneIndex(CtcssTone(i)) == i
  {
    CtcssInjective(i, ToneIndex(CtcssTone(i)));
  }

  lemma CodeIndexIs(i: nat)
    requires i < NDCS
    ensures CodeIndex(DcsCode(i)) == i
  {
    DcsInjective(i, CodeIndex(DcsCode(i)));
  }

  // ---- In numbers ----

  /** The fifty tones, in tenths of a hertz. */
  lemma TonesInNumbers()
    ensures CtcssTone(0) == 670 && CtcssTone(1) == 693 && CtcssTone(2) == 719 && CtcssTone(3) == 744
    ensures CtcssTone(4) == 770 && CtcssTone(5) == 797 && CtcssTone(6) == 825 && CtcssTone(7) == 854
    ensures CtcssTone(8) == 885 && CtcssTone(9) == 915 && CtcssTone(10) == 948 && CtcssTone(11) == 974
    ensures CtcssTone(12) == 1000 && CtcssTone(13) == 1035 && CtcssTone(14) == 1072 && CtcssTone(15) == 1109
    ensures CtcssTone(16) == 1148 && CtcssTone(17) == 1188 && CtcssTone(18) == 1230 && CtcssTone(19) == 1273
    ensures CtcssTone(20) == 1318 && CtcssTone(21) == 1365 && CtcssTone(22) == 1413 && CtcssTone(23) == 1462
    ensures CtcssTone(24) == 1514 && CtcssTone(25) == 1567 && CtcssTone(26) == 1598 && CtcssTone(27) == 1622
    ensures CtcssTone(28) == 1655 && CtcssTone(29) == 1679 && CtcssTone(30) == 1713 && CtcssTone(31) == 1738
    ensures CtcssTone(32) == 1773 && CtcssTone(33) == 1799 && CtcssTone(34) == 1835 && CtcssTone(35) == 1862
    ensures CtcssTone(36) == 1899 && CtcssTone(37) == 1928 && CtcssTone(38) == 1966 && CtcssTone(39) == 1995
    ensures CtcssTone(40) == 2035 && CtcssTone(41) == 2065 && CtcssTone(42) == 2107 && CtcssTone(43) == 2181
    ensures CtcssTone(44) == 2257 && CtcssTone(45) == 2291 && CtcssTone(46) == 2336 && CtcssTone(47) == 2418
    ensures CtcssTone(48) == 2503 && CtcssTone(49) == 2541
  {
  }

  /** The codes in the order of their indices, in two halves. */
  lemma LowCodesInNumbers()
    ensures DcsCode(0) == 23 && DcsCode(1) == 25 && DcsCode(2) == 26 && DcsCode(3) == 31
    ensures DcsCode(4) == 32 && DcsCode(5) == 36 && DcsCode(6) == 43 && DcsCode(7) == 47
    ensures DcsCode(8) == 51 && DcsCode(9) == 53 && DcsCode(10) == 54 && DcsCode(11) == 65
    ensures DcsCode(12) == 71 && DcsCode(13) == 72 && DcsCode(14) == 73 && DcsCode(15) == 74
    ensures DcsCode(16) == 114 && DcsCode(17) == 115 && DcsCode(18) == 116 && DcsCode(19) == 122
    ensures DcsCode(20) == 125 && DcsCode(21) == 131 && DcsCode(22) == 132 && DcsCode(23) == 134
    ensures DcsCode(24) == 143 && DcsCode(25) == 145 && DcsCode(26) == 152 && DcsCode(27) == 155
    ensures DcsCode(28) == 156 && DcsCode(29) == 162 && DcsCode(30) == 165 && DcsCode(31) == 172
    ensures DcsCode(32) == 174 && DcsCode(33) == 205 && DcsCode(34) == 212 && DcsCode(35) == 223
    ensures DcsCode(36) == 225 && DcsCode(37) == 226 && DcsCode(38) == 243 && DcsCode(39) == 244
    ensures DcsCode(40) == 245 && DcsCode(41) == 246 && DcsCode(42) == 251 && DcsCode(43) == 252
    ensures DcsCode(44) == 255 && DcsCode(45) == 261 && DcsCode(46) == 263 && DcsCode(47) == 265
    ensures DcsCode(48) == 266 && DcsCode(49) == 271 && DcsCode(50) == 274 && DcsCode(51) == 306
  {
  }

  lemma HighCodesInNumbers()
    ensures DcsCode(52) == 311 && DcsCode(53) == 315 && DcsCode(54) == 325 && DcsCode(55) == 331
    ensures DcsCode(56) == 332 && DcsCode(57) == 343 && DcsCode(58) == 346 && DcsCode(59) == 351
    ensures DcsCode(60) == 356 && DcsCode(61) == 364 && DcsCode(62) == 365 && DcsCode(63) == 371
    ensures DcsCode(64) == 411 && DcsCode(65) == 412 && DcsCode(66) == 413 && DcsCode(67) == 423
    ensures DcsCode(68) == 431 && DcsCode(69) == 432 && DcsCode(70) == 445 && DcsCode(71) == 446
    ensures DcsCode(72) == 452 && DcsCode(73) == 454 && DcsCode(74) == 455 && DcsCode(75) == 462
    ensures DcsCode(76) == 464 && DcsCode(77) == 465 && DcsCode(78) == 466 && DcsCode(79) == 503
    ensures DcsCode(80) == 506 && DcsCode(81) == 516 && DcsCode(82) == 523 && DcsCode(83) == 526
    ensures DcsCode(84) == 532 && DcsCode(85) == 546 && DcsCode(86) == 565 && DcsCode(87) == 606
    ensures DcsCode(88) == 612 && DcsCode(89) == 624 && DcsCode(90) == 627 && DcsCode(91) == 631
    ensures DcsCode(92) == 632 && DcsCode(93) == 654 && DcsCode(94) == 662 && DcsCode(95) == 664
    ensures DcsCode(96) == 703 && DcsCode(97) == 712 && DcsCode(98) == 723 && DcsCode(99) == 731
    ensures DcsCode(100) == 732 && DcsCode(101) == 734 && DcsCode(102) == 743 && DcsCode(103) == 754
  {
  }
}

/** Words of the FT-60R configuration that are printed by one function and parsed by another. */
module Ft60rTexts {
  import opened ConfigText
  import opened Ft60rImage
  import opened Ft60rConfig

  // ---- Banks ----

  /** The digit format_banks prints for bank `b`, and the bank encode_banks takes that digit for. */
  function BankDigit(b: nat): char
    requires b < NBANKS
  {
    "1234567890"[b]
  }

  function NextBank(b: nat): (n: nat)
    requires b < NBANKS
    ensures n < NBANKS
  {
    (b + 1) % NBANKS
  }

  predicate BankSet(banks: set<nat>) {
    forall b :: b in banks ==> b < NBANKS
  }

  /** The digits of the banks below `n`. */
  function Digits(banks: set<nat>, n: nat): (s: string)
    requires n <= NBANKS
    ensures |s| <= n
  {
    if n == 0 then ""
    else Digits(banks, n - 1) + if n - 1 in banks then [BankDigit(n - 1)] else ""
  }

  /** format_banks. */
  function FormatBanks(banks: set<nat>): string {
    var s := Digits(banks, NBANKS);
    if s == "" then "-" else s
  }

  method PrintBanks(banks: set<nat>) returns (s: string)
    ensures s == FormatBanks(banks)
  {
    s := "";
    for b := 0 to NBANKS
      invariant s == Digits(banks, b)
    {
      if b in banks {
        s := s + ["1234567890"[b]];
      }
    }
    if s == "" {
      s := "-";
    }
  }

  function Rotated(banks: set<nat>): set<nat> {
    set b: nat | b in banks && b < NBANKS :: NextBank(b)
  }

  lemma DigitIsNext(b: nat)
    requires b < NBANKS
    ensures IsDigit(BankDigit(b)) && (BankDigit(b) - '0') as nat == NextBank(b) && BankDigit(b) != '-'
  {
  }

  lemma {:induction false} DigitOfSome(banks: set<nat>, n: nat, k: nat) returns (b: nat)
    requires n <= NBANKS && k < |Digits(banks, n)|
    ensures b < n && b in banks && Digits(banks, n)[k] == BankDigit(b)
  {
    hide BankDigit;
    if k < |Digits(banks, n - 1)| {
      b := DigitOfSome(banks, n - 1, k);
    } else {
      b := n - 1;
    }
  }

  lemma {:induction false} SomeDigit(banks: set<nat>, n: nat, b: nat)
    requires b < n <= NBANKS && b in banks
    ensures BankDigit(b) in Digits(banks, n)
  {
    hide BankDigit;
    if b == n - 1 {
    } else {
      SomeDigit(banks, n - 1, b);
    }
  }

  /** A printed bank word is always accepted, and moves every bank up by one, the last to the first. */
  lemma PrintedBanksParse(banks: set<nat>)
    requires BankSet(banks)
    ensures BanksOf(FormatBanks(banks)) == Some(Rotated(banks))
  {
    hide BankDigit, NextBank, Digits;
    var s := Digits(banks, NBANKS);
    forall k | 0 <= k < |s|
      ensures IsDigit(s[k]) && s[k] != '-' && (s[k] - '0') as nat in Rotated(banks)
    {
      var b := DigitOfSome(banks, NBANKS, k);
      DigitIsNext(b);
    }
    forall x | x in Rotated(banks)
      ensures exists k :: 0 <= k < |s| && IsDigit(s[k]) && (s[k] - '0') as nat == x
    {
      var b: nat :| b in banks && b < NBANKS && x == NextBank(b);
      SomeDigit(banks, NBANKS, b);
      DigitIsNext(b);
      var k :| 0 <= k < |s| && s[k] == BankDigit(b);
    }
    var parsed := set k | 0 <= k < |s| && IsDigit(s[k]) :: (s[k] - '0') as nat;
    assert Rotated(banks) == parsed;
    if s == "" {
      assert FormatBanks(banks) == "-" && parsed == {};
    } else {
      assert FormatBanks(banks) == s && s[0] != '-';
    }
  }

  predicate Closed(banks: set<nat>) {
    forall b: nat :: b < NBANKS && b in banks ==> NextBank(b) in banks
  }

  lemma RotatedIsClosed(banks: set<nat>)
    requires Rotated(banks) == banks
    ensures Closed(banks)
  {
    hide NextBank;
    forall b: nat | b < NBANKS && b in banks
      ensures NextBank(b) in banks
    {
      assert NextBank(b) in Rotated(banks);
    }
  }

  lemma NextBankIs(b: nat)
    requires b < NBANKS
    ensures NextBank(b) == if b == NBANKS - 1 then 0 else b + 1
  {
  }

  lemma {:induction false} ClosedUpwards(banks: set<nat>, b: nat, c: nat)
    requires Closed(banks) && b in banks && b <= c < NBANKS
    ensures c in banks
    decreases c
  {
    hide NextBank;
    if b == c {
    } else {
      ClosedUpwards(banks, b, c - 1);
      NextBankIs(c - 1);
    }
  }

  lemma ClosedHoldsAll(banks: set<nat>, b: nat, c: nat)
    requires Closed(banks) && b in banks && b < NBANKS && c < NBANKS
    ensures c in banks
  {
    hide NextBank;
    ClosedUpwards(banks, b, NBANKS - 1);
    NextBankIs(NBANKS - 1);
    ClosedUpwards(banks, 0, c);
  }

  lemma AllRotates(banks: set<nat>)
    requires BankSet(banks) && forall b: nat :: b < NBANKS ==> b in banks
    ensures Rotated(banks) == banks
  {
    forall x | x in banks
      ensures x in Rotated(banks)
    {
      var b := if x == 0 then NBANKS - 1 else x - 1;
      assert b in banks && NextBank(b) == x;
    }
  }

  /** The printed word means the banks it was printed from only when there are none, or all ten. */
  lemma BanksSurviveExactly(banks: set<nat>)
    requires BankSet(banks)
    ensures BanksOf(FormatBanks(banks)) == Some(banks)
            <==> banks == {} || forall b: nat :: b < NBANKS ==> b in banks
  {
    hide FormatBanks, BanksOf, NextBank, Closed;
    PrintedBanksParse(banks);
    if Rotated(banks) == banks && banks != {} {
      RotatedIsClosed(banks);
      var b :| b in banks;
      forall c: nat | c < NBANKS
        ensures c in banks
      {
        ClosedHoldsAll(banks, b, c);
      }
    }
    if forall b: nat :: b < NBANKS ==> b in banks {
      AllRotates(banks);
    }
  }

  /** For example, a channel of the first bank alone is put into the second. */
  lemma FirstBankBecomesSecond()
    ensures BanksOf(FormatBanks({0})) == Some({1})
  {
    hide FormatBanks, BanksOf;
    PrintedBanksParse({0});
    assert Rotated({0}) == {1};
  }

  // ---- Power and scan ----

  function PowerName(power: nat): string
    requires power < 4
  {
    match power
    case 0 => "High"
    case 1 => "Med"
    case 2 => "Low"
    case 3 => "??"
  }

  function ScanName(scan: nat): string
    requires scan < 4
  {
    match scan
    case 0 => "+"
    case 1 => "-"
    case 2 => "Only"
    case 3 => "??"
  }

  /** Of the power words only High and Low are read as printed: the middle level has two names. */
  lemma PowerSurvivesExactly(power: nat)
    requires power < 4
    ensures PowerOf(PowerName(power)) == Some(power) <==> power == 0 || power == 2
  {
    assert SameWord("High", "High") && SameWord("Low", "Low");
    assert |Folded("High")| == 4 && |Folded("??")| == 2;
    assert Folded("Mid")[0] == 'm' && Folded("Low")[0] == 'l' && Folded("Med")[0] == 'm';
    assert Folded("Mid")[1] == 'i' && Folded("Med")[1] == 'e';
  }

  lemma ScanSurvives(scan: nat)
    requires scan < 4
    ensures ScanOf(ScanName(scan)) == Some(scan) <==> scan < 3
  {
    assert SameWord("Only", "Only");
    assert |"Only"| == 4 && |"??"| == 2;
  }
}

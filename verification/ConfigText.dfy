/** Lines of a configuration file, as radio_parse_config takes them apart. */
module ConfigText {

  /** What one line turns out to be. */
  datatype Item =
    | Nothing
    | Header(text: string)
    | Parameter(name: string, value: string)
    | Row(text: string)

  /** The part of a string before the first `c`; all of it when there is none. */
  function Before(s: string, c: char): (t: string)
    ensures |t| <= |s| && t == s[..|t|]
    ensures forall k :: 0 <= k < |t| ==> s[k] != c
    ensures |t| < |s| ==> s[|t|] == c
  {
    if s == "" || s[0] == c then "" else [s[0]] + Before(s[1..], c)
  }

  predicate IsTrailing(c: char) {
    c == '\n' || c == '\r' || c == ' ' || c == '\t'
  }

  predicate IsBlank(c: char) {
    c == ' ' || c == '\t'
  }

  function TrimEnd(s: string): (t: string)
    ensures |t| <= |s| && t == s[..|t|]
    ensures t != "" ==> !IsTrailing(t[|t| - 1])
    ensures forall k :: |t| <= k < |s| ==> IsTrailing(s[k])
  {
    if s != "" && IsTrailing(s[|s| - 1]) then TrimEnd(s[..|s| - 1]) else s
  }

  function TrimStart(s: string): (t: string)
    ensures |t| <= |s| && t == s[|s| - |t|..]
    ensures t != "" ==> !IsBlank(t[0])
  {
    if s != "" && IsBlank(s[0]) then TrimStart(s[1..]) else s
  }

  function Classify(line: string): Item {
    var p := TrimEnd(Before(line, '#'));
    if p == "" then Nothing
    else if p[0] != ' ' then
      var name := Before(p, ':');
      if name == p then Header(p) else Parameter(name, TrimStart(p[|name| + 1..]))
    else
      Row(TrimStart(p))
  }

  /** A row is never empty: the two checks for an empty or commented row in the source never fire. */
  lemma RowsAreNotEmpty(line: string)
    requires Classify(line).Row?
    ensures var t := Classify(line).text; t != "" && t[0] != ' ' && t[0] != '\t' && '#' !in t
  {
    hide TrimEnd, TrimStart, Before;
    var b := Before(line, '#');
    var p := TrimEnd(b);
    LastSurvivesTrimStart(p);
    var t := TrimStart(p);
    forall k | 0 <= k < |t|
      ensures t[k] != '#'
    {
      assert t[k] == p[|p| - |t| + k] == b[|p| - |t| + k];
    }
  }

  lemma {:induction false} LastSurvivesTrimStart(p: string)
    requires p != "" && !IsTrailing(p[|p| - 1])
    ensures TrimStart(p) != ""
  {
    if IsBlank(p[0]) {
      LastSurvivesTrimStart(p[1..]);
    }
  }

  /** strchr: the index of the first `c`, or the length. */
  method IndexOf(s: string, c: char) returns (i: nat)
    ensures i == |Before(s, c)|
  {
    i := 0;
    while i < |s| && s[i] != c
      invariant i <= |s|
      invariant |Before(s, c)| == i + |Before(s[i..], c)|
    {
      assert s[i..][1..] == s[i + 1..];
      i := i + 1;
    }
  }

  method StripEnd(s: string) returns (t: string)
    ensures t == TrimEnd(s)
  {
    var n: nat := |s|;
    while n > 0 && IsTrailing(s[n - 1])
      invariant n <= |s|
      invariant TrimEnd(s) == TrimEnd(s[..n])
    {
      assert s[..n][..n - 1] == s[..n - 1];
      n := n - 1;
    }
    t := s[..n];
  }

  method SkipBlanks(s: string) returns (t: string)
    ensures t == TrimStart(s)
  {
    var i := 0;
    while i < |s| && IsBlank(s[i])
      invariant i <= |s|
      invariant TrimStart(s) == TrimStart(s[i..])
    {
      i := i + 1;
    }
    t := s[i..];
  }

  /** Taking one line apart. */
  method ReadLine(line: string) returns (item: Item)
    ensures item == Classify(line)
  {
    var n := IndexOf(line, '#');
    var p := StripEnd(line[..n]);
    if p == "" {
      return Nothing;
    }
    if p[0] != ' ' {
      var c := IndexOf(p, ':');
      if c == |p| {
        return Header(p);
      }
      var value := SkipBlanks(p[c + 1..]);
      return Parameter(p[..c], value);
    }
    var row := SkipBlanks(p);
    return Row(row);
  }

  // ---- Comparison without case ----

  function Lower(c: char): char {
    if 'A' <= c <= 'Z' then c - 'A' + 'a' else c
  }

  function Folded(s: string): (t: string)
    ensures |t| == |s|
  {
    seq(|s|, k requires 0 <= k < |s| => Lower(s[k]))
  }

  /** strcasecmp(s, t) == 0. */
  predicate SameWord(s: string, t: string) {
    Folded(s) == Folded(t)
  }

  /** strncasecmp(line, word, strlen(word)) == 0. */
  predicate StartsWith(line: string, word: string) {
    |word| <= |line| && SameWord(line[..|word|], word)
  }

  // ---- In characters ----

  /** Two words are the same when they differ only in the case of letters. */
  lemma SameWordInLetters(s: string, t: string)
    ensures SameWord(s, t) <==>
            && |s| == |t|
            && forall k :: 0 <= k < |s| ==>
                 || s[k] == t[k]
                 || ('A' <= s[k] <= 'Z' && t[k] as int == s[k] as int + 32)
                 || ('A' <= t[k] <= 'Z' && s[k] as int == t[k] as int + 32)
  {
    if |s| == |t| {
      forall k | 0 <= k < |s|
        ensures Lower(s[k]) == Lower(t[k]) <==>
                || s[k] == t[k]
                || ('A' <= s[k] <= 'Z' && t[k] as int == s[k] as int + 32)
                || ('A' <= t[k] <= 'Z' && s[k] as int == t[k] as int + 32)
      {
      }
      if Folded(s) == Folded(t) {
        forall k | 0 <= k < |s|
          ensures Lower(s[k]) == Lower(t[k])
        {
          assert Folded(s)[k] == Folded(t)[k];
        }
      }
    }
  }

  /** `n` is where the text of a line ends: before the comment and the blanks and line ends in front of it. */
  predicate TextEnds(line: string, n: nat) {
    exists c ::
      && n <= c <= |line| && (c == |line| || line[c] == '#')
      && (forall k :: 0 <= k < c ==> line[k] != '#')
      && (forall k :: n <= k < c ==> line[k] in {'\n', '\r', ' ', '\t'})
      && (n == 0 || line[n - 1] !in {'\n', '\r', ' ', '\t'})
  }

  lemma {:induction false} BeforeIs(s: string, c: char, n: nat)
    requires n <= |s| && (forall k :: 0 <= k < n ==> s[k] != c) && (n == |s| || s[n] == c)
    ensures Before(s, c) == s[..n]
  {
    if n == 0 {
      assert s[..0] == "";
    } else {
      BeforeIs(s[1..], c, n - 1);
      assert s[..n] == [s[0]] + s[1..][..n - 1];
    }
  }

  lemma TextIs(line: string, n: nat)
    requires TextEnds(line, n)
    ensures n <= |line| && TrimEnd(Before(line, '#')) == line[..n]
  {
    hide Before, TrimEnd;
    var c :| n <= c <= |line| && (c == |line| || line[c] == '#')
             && (forall k :: 0 <= k < c ==> line[k] != '#')
             && (forall k :: n <= k < c ==> line[k] in {'\n', '\r', ' ', '\t'})
             && (n == 0 || line[n - 1] !in {'\n', '\r', ' ', '\t'});
    BeforeIs(line, '#', c);
    TrimmedEndIs(line[..c], n);
    assert line[..c][..n] == line[..n];
  }

  lemma {:induction false} TrimmedEndIs(s: string, n: nat)
    requires n <= |s| && (forall k :: n <= k < |s| ==> IsTrailing(s[k])) && (n == 0 || !IsTrailing(s[n - 1]))
    ensures TrimEnd(s) == s[..n]
    decreases |s|
  {
    if n == |s| {
      assert s[..n] == s;
    } else {
      TrimmedEndIs(s[..|s| - 1], n);
      assert s[..|s| - 1][..n] == s[..n];
    }
  }

  /** `v` is the first place from `from` on that is neither a blank nor a tab, or the end of the text. */
  predicate Skips(line: string, from: nat, v: nat, n: nat)
    requires n <= |line|
  {
    && from <= v <= n && (forall k :: from <= k < v ==> line[k] == ' ' || line[k] == '\t')
    && (v < n ==> line[v] != ' ' && line[v] != '\t')
  }

  lemma SkippedIs(line: string, from: nat, v: nat, n: nat)
    requires n <= |line| && Skips(line, from, v, n)
    ensures TrimStart(line[from..n]) == line[v..n]
  {
    TrimmedIs(line[from..n], v - from);
  }

  lemma {:induction false} TrimmedIs(s: string, i: nat)
    requires i <= |s| && (forall k :: 0 <= k < i ==> s[k] == ' ' || s[k] == '\t')
    requires i < |s| ==> s[i] != ' ' && s[i] != '\t'
    ensures TrimStart(s) == s[i..]
  {
    if i == 0 {
      assert s[0..] == s;
    } else {
      TrimmedIs(s[1..], i - 1);
      assert s[1..][i - 1..] == s[i..];
    }
  }

  /** A line without text is nothing; one that does not begin with a blank and has no colon is a header. */
  lemma HeaderLine(line: string, n: nat)
    requires TextEnds(line, n)
    ensures n <= |line| && (n == 0 <==> Classify(line).Nothing?)
    ensures n > 0 && line[0] != ' ' && ':' !in line[..n] ==> Classify(line) == Header(line[..n])
  {
    hide TrimEnd, TrimStart, Before;
    TextIs(line, n);
    if ':' !in line[..n] {
      BeforeIs(line[..n], ':', n);
    }
  }

  lemma NameIs(line: string, n: nat, j: nat)
    requires j < n <= |line| && line[j] == ':' && ':' !in line[..j]
    ensures Before(line[..n], ':') == line[..j]
  {
    forall k | 0 <= k < j
      ensures line[..n][k] != ':'
    {
      assert line[..j][k] == line[k];
    }
    BeforeIs(line[..n], ':', j);
    assert line[..n][..j] == line[..j];
  }

  /** With a colon at `j`, the first one, it is a parameter: a name and a value without blanks in front. */
  lemma ParameterLine(line: string, n: nat, j: nat, v: nat)
    requires TextEnds(line, n) && j < n <= |line| && line[0] != ' '
    requires line[j] == ':' && ':' !in line[..j] && Skips(line, j + 1, v, n)
    ensures Classify(line) == Parameter(line[..j], line[v..n])
  {
    TextIs(line, n);
    SkippedIs(line, j + 1, v, n);
    NameIs(line, n, j);
    hide TrimEnd, TrimStart, Before, TextEnds, Skips;
    assert line[..n][j + 1..] == line[j + 1..n] && line[..j] != line[..n];
  }

  /** A line that begins with a blank is a row, without the blanks in front. */
  lemma RowLine(line: string, n: nat, v: nat)
    requires TextEnds(line, n) && 0 < n <= |line| && line[0] == ' ' && Skips(line, 0, v, n)
    ensures Classify(line) == Row(line[v..n])
  {
    hide TrimEnd, TrimStart, Before;
    TextIs(line, n);
    SkippedIs(line, 0, v, n);
    assert line[0..n] == line[..n];
  }
}

/** The binary-to-shell-script printer, and a reader of its scripts built on the escape decoder. */
module Shbin {
  import opened Unescape

  const BUF_SIZE: nat := 64
  const QUOTE: octet := 34

  function Text(s: string): (r: seq<octet>)
    requires forall k :: 0 <= k < |s| ==> s[k] < 256 as char
    ensures |r| == |s| && forall k :: 0 <= k < |s| ==> r[k] == s[k] as int
  {
    seq(|s|, k requires 0 <= k < |s| => s[k] as int)
  }

  function Header(): seq<octet> { Text("#!/bin/sh\n\n") }

  function Open(): seq<octet> { Text("echo -ne \"") }

  function Close(): seq<octet> { Text("\";\n") }

  /** The format "\\%.4hho": a backslash and four octal digits, the first of them always zero. */
  function Printed(b: octet): (r: seq<octet>)
    ensures |r| == 5
  {
    [BACKSLASH, Ascii('0'), Ascii('0') + b / 64, Ascii('0') + b / 8 % 8, Ascii('0') + b % 8]
  }

  function Body(chunk: seq<octet>): seq<octet> {
    if chunk == [] then [] else Printed(chunk[0]) + Body(chunk[1..])
  }

  function Line(chunk: seq<octet>): seq<octet> {
    Open() + Body(chunk) + Close()
  }

  /** The lines of the script: full chunks, then the first short one, which may be empty. */
  function Lines(data: seq<octet>): seq<octet> {
    if |data| < BUF_SIZE then Line(data) else Line(data[..BUF_SIZE]) + Lines(data[BUF_SIZE..])
  }

  method PrintChunk(chunk: seq<octet>) returns (out: seq<octet>)
    ensures out == Line(chunk)
  {
    hide Open, Close, Printed;
    out := Open();
    var i := 0;
    while i < |chunk|
      invariant i <= |chunk|
      invariant out + Body(chunk[i..]) == Open() + Body(chunk)
    {
      assert chunk[i..][1..] == chunk[i + 1..];
      assert out + (Printed(chunk[i]) + Body(chunk[i + 1..])) == out + Printed(chunk[i]) + Body(chunk[i + 1..]);
      out := out + Printed(chunk[i]);
      i := i + 1;
    }
    assert out + Body([]) == out;
    out := out + Close();
  }

  // ---- Reading a script back ----

  datatype Output = Bad | Good(bytes: seq<octet>)

  /** The index of the first quote. */
  function ToQuote(s: seq<octet>): (n: nat)
    ensures n <= |s|
  {
    if s == [] || s[0] == QUOTE then 0 else 1 + ToQuote(s[1..])
  }

  /** Runs a sequence of `echo -ne "...";` lines: each prints its decoded argument. */
  function RunLines(s: seq<octet>): Output {
    if s == [] then Good([])
    else if !(Open() <= s) then Bad
    else
      var n := ToQuote(s[|Open()|..]);
      var argument, rest := s[|Open()|..|Open()| + n], s[|Open()| + n..];
      if !(Close() <= rest) then Bad
      else
        match RunLines(rest[|Close()|..])
        case Bad => Bad
        case Good(bytes) => Good(Decode(argument) + bytes)
  }

  lemma OctalDigits(b: octet)
    ensures 0 <= b / 64 < 4 && 0 <= b / 8 % 8 < 8 && 0 <= b % 8 < 8
    ensures 8 * (8 * (b / 64) + b / 8 % 8) + b % 8 == b
  {
  }

  lemma FourDigits(s: seq<octet>, h: octet, m: octet, l: octet)
    requires |s| >= 5 && h < 4 && m < 8 && l < 8
    requires s[0] == BACKSLASH && s[1] == Ascii('0')
    requires s[2] == Ascii('0') + h && s[3] == Ascii('0') + m && s[4] == Ascii('0') + l
    ensures Next(s) == Token([8 * (8 * h + m) + l], 5)
  {
  }

  /** One printed byte decodes to itself, whatever comes after it: at most three digits follow the zero. */
  lemma PrintedDecodes(b: octet, rest: seq<octet>)
    ensures Decode(Printed(b) + rest) == [b] + Decode(rest)
  {
    var s := Printed(b) + rest;
    hide Next;
    OctalDigits(b);
    FourDigits(s, b / 64, b / 8 % 8, b % 8);
    assert s[5..] == rest;
  }

  lemma {:induction false} BodyDecodes(chunk: seq<octet>, rest: seq<octet>)
    ensures Decode(Body(chunk) + rest) == chunk + Decode(rest)
  {
    hide Printed, Decode;
    if chunk == [] {
      assert Body(chunk) + rest == rest;
    } else {
      assert Body(chunk) + rest == Printed(chunk[0]) + (Body(chunk[1..]) + rest);
      PrintedDecodes(chunk[0], Body(chunk[1..]) + rest);
      BodyDecodes(chunk[1..], rest);
      assert chunk == [chunk[0]] + chunk[1..];
    }
  }

  lemma {:induction false} BodyHasNoQuote(chunk: seq<octet>)
    ensures QUOTE !in Body(chunk)
  {
    if chunk == [] {
    } else {
      BodyHasNoQuote(chunk[1..]);
    }
  }

  lemma {:induction false} QuoteAfter(s: seq<octet>, rest: seq<octet>)
    requires QUOTE !in s && rest != [] && rest[0] == QUOTE
    ensures ToQuote(s + rest) == |s|
  {
    if s == [] {
      assert s + rest == rest;
    } else {
      assert (s + rest)[1..] == s[1..] + rest;
      QuoteAfter(s[1..], rest);
    }
  }

  lemma RunOne(argument: seq<octet>, rest: seq<octet>)
    requires QUOTE !in argument
    ensures RunLines(Open() + (argument + (Close() + rest))) ==
            match RunLines(rest) case Bad => Bad case Good(bytes) => Good(Decode(argument) + bytes)
  {
    assert Close()[0] == QUOTE && |Open()| > 0;
    hide Open, Close, Decode, Text;
    var tail := Close() + rest;
    var s := Open() + (argument + tail);
    assert Open() <= s;
    assert s[|Open()|..] == argument + tail;
    QuoteAfter(argument, tail);
    assert s[|Open()|..|Open()| + |argument|] == argument;
    assert s[|Open()| + |argument|..] == tail;
    assert tail[|Close()|..] == rest;
  }

  lemma RunLine(chunk: seq<octet>, rest: seq<octet>)
    ensures RunLines(Line(chunk) + rest) ==
            match RunLines(rest) case Bad => Bad case Good(bytes) => Good(chunk + bytes)
  {
    NothingDecodes();
    hide Open, Close, Decode, Body, RunLines;
    assert Line(chunk) + rest == Open() + (Body(chunk) + (Close() + rest));
    BodyHasNoQuote(chunk);
    RunOne(Body(chunk), rest);
    BodyDecodes(chunk, []);
    assert Body(chunk) + [] == Body(chunk);
    assert chunk + [] == chunk;
  }

  lemma NothingDecodes()
    ensures Decode([]) == []
  {
  }

  /** Running the printed script prints the file, every byte of it, zero bytes included. */
  lemma {:induction false} ScriptPrintsFile(data: seq<octet>)
    ensures RunLines(Lines(data)) == Good(data)
    decreases |data|
  {
    hide Line;
    if |data| < BUF_SIZE {
      RunLine(data, []);
      assert Line(data) + [] == Line(data);
      assert data + [] == data;
    } else {
      ScriptPrintsFile(data[BUF_SIZE..]);
      RunLine(data[..BUF_SIZE], Lines(data[BUF_SIZE..]));
      assert data == data[..BUF_SIZE] + data[BUF_SIZE..];
    }
  }

  /** The arguments of all lines, put together and decoded at once, give the same bytes. */
  lemma {:induction false} BodiesDecode(data: seq<octet>)
    ensures Decode(Bodies(data)) == data
    decreases |data|
  {
    hide Decode, Body;
    if |data| < BUF_SIZE {
      BodyDecodes(data, []);
      assert Body(data) + [] == Body(data) && Decode([]) == [] by { NothingDecodes(); }
    } else {
      BodiesDecode(data[BUF_SIZE..]);
      BodyDecodes(data[..BUF_SIZE], Bodies(data[BUF_SIZE..]));
      assert data == data[..BUF_SIZE] + data[BUF_SIZE..];
    }
  }

  function Bodies(data: seq<octet>): seq<octet> {
    if |data| < BUF_SIZE then Body(data) else Body(data[..BUF_SIZE]) + Bodies(data[BUF_SIZE..])
  }

  function RunScript(s: seq<octet>): Output {
    if Header() <= s then RunLines(s[|Header()|..]) else Bad
  }

  lemma ScriptRuns(data: seq<octet>)
    ensures RunScript(Header() + Lines(data)) == Good(data)
  {
    hide Header, Lines, RunLines;
    ScriptPrintsFile(data);
    assert (Header() + Lines(data))[|Header()|..] == Lines(data);
  }


  // ---- In numbers ----

  /** The texts of a script, in ASCII codes: its header, and what stands before and behind the bytes of a line. */
  lemma TextsInNumbers()
    ensures Header() == [35, 33, 47, 98, 105, 110, 47, 115, 104, 10, 10]
    ensures Open() == [101, 99, 104, 111, 32, 45, 110, 101, 32, 34] && Close() == [34, 59, 10]
  {
  }

  /** One byte is a backslash and four octal digits. */
  lemma PrintedInNumbers(b: octet)
    ensures Printed(b) == [92, 48, 48 + b / 64, 48 + b / 8 % 8, 48 + b % 8]
  {
  }

  lemma {:induction false} BodyLength(chunk: seq<octet>)
    ensures |Body(chunk)| == 5 * |chunk|
  {
    if chunk == [] {
    } else {
      BodyLength(chunk[1..]);
    }
  }

  /** A line for every 64 bytes of the file, and one for the rest, even when it is empty. */
  lemma {:induction false} LinesInNumbers(data: seq<octet>)
    ensures |Lines(data)| == 13 * (|data| / 64 + 1) + 5 * |data|
    decreases |data|
  {
    hide Body, Text;
    if |data| < 64 {
      BodyLength(data);
    } else {
      BodyLength(data[..64]);
      LinesInNumbers(data[64..]);
      assert |data| / 64 == (|data| - 64) / 64 + 1;
    }
  }

  /** The whole program, from the contents of the file to what it prints. */
  method Shbin(data: seq<octet>) returns (out: seq<octet>)
    ensures out == Header() + Lines(data)
    ensures RunScript(out) == Good(data)
  {
    hide Header, Line, RunScript;
    out := Header();
    var at := 0;
    while true
      invariant at <= |data|
      invariant out + Lines(data[at..]) == Header() + Lines(data)
      decreases |data| - at
    {
      var got := if |data| - at < BUF_SIZE then |data| - at else BUF_SIZE;
      var chunk := data[at..at + got];
      var line := PrintChunk(chunk);
      assert got < BUF_SIZE ==> chunk == data[at..];
      assert got == BUF_SIZE ==> chunk == data[at..][..BUF_SIZE] && data[at..][BUF_SIZE..] == data[at + got..];
      assert out + (line + Lines(data[at + got..])) == out + line + Lines(data[at + got..]);
      out := out + line;
      at := at + got;
      if got < BUF_SIZE {
        break;
      }
    }
    ScriptRuns(data);
  }
}

/** The squelch codecs of the UV-B5 and the UV-5R, which store table indices. */
module BaofengSquelch {
  import opened SquelchSettings
  import opened Tones

  /** What a stored index decodes to. Indices beyond the code table are read out of bounds by the source. */
  datatype Read = Value(squelch: Squelch) | PastTable

  // ---- UV-B5: index and polarity ----

  datatype Stored = Stored(index: nat, inverted: bool)

  const FIRST_DCS := NCTCSS + 1

  /** decode_squelch. */
  function UvB5Decode(s: Stored): Read {
    if s.index == 0 then Value(Squelch(0, 0))
    else if s.index <= NCTCSS then Value(Squelch(CtcssTone(s.index - 1), 0))
    else if s.index - FIRST_DCS < NDCS then
      Value(Squelch(0, (if s.inverted then -1 else 1) * DcsCode(s.index - FIRST_DCS)))
    else PastTable
  }

  /** encode_squelch; the polarity of a disabled squelch is not written, and stays what it was. */
  method UvB5Encode(t: Tone, polarity: bool) returns (s: Stored)
    ensures s == UvB5Stored(t, polarity)
  {
    hide CtcssTone, DcsCode;
    match t {
      case Off =>
        s := Stored(0, polarity);
      case Ctcss(tenths) =>
        var i := FindTone(tenths);
        s := if i >= 0 then Stored(i + 1, false) else Stored(0, polarity);
      case Dcs(code, inverted) =>
        var i := FindCode(code);
        s := if i >= 0 then Stored(i + FIRST_DCS, inverted) else Stored(0, polarity);
    }
  }

  ghost function UvB5Stored(t: Tone, polarity: bool): Stored {
    match t
    case Off => Stored(0, polarity)
    case Ctcss(tenths) => if IsTone(tenths) then Stored(ToneIndex(tenths) + 1, false) else Stored(0, polarity)
    case Dcs(code, inverted) =>
      if IsCode(code) then Stored(CodeIndex(code) + FIRST_DCS, inverted) else Stored(0, polarity)
  }

  /** Settings in the tables, and the empty ones. */
  ghost predicate InTables(t: Tone) {
    match t
    case Off => true
    case Ctcss(tenths) => tenths == 0 || IsTone(tenths)
    case Dcs(code, _) => code == 0 || IsCode(code)
  }

  lemma TablesArePositive(val: nat)
    ensures IsTone(val) ==> val > 0
    ensures IsCode(val) ==> val > 0
  {
  }

  /** A UV-B5 setting reads back as written exactly when its tone or code is in the table. */
  lemma UvB5RoundTrip(t: Tone, polarity: bool)
    ensures UvB5Decode(UvB5Stored(t, polarity)) == Value(Meaning(t)) <==> InTables(t)
  {
    hide CtcssTone, DcsCode, IsTone, IsCode;
    match t {
      case Off =>
      case Ctcss(tenths) => TablesArePositive(tenths);
      case Dcs(code, _) => TablesArePositive(code);
    }
  }

  /** The setting a stored pair stands for. */
  function UvB5Setting(s: Stored): Tone
    requires s.index < FIRST_DCS + NDCS
  {
    if s.index == 0 then Off
    else if s.index <= NCTCSS then Ctcss(CtcssTone(s.index - 1))
    else Dcs(DcsCode(s.index - FIRST_DCS), s.inverted)
  }

  /** Decoding a stored pair and coding it again gives the pair: the tables name no tone and no code twice. */
  lemma UvB5Reencodes(s: Stored, polarity: bool)
    requires s.index < FIRST_DCS + NDCS
    ensures UvB5Decode(s) == Value(Meaning(UvB5Setting(s)))
    ensures var r := UvB5Stored(UvB5Setting(s), polarity);
            r.index == s.index && (s.index > NCTCSS ==> r.inverted == s.inverted)
  {
    hide CtcssTone, DcsCode, IsTone, IsCode;
    if s.index > NCTCSS {
      CodeIndexIs(s.index - FIRST_DCS);
    } else if s.index > 0 {
      ToneIndexIs(s.index - 1);
    }
  }

  // ---- UV-5R: one 16-bit word ----

  const LOWEST_TONE := 0x258

  /** decode_squelch. */
  function Uv5rDecode(index: nat): Read {
    if index == 0 || index == 0xffff then Value(Squelch(0, 0))
    else if index >= LOWEST_TONE then Value(Squelch(index, 0))
    else if index - 1 < NDCS then Value(Squelch(0, DcsCode(index - 1)))
    else if index - 1 - NDCS < NDCS then Value(Squelch(0, -DcsCode(index - 1 - NDCS)))
    else PastTable
  }

  /** encode_squelch, and the store into the 16-bit field. */
  method Uv5rEncode(t: Tone) returns (w: nat)
    ensures w == Uv5rWord(t)
  {
    hide DcsCode;
    match t {
      case Off =>
        w := 0;
      case Ctcss(tenths) =>
        w := if tenths < LOWEST_TONE then 0 else tenths % 0x1_0000;
      case Dcs(code, inverted) =>
        var i := FindCode(code);
        w := if i < 0 then 0 else if inverted then i + 1 + NDCS + 1 else i + 1;
    }
  }

  ghost function Uv5rWord(t: Tone): nat {
    match t
    case Off => 0
    case Ctcss(tenths) => if tenths < LOWEST_TONE then 0 else tenths % 0x1_0000
    case Dcs(code, inverted) =>
      if !IsCode(code) then 0 else if inverted then CodeIndex(code) + 1 + NDCS + 1 else CodeIndex(code) + 1
  }

  /** Settings the UV-5R keeps: no inverted code of the table is among them. */
  ghost predicate Uv5rKeeps(t: Tone) {
    match t
    case Off => true
    case Ctcss(tenths) => tenths == 0 || LOWEST_TONE <= tenths < 0xffff
    case Dcs(code, inverted) => code == 0 || (IsCode(code) && !inverted)
  }

  /** An inverted code comes back as its successor in the table; the last one is read past its end. */
  lemma Uv5rInvertedShifts(k: nat)
    requires k < NDCS
    ensures Uv5rDecode(Uv5rWord(Dcs(DcsCode(k), true))) ==
            if k + 1 < NDCS then Value(Squelch(0, -DcsCode(k + 1))) else PastTable
  {
    hide DcsCode, IsCode;
    CodeIndexIs(k);
  }

  /** A UV-5R setting reads back as written exactly when it is not an inverted code and its value fits. */
  lemma Uv5rRoundTrip(t: Tone)
    ensures Uv5rDecode(Uv5rWord(t)) == Value(Meaning(t)) <==> Uv5rKeeps(t)
  {
    hide DcsCode, IsCode;
    match t {
      case Off =>
      case Ctcss(_) =>
      case Dcs(code, inverted) =>
        TablesArePositive(code);
        if IsCode(code) && inverted {
          var k := CodeIndex(code);
          Uv5rInvertedShifts(k);
          if k + 1 < NDCS { DcsIncreasing(k, k + 1); }
        }
    }
  }

  // ---- In numbers ----

  /** The UV-B5 counts from 1: first the fifty tones, then the hundred and four codes. */
  lemma UvB5InNumbers(s: Stored)
    ensures UvB5Decode(s) ==
            if s.index == 0 then Value(Squelch(0, 0))
            else if s.index <= 50 then Value(Squelch(CtcssTone(s.index - 1), 0))
            else if s.index <= 154 then Value(Squelch(0, (if s.inverted then -1 else 1) * DcsCode(s.index - 51)))
            else PastTable
  {
    hide CtcssTone, DcsCode;
  }

  /** The UV-5R keeps a tone from 60 Hz on as it is; below, it counts codes from 1 and inverted codes from 105. */
  lemma Uv5rInNumbers(index: nat)
    ensures Uv5rDecode(index) ==
            if index == 0 || index == 0xffff then Value(Squelch(0, 0))
            else if index >= 600 then Value(Squelch(index, 0))
            else if index <= 104 then Value(Squelch(0, DcsCode(index - 1)))
            else if index <= 208 then Value(Squelch(0, -DcsCode(index - 105)))
            else PastTable
  {
    hide DcsCode;
  }

  /** What both radios are given for a setting. */
  lemma WrittenInNumbers(t: Tone, polarity: bool)
    ensures match t
            case Off => UvB5Stored(t, polarity) == Stored(0, polarity) && Uv5rWord(t) == 0
            case Ctcss(tenths) =>
              && UvB5Stored(t, polarity)
                 == (if IsTone(tenths) then Stored(ToneIndex(tenths) + 1, false) else Stored(0, polarity))
              && Uv5rWord(t) == if tenths < 600 then 0 else tenths % 65536
            case Dcs(code, inverted) =>
              && UvB5Stored(t, polarity)
                 == (if IsCode(code) then Stored(CodeIndex(code) + 51, inverted) else Stored(0, polarity))
              && Uv5rWord(t) == if !IsCode(code) then 0 else CodeIndex(code) + if inverted then 106 else 1
  {
    hide IsTone, IsCode;
  }
}

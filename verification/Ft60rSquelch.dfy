/** FT-60R squelch: a pair of written squelch values against the (tmode, tone, dtcs) triple kept in memory. */
module Ft60rSquelch {
  import opened Tones

  const T_OFF := 0
  const T_TONE := 1
  const T_TSQL := 2
  const T_TSQL_REV := 3
  const T_DTCS := 4
  const T_D := 5
  const T_T_DCS := 6
  const T_D_TSQL := 7

  const TONE_DEFAULT := 12

  /** A squelch column of the table: '-', 'nnn.n' or '-nnn.n' (in tenths of a hertz), or 'Dnnn'. */
  datatype Squelch = Off | Tone(tenths: nat, reversed: bool) | Code(number: nat)

  /** What memory holds. */
  datatype Stored = Stored(tmode: nat, tone: nat, dtcs: nat)

  /** The four out-parameters of decode_channel; a reversed receive tone is negative. */
  datatype Decoded = Decoded(rxCtcs: int, txCtcs: int, rxDcs: int, txDcs: int)

  /** Indices past the end of a table are read out of bounds by the source; here they read as 0. */
  function ToneAt(tone: nat): int {
    if tone < NCTCSS then CtcssTone(tone) else 0
  }

  function CodeAt(dtcs: nat): int {
    if dtcs < NDCS then DcsCode(dtcs) else 0
  }

  function Decode(s: Stored): Decoded {
    var tone, code := ToneAt(s.tone), CodeAt(s.dtcs);
    if s.tmode == T_TONE then Decoded(0, tone, 0, 0)
    else if s.tmode == T_TSQL then Decoded(tone, tone, 0, 0)
    else if s.tmode == T_TSQL_REV then Decoded(-tone, tone, 0, 0)
    else if s.tmode == T_DTCS then Decoded(0, 0, code, code)
    else if s.tmode == T_D then Decoded(0, 0, 0, code)
    else if s.tmode == T_T_DCS then Decoded(0, tone, code, 0)
    else if s.tmode == T_D_TSQL then Decoded(tone, 0, 0, code)
    else Decoded(0, 0, 0, 0)
  }

  /** print_squelch. */
  function Printed(ctcs: int, dcs: int): Squelch {
    if ctcs != 0 then Tone(if ctcs < 0 then -ctcs else ctcs, ctcs < 0)
    else if dcs > 0 then Code(dcs)
    else Off
  }

  function PrintedRx(d: Decoded): Squelch { Printed(d.rxCtcs, d.rxDcs) }

  function PrintedTx(d: Decoded): Squelch { Printed(d.txCtcs, d.txDcs) }

  /** The index a column contributes, or -1; a transmit column has no '-nnn.n' form. */
  ghost function ToneOf(q: Squelch): (i: int)
    ensures -1 <= i < NCTCSS
  {
    if q.Tone? then ToneIndex(q.tenths) else -1
  }

  ghost function TxToneOf(q: Squelch): (i: int)
    ensures -1 <= i < NCTCSS
  {
    if q.Tone? && !q.reversed then ToneIndex(q.tenths) else -1
  }

  ghost function CodeOf(q: Squelch): (i: int)
    ensures -1 <= i < NDCS
  {
    if q.Code? then CodeIndex(q.number) else -1
  }

  ghost function Encode(rx: Squelch, tx: Squelch): (s: Stored)
    ensures s.tmode < 8 && s.tone < NCTCSS && s.dtcs < NDCS
  {
    var rxTone, txTone, rxCode, txCode := ToneOf(rx), TxToneOf(tx), CodeOf(rx), CodeOf(tx);
    if rxCode >= 0 then
      if txTone >= 0 then Stored(T_T_DCS, txTone, rxCode)
      else Stored(T_DTCS, TONE_DEFAULT, rxCode)
    else if txCode >= 0 then
      if rxTone >= 0 then Stored(T_D_TSQL, rxTone, txCode)
      else Stored(T_D, TONE_DEFAULT, txCode)
    else if txTone >= 0 then
      Stored(if rxTone < 0 then T_TONE else if rx.reversed then T_TSQL_REV else T_TSQL, txTone, 0)
    else
      Stored(T_OFF, TONE_DEFAULT, 0)
  }

  /** encode_squelch. */
  method EncodeSquelch(rx: Squelch, tx: Squelch) returns (s: Stored)
    ensures s == Encode(rx, tx)
  {
    var rxTone, txTone, rxCode, txCode := -1, -1, -1, -1;
    var rxReversed := false;
    match rx {
      case Code(n) => rxCode := FindCode(n);
      case Tone(t, r) => rxTone := FindTone(t); rxReversed := r;
      case Off =>
    }
    match tx {
      case Code(n) => txCode := FindCode(n);
      case Tone(t, r) => if !r { txTone := FindTone(t); }
      case Off =>
    }

    var tone, dtcs := TONE_DEFAULT, 0;
    if rxCode >= 0 {
      dtcs := rxCode;
      if txTone >= 0 {
        tone := txTone;
        return Stored(T_T_DCS, tone, dtcs);
      }
      return Stored(T_DTCS, tone, dtcs);
    }
    if txCode >= 0 {
      dtcs := txCode;
      if rxTone >= 0 {
        tone := rxTone;
        return Stored(T_D_TSQL, tone, dtcs);
      }
      return Stored(T_D, tone, dtcs);
    }
    if txTone >= 0 {
      tone := txTone;
      if rxTone < 0 {
        return Stored(T_TONE, tone, dtcs);
      }
      if rxReversed {
        return Stored(T_TSQL_REV, tone, dtcs);
      }
      return Stored(T_TSQL, tone, dtcs);
    }
    return Stored(T_OFF, tone, dtcs);
  }

  /** Printing what memory holds and encoding the print again keeps the mode and what it decodes to. */
  lemma ReencodeKeepsMode(s: Stored)
    requires s.tmode < 8 && s.tone < NCTCSS && s.dtcs < NDCS
    ensures var d := Decode(s);
            var again := Encode(PrintedRx(d), PrintedTx(d));
            again.tmode == s.tmode && Decode(again) == d
  {
    ToneIndexIs(s.tone);
    CodeIndexIs(s.dtcs);
  }

  /** The written pairs the eight modes can hold. */
  ghost predicate CanHold(rx: Squelch, tx: Squelch) {
    match (rx, tx)
    case (Off, Off) => true
    case (Off, Tone(t, r)) => IsTone(t) && !r
    case (Off, Code(c)) => IsCode(c)
    case (Tone(t, _), Tone(u, r)) => IsTone(t) && t == u && !r
    case (Tone(t, r), Code(c)) => IsTone(t) && !r && IsCode(c)
    case (Code(c), Code(d)) => IsCode(c) && c == d
    case (Code(c), Tone(t, r)) => IsCode(c) && IsTone(t) && !r
    case (_, Off) => false
  }

  /** A written pair survives storing exactly when it is one of those; every other pair is silently changed. */
  lemma StoredExactly(rx: Squelch, tx: Squelch)
    ensures var d := Decode(Encode(rx, tx));
            (PrintedRx(d) == rx && PrintedTx(d) == tx) <==> CanHold(rx, tx)
  {
  }

  /** For example, two different tones are stored as the transmit tone twice. */
  lemma SplitTonesAreLost()
    ensures var d := Decode(Encode(Tone(670, false), Tone(693, false)));
            PrintedRx(d) == Tone(693, false) && PrintedTx(d) == Tone(693, false)
  {
    assert CtcssTone(0) == 670 && CtcssTone(1) == 693;
    ToneIndexIs(0);
    ToneIndexIs(1);
  }

  // ---- In numbers ----

  /** The eight modes, with the tone and the code that each pair of columns is stored under. */
  lemma ModesInNumbers(rx: Squelch, tx: Squelch)
    ensures var s := Encode(rx, tx);
            var rxTone, rxCode := rx.Tone? && IsTone(rx.tenths), rx.Code? && IsCode(rx.number);
            var txTone, txCode := tx.Tone? && !tx.reversed && IsTone(tx.tenths), tx.Code? && IsCode(tx.number);
            if rxCode && txTone then s.tmode == 6 && CtcssTone(s.tone) == tx.tenths && DcsCode(s.dtcs) == rx.number
            else if rxCode then s.tmode == 4 && s.tone == 12 && DcsCode(s.dtcs) == rx.number
            else if txCode && rxTone then s.tmode == 7 && CtcssTone(s.tone) == rx.tenths && DcsCode(s.dtcs) == tx.number
            else if txCode then s.tmode == 5 && s.tone == 12 && DcsCode(s.dtcs) == tx.number
            else if txTone then
              s.dtcs == 0 && CtcssTone(s.tone) == tx.tenths
              && s.tmode == if !rxTone then 1 else if rx.reversed then 3 else 2
            else s.tmode == 0 && s.tone == 12 && s.dtcs == 0
  {
    hide CtcssTone, DcsCode;
  }
}

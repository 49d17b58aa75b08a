/** Squelch settings of the Baofeng radios, before and after their codecs. */
module SquelchSettings {

  /** A squelch setting as the user writes it; a CTCSS tone is in tenths of a hertz. */
  datatype Tone = Off | Ctcss(tenths: nat) | Dcs(code: nat, inverted: bool)

  /** The two numbers decode_squelch fills in: a CTCSS tone, and a DCS code that is negative when inverted. */
  datatype Squelch = Squelch(ctcs: int, dcs: int)

  function Meaning(t: Tone): Squelch {
    match t
    case Off => Squelch(0, 0)
    case Ctcss(tenths) => Squelch(tenths, 0)
    case Dcs(code, inverted) => Squelch(0, (if inverted then -1 else 1) * code)
  }
}

/** The driver object: the methods that keep the shadow, and the gain tables. */
module Imx222Driver {
  import opened Imx222

  // ---- Gain tables ----

  /** The analog table, sixteen to a row as in the source; the digital table is its first sixty-one entries. */
  const GAIN_ROWS: seq<seq<u32>> := [
    [1024, 1060, 1097, 1136, 1176, 1217, 1260, 1304, 1350, 1397, 1446, 1497, 1550, 1604, 1661, 1719],
    [1780, 1842, 1907, 1974, 2043, 2115, 2189, 2266, 2346, 2428, 2514, 2602, 2693, 2788, 2886, 2987],
    [3092, 3201, 3314, 3430, 3551, 3675, 3805, 3938, 4077, 4220, 4368, 4522, 4681, 4845, 5015, 5192],
    [5374, 5563, 5758, 5961, 6170, 6387, 6611, 6844, 7084, 7333, 7591, 7858, 8134, 8420, 8716, 9022],
    [9339, 9667, 10007, 10359, 10723, 11099, 11489, 11893, 12311, 12744, 13192, 13655, 14135, 14632, 15146, 15678],
    [16229]]

  const AGAIN_MAX: nat := 80
  const DGAIN_MAX: nat := 60

  function Gain(i: nat): u32
    requires i <= AGAIN_MAX
  {
    GAIN_ROWS[i / 16][i % 16]
  }

  lemma GainInRow(q: nat, r: nat)
    requires 16 * q + r + 1 <= AGAIN_MAX && r < 15
    ensures GAIN_ROWS[q][r] < GAIN_ROWS[q][r + 1]
  {
  }

  lemma GainAcrossRows(q: nat)
    requires q < 5
    ensures GAIN_ROWS[q][15] < GAIN_ROWS[q + 1][0]
  {
  }

  lemma GainSteps(i: nat)
    requires i < AGAIN_MAX
    ensures Gain(i) < Gain(i + 1)
  {
    var q, r := i / 16, i % 16;
    if r < 15 {
      assert (i + 1) / 16 == q && (i + 1) % 16 == r + 1;
      GainInRow(q, r);
    } else {
      assert (i + 1) / 16 == q + 1 && (i + 1) % 16 == 0;
      GainAcrossRows(q);
    }
  }

  lemma {:induction false} GainGrows(i: nat, j: nat)
    requires i < j <= AGAIN_MAX
    ensures Gain(i) < Gain(j)
    decreases j
  {
    hide Gain;
    GainSteps(j - 1);
    if i == j - 1 {
    } else {
      GainGrows(i, j - 1);
    }
  }

  /** `db` is the greatest index up to `last` whose gain does not exceed the request; a request below the table counts
      as its first entry. */
  predicate IsLookup(lin: u32, last: nat, db: nat)
    requires last <= AGAIN_MAX
  {
    && db <= last
    && (db == 0 || Gain(db) <= lin)
    && forall j :: db < j <= last ==> lin < Gain(j)
  }

  lemma LookupUnique(lin: u32, last: nat, a: nat, b: nat)
    requires last <= AGAIN_MAX && IsLookup(lin, last, a) && IsLookup(lin, last, b)
    ensures a == b
  {
    hide Gain;
  }

  /** A looked-up gain is a fixed point, and the lookup follows the order of the requests. */
  lemma LookupMonotone(lin: u32, lin': u32, last: nat, a: nat, b: nat)
    requires last <= AGAIN_MAX && IsLookup(lin, last, a) && IsLookup(lin', last, b)
    ensures lin <= lin' ==> a <= b
    ensures lin' == Gain(a) ==> b == a
  {
    hide Gain;
    if lin' == Gain(a) {
      forall j | a < j <= last
        ensures Gain(a) < Gain(j)
      {
        GainGrows(a, j);
      }
      assert IsLookup(lin', last, a);
      LookupUnique(lin', last, a, b);
    }
  }

  /** A request from one entry up to the next finds the lower one; below the second entry it finds the first, and from
      the last entry on the last. */
  lemma LookupFinds(lin: u32, last: nat, k: nat)
    requires k < last <= AGAIN_MAX
    ensures Gain(k) <= lin < Gain(k + 1) ==> IsLookup(lin, last, k)
    ensures lin < Gain(1) ==> IsLookup(lin, last, 0)
    ensures Gain(last) <= lin ==> IsLookup(lin, last, last)
  {
    hide Gain;
    forall i, j | 0 <= i < j <= last
      ensures Gain(i) < Gain(j)
    {
      GainGrows(i, j);
    }
  }

  /** cmos_again_calc_table and cmos_dgain_calc_table, which differ in the last index of their table. */
  method CalcTable(lin: u32, last: nat) returns (gain: u32, db: u32)
    requires last == AGAIN_MAX || last == DGAIN_MAX
    ensures IsLookup(lin, last, db) && gain == Gain(db)
  {
    hide Gain;
    if lin >= Gain(last) {
      return Gain(last), last;
    }
    gain, db := Gain(0), 0;
    var i := 1;
    while i < last + 1
      invariant 1 <= i <= last + 1
      invariant forall j :: 1 <= j < i ==> Gain(j) <= lin
    {
      if lin < Gain(i) {
        gain, db := Gain(i - 1), i - 1;
        forall j | i < j <= last
          ensures lin < Gain(j)
        {
          GainGrows(i, j);
        }
        break;
      }
      i := i + 1;
    }
  }

  /** The gains, in 1/1024: steps of 0.3 dB from 0 dB on. */
  lemma LowGainsInNumbers()
    ensures Gain(0) == 1024 && Gain(1) == 1060 && Gain(2) == 1097 && Gain(3) == 1136 && Gain(4) == 1176
    ensures Gain(5) == 1217 && Gain(6) == 1260 && Gain(7) == 1304 && Gain(8) == 1350 && Gain(9) == 1397
    ensures Gain(10) == 1446 && Gain(11) == 1497 && Gain(12) == 1550 && Gain(13) == 1604 && Gain(14) == 1661
    ensures Gain(15) == 1719 && Gain(16) == 1780 && Gain(17) == 1842 && Gain(18) == 1907 && Gain(19) == 1974
    ensures Gain(20) == 2043 && Gain(21) == 2115 && Gain(22) == 2189 && Gain(23) == 2266 && Gain(24) == 2346
    ensures Gain(25) == 2428 && Gain(26) == 2514 && Gain(27) == 2602 && Gain(28) == 2693 && Gain(29) == 2788
    ensures Gain(30) == 2886 && Gain(31) == 2987 && Gain(32) == 3092 && Gain(33) == 3201 && Gain(34) == 3314
    ensures Gain(35) == 3430 && Gain(36) == 3551 && Gain(37) == 3675 && Gain(38) == 3805 && Gain(39) == 3938
  {
  }

  lemma HighGainsInNumbers()
    ensures Gain(40) == 4077 && Gain(41) == 4220 && Gain(42) == 4368 && Gain(43) == 4522 && Gain(44) == 4681
    ensures Gain(45) == 4845 && Gain(46) == 5015 && Gain(47) == 5192 && Gain(48) == 5374 && Gain(49) == 5563
    ensures Gain(50) == 5758 && Gain(51) == 5961 && Gain(52) == 6170 && Gain(53) == 6387 && Gain(54) == 6611
    ensures Gain(55) == 6844 && Gain(56) == 7084 && Gain(57) == 7333 && Gain(58) == 7591 && Gain(59) == 7858
    ensures Gain(60) == 8134 && Gain(61) == 8420 && Gain(62) == 8716 && Gain(63) == 9022 && Gain(64) == 9339
    ensures Gain(65) == 9667 && Gain(66) == 10007 && Gain(67) == 10359 && Gain(68) == 10723 && Gain(69) == 11099
    ensures Gain(70) == 11489 && Gain(71) == 11893 && Gain(72) == 12311 && Gain(73) == 12744 && Gain(74) == 13192
    ensures Gain(75) == 13655 && Gain(76) == 14135 && Gain(77) == 14632 && Gain(78) == 15146 && Gain(79) == 15678
    ensures Gain(80) == 16229
  {
  }

  /** Both tables begin at 0 dB; the analog one ends at 24 dB, the digital one at 18 dB. */
  lemma TableEndsInNumbers()
    ensures AGAIN_MAX == 80 && DGAIN_MAX == 60
  {
  }

  // ---- The driver ----

  /** What a frame-rate call tells the exposure control. */
  datatype Limits = Limits(linesPer500ms: u32, maxIntTime: u32, fullLinesStd: u32, fullLines: u32)

  class Driver {
    const data: array<u32>
    const update: array<bool>
    const pre: array<u32>
    const sensor: array<u32>
    var init: bool
    var sensorInit: bool
    var mode: nat
    var lines: u32
    var linesStd: u32

    predicate Shaped()
      reads this
    {
      data.Length == update.Length == pre.Length == sensor.Length == REG_NUM
      && data != pre && data != sensor && pre != sensor
    }

    function View(): State
      reads this, data, update, pre, sensor
    {
      State(data[..], update[..], pre[..], sensor[..], init, sensorInit, mode, lines, linesStd)
    }

    predicate Valid()
      reads this, data, update, pre, sensor
    {
      Shaped() && WellFormed(View())
    }

    constructor (device: array<u32>)
      requires device.Length == REG_NUM
      ensures Valid() && View() == Start(device[..])
      ensures sensor == device && fresh(data) && fresh(update) && fresh(pre)
    {
      data := new u32[REG_NUM](_ => 0);
      update := new bool[REG_NUM](_ => false);
      pre := new u32[REG_NUM](_ => 0);
      sensor := device;
      init, sensorInit := false, false;
      mode, lines, linesStd := MODE_1080P, VMAX_1080P30, VMAX_1080P30;
      new;
      assert data[..] == [0, 0, 0, 0, 0] && pre[..] == [0, 0, 0, 0, 0];
      assert update[..] == [false, false, false, false, false];
    }

    method SetVmax(v: u32)
      requires Shaped()
      modifies data
      ensures data[..] == WithVmax(old(data[..]), v)
    {
      data[3] := LowByte(v);
      data[4] := HighByte(v);
    }

    /** cmos_fps_set. */
    method FpsSet(fps: real) returns (ok: bool, limits: Limits)
      requires Valid()
      modifies this`lines, this`linesStd, data
      ensures Valid() && View() == Step(old(View()), Fps(fps))
      ensures ok == SupportedFps(mode, fps)
      ensures ok ==> limits.fullLines == limits.fullLinesStd == lines == linesStd
      ensures ok ==> limits.maxIntTime == linesStd - 2 && limits.linesPer500ms == (linesStd as real * fps / 2.0).Floor
    {
      hide StdLines, LowByte, HighByte, MaxIntTime;
      limits := Limits(0, 0, 0, 0);
      if mode == MODE_1080P {
        if !(fps <= 30.0 && fps >= 0.51) {
          return false, limits;
        }
      } else {
        if !(fps <= 60.0 && fps >= 0.68) {
          return false, limits;
        }
      }
      ok := true;
      linesStd := StdLines(mode, fps);
      SetVmax(linesStd);
      lines := linesStd;
      EnoughLines(mode, fps);
      StdLinesSmall(mode, fps);
      limits := Limits((linesStd as real * fps / 2.0).Floor, MaxIntTime(linesStd), linesStd, linesStd);
    }

    /** cmos_slow_framerate_set. */
    method SlowFramerateSet(asked: u32) returns (maxIntTime: u32)
      requires Valid()
      modifies this`lines, data
      ensures Valid() && View() == Step(old(View()), SlowFramerate(asked))
      ensures maxIntTime == MaxIntTime(lines)
    {
      lines := AtMost(asked, FULL_LINES_MAX);
      SetVmax(lines);
      maxIntTime := MaxIntTime(lines);
    }

    /** cmos_inttime_update. */
    method IntTimeUpdate(time: u32)
      requires Valid()
      modifies data
      ensures Valid() && View() == Step(old(View()), IntTime(time))
    {
      var value: u32 := (lines - time) % 0x1_0000_0000;
      data[0] := LowByte(value);
      data[1] := HighByte(value);
    }

    /** cmos_gains_update. */
    method GainsUpdate(again: u32, dgain: u32)
      requires Valid()
      modifies data
      ensures Valid() && View() == Step(old(View()), Gains(again, dgain))
    {
      var sum: u32 := (again + dgain) % 0x1_0000_0000;
      sum := AtMost(sum, GAIN_MAX);
      data[2] := LowByte(sum);
    }

    /** cmos_set_pixel_detect. */
    method SetPixelDetect(on: bool)
      requires Valid()
      modifies this`init, sensor
      ensures Valid() && View() == Step(old(View()), PixelDetect(on))
    {
      if on {
        var full: u32 := if mode == MODE_1080P then VMAX_1080P30 * 30 / 5 else VMAX_720P60 * 60 / 5;
        full := AtMost(full, FULL_LINES_MAX);
        sensor[3] := LowByte(full);
        sensor[4] := HighByte(full);
        sensor[0], sensor[1], sensor[2] := 2, 0, 0;
        assert sensor[..] == CalibrationRegisters(mode);
      } else {
        sensor[3] := LowByte(linesStd);
        sensor[4] := HighByte(linesStd);
        init := false;
        assert sensor[..] == WithVmax(old(sensor[..]), linesStd);
      }
    }

    /** sensor_init, for the registers of the shadow. */
    method SensorInit()
      requires Valid()
      modifies this`sensorInit, sensor
      ensures Valid() && sensorInit && sensor[..] == InitRegisters(mode)
    {
      var regs := InitRegisters(mode);
      sensor[0], sensor[1], sensor[2], sensor[3], sensor[4] := regs[0], regs[1], regs[2], regs[3], regs[4];
      sensorInit := true;
    }

    /** cmos_set_wdr_mode. */
    method SetWdrMode()
      requires Valid()
      modifies this`init
      ensures Valid() && View() == Step(old(View()), WdrMode)
    {
      init := false;
    }

    /** cmos_set_image_mode, and sensor_init when it succeeds. */
    method SetImageMode(size: Option<Size>) returns (ok: bool)
      requires Valid()
      modifies this`init, this`mode, this`sensorInit, sensor
      ensures Valid() && View() == Step(old(View()), ImageMode(size))
      ensures ok == Switches(old(mode), old(sensorInit), size)
      ensures ok ==> sensorInit && sensor[3] + 256 * sensor[4] == if mode == 2 then 750 else 1125
      ensures !ok ==> mode == old(mode) && sensor[..] == old(sensor[..])
    {
      init := false;
      if size.None? {
        return false;
      }
      var asked := ModeFor(mode, size.value);
      if asked.None? || (sensorInit && asked.value == mode) {
        return false;
      }
      mode := asked.value;
      SensorInit();
      ok := true;
    }

    /** sensor_global_init. */
    method SensorGlobalInit()
      requires Valid()
      modifies this, data, update, pre
      ensures Valid() && View() == Step(old(View()), GlobalInit)
      ensures sensor[..] == old(sensor[..])
    {
      mode, lines, linesStd := MODE_1080P, VMAX_1080P30, VMAX_1080P30;
      init, sensorInit := false, false;
      forall i | 0 <= i < REG_NUM { data[i] := 0; }
      forall i | 0 <= i < REG_NUM { update[i] := false; }
      forall i | 0 <= i < REG_NUM { pre[i] := 0; }
      assert data[..] == [0, 0, 0, 0, 0] && pre[..] == [0, 0, 0, 0, 0];
      assert update[..] == [false, false, false, false, false];
    }

    method SetFlags()
      requires Valid()
      modifies this`init, update
      ensures Valid() && init && update[..] == Flags(old(View()))
    {
      var i := 0;
      while i < REG_NUM
        invariant i <= REG_NUM && init == old(init)
        invariant forall k :: 0 <= k < i ==> update[k] == (!init || data[k] != pre[k])
      {
        update[i] := !init || data[i] != pre[i];
        i := i + 1;
      }
      init := true;
    }

    /** cmos_get_sns_regs_info with a place for the answer, and the caller's writes to the sensor. */
    method GetRegs()
      requires Valid()
      modifies this`init, update, pre, sensor
      ensures Valid() && View() == Step(old(View()), Read)
    {
      ghost var before := sensor[..];
      SetFlags();
      ghost var flags := update[..];
      forall i | 0 <= i < REG_NUM { pre[i] := data[i]; }
      assert pre[..] == data[..];
      var i := 0;
      while i < REG_NUM
        invariant i <= REG_NUM
        invariant forall k :: 0 <= k < i ==> sensor[k] == if update[k] then data[k] else before[k]
        invariant forall k :: i <= k < REG_NUM ==> sensor[k] == before[k]
        invariant pre[..] == data[..] && update[..] == flags && init
      {
        if update[i] {
          sensor[i] := data[i];
        }
        i := i + 1;
      }
      assert sensor[..] == Written(before, data[..], update[..]);
    }

    /** cmos_get_sns_regs_info without one. */
    method GetRegsNull()
      requires Valid()
      modifies this`init, update
      ensures Valid() && View() == Step(old(View()), ReadNull)
    {
      SetFlags();
    }
  }

  /** A supported rate leaves at least two lines, so the reported exposure limit does not wrap. */
  lemma EnoughLines(mode: nat, fps: real)
    requires SupportedFps(mode, fps)
    ensures 750 <= StdLines(mode, fps) && MaxIntTime(StdLines(mode, fps)) == StdLines(mode, fps) - 2
    ensures 0 <= (StdLines(mode, fps) as real * fps / 2.0).Floor < 0x1_0000_0000
  {
    hide StdLines;
    StdLinesIsLongest(mode, fps, 750);
    StdLinesIsLongest(mode, fps, StdLines(mode, fps));
    StdLinesSmall(mode, fps);
    assert StdLines(mode, fps) as real * fps <= LinesPerSecond(mode) as real;
    Product(StdLines(mode, fps) as real, fps);
  }

  lemma Product(a: real, b: real)
    requires a >= 0.0 && b >= 0.0
    ensures a * b >= 0.0
  {
  }

  /** The cap on the gain register never bites for indices that come from the two tables: the register is their sum. */
  lemma GainsFit(w: Wish, again: u32, dgain: u32, alin: u32, dlin: u32)
    requires IsLookup(alin, AGAIN_MAX, again) && IsLookup(dlin, DGAIN_MAX, dgain)
    ensures Registers(Asks(w, Gains(again, dgain)))[2] == again + dgain
  {
    hide Gain;
  }

  lemma BytesOf(x: nat)
    requires x < 65536
    ensures LowByte(x) + 256 * HighByte(x) == x
  {
  }

  lemma NoWrap(lines: nat, time: nat)
    requires 2 <= lines < 65536 && time <= lines - 2
    ensures (lines - time) % 65536 == lines - time
  {
  }

  /** An exposure within the limit that a frame-rate call reported is encoded without wrapping. */
  lemma ExposureEncoded(w: Wish, fps: real, time: u32)
    requires SupportedFps(w.mode, fps) && time <= MaxIntTime(StdLines(w.mode, fps))
    ensures var v := Asks(Asks(w, Fps(fps)), IntTime(time));
            v.shutter == v.vmax - time && 2 <= v.shutter
            && Registers(v)[0] + 256 * Registers(v)[1] == v.shutter && Registers(v)[3] + 256 * Registers(v)[4] == v.vmax
  {
    hide StdLines, SupportedFps, MaxIntTime, LowByte, HighByte;
    var lines := StdLines(w.mode, fps);
    EnoughLines(w.mode, fps);
    StdLinesSmall(w.mode, fps);
    NoWrap(lines, time);
    BytesOf(lines);
    BytesOf(lines - time);
  }
}

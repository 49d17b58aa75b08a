/** The IMX222 camera driver: a shadow of five sensor registers, and the delta update that writes them. */
module Imx222 {

  type u32 = x: int | 0 <= x < 0x1_0000_0000

  const FULL_LINES_MAX: u32 := 0xFFFF
  const MODE_1080P: nat := 1
  const MODE_720P: nat := 2
  const VMAX_1080P30: u32 := 1125
  const VMAX_720P60: u32 := 750
  const REG_NUM: nat := 5
  const GAIN_MAX: u32 := 0x8C

  /** Registers, in the order of the shadow: shutter low and high, gain, frame length low and high. */
  function LowByte(v: int): u32 { v % 256 }

  function HighByte(v: int): u32 { v / 256 % 256 }

  function AtMost(v: u32, max: u32): u32 { if v > max then max else v }

  // ---- The calls the driver receives ----

  datatype Size = Size(width: nat, height: nat, fps: real)

  datatype Option<T> = None | Some(value: T)

  /** Every entry point that touches the driver's state. `Read` is the periodic call for register updates, which the
      caller then writes to the sensor; `ReadNull` is the same call with no place for the answer. */
  datatype Op =
    | Fps(fps: real)
    | SlowFramerate(lines: u32)
    | IntTime(time: u32)
    | Gains(again: u32, dgain: u32)
    | PixelDetect(on: bool)
    | WdrMode
    | ImageMode(size: Option<Size>)
    | GlobalInit
    | Read
    | ReadNull

  // ---- What the calls ask for, with no shadow in it ----

  datatype Wish = Wish(shutter: nat, gain: nat, vmax: nat, mode: nat, lines: u32, linesStd: u32,
                       sensorInit: bool, calibrating: bool)

  predicate SupportedFps(mode: nat, fps: real) {
    if mode == MODE_1080P then 0.51 <= fps <= 30.0 else mode == MODE_720P && 0.68 <= fps <= 60.0
  }

  function LinesPerSecond(mode: nat): nat {
    if mode == MODE_1080P then VMAX_1080P30 * 30 else VMAX_720P60 * 60
  }

  function StdLines(mode: nat, fps: real): u32
    requires SupportedFps(mode, fps)
  {
    var lines := (LinesPerSecond(mode) as real / fps).Floor;
    LinesBound(mode, fps);
    AtMost(lines, FULL_LINES_MAX)
  }

  lemma LinesBound(mode: nat, fps: real)
    requires SupportedFps(mode, fps)
    ensures var lines := (LinesPerSecond(mode) as real / fps).Floor; 0 <= lines < 0x1_0000_0000
  {
    var quotient := LinesPerSecond(mode) as real / fps;
    assert quotient * fps == LinesPerSecond(mode) as real;
    if quotient >= 100000.0 {
      assert quotient * fps >= 100000.0 * fps;
    }
  }

  /** The mode a size asks for: the one in force when the size fits neither. */
  function ModeFor(mode: nat, size: Size): Option<nat> {
    if size.width <= 1280 && size.height <= 720 then (if size.fps <= 60.0 then Some(MODE_720P) else None)
    else if size.width <= 1920 && size.height <= 1080 then (if size.fps <= 30.0 then Some(MODE_1080P) else None)
    else Some(mode)
  }

  /** Whether the call succeeds, so that the sensor is initialised next. */
  predicate Switches(mode: nat, sensorInit: bool, size: Option<Size>) {
    size.Some? && var m := ModeFor(mode, size.value); m.Some? && (!sensorInit || m.value != mode)
  }

  function Asks(w: Wish, op: Op): Wish {
    match op
    case Fps(fps) =>
      if SupportedFps(w.mode, fps) then
        var lines := StdLines(w.mode, fps);
        w.(vmax := lines, lines := lines, linesStd := lines)
      else w
    case SlowFramerate(lines) => w.(vmax := AtMost(lines, FULL_LINES_MAX), lines := AtMost(lines, FULL_LINES_MAX))
    case IntTime(time) => w.(shutter := (w.lines - time) % 65536)
    case Gains(again, dgain) => w.(gain := AtMost((again + dgain) % 0x1_0000_0000, GAIN_MAX))
    case PixelDetect(on) => w.(calibrating := on)
    case ImageMode(size) =>
      if Switches(w.mode, w.sensorInit, size) then w.(mode := ModeFor(w.mode, size.value).value, sensorInit := true)
      else w
    case GlobalInit => Wish(0, 0, 0, MODE_1080P, VMAX_1080P30, VMAX_1080P30, false, w.calibrating)
    case _ => w
  }

  function Registers(w: Wish): seq<u32> {
    [LowByte(w.shutter), HighByte(w.shutter), LowByte(w.gain), LowByte(w.vmax), HighByte(w.vmax)]
  }

  // ---- The driver with its shadow, and the sensor ----

  datatype State = State(data: seq<u32>, update: seq<bool>, pre: seq<u32>, sensor: seq<u32>,
                         init: bool, sensorInit: bool, mode: nat, lines: u32, linesStd: u32)

  predicate WellFormed(s: State) {
    && |s.data| == |s.update| == |s.pre| == |s.sensor| == REG_NUM
    && (s.mode == MODE_1080P || s.mode == MODE_720P)
    && s.linesStd <= FULL_LINES_MAX && s.lines <= FULL_LINES_MAX
  }

  function WithVmax(data: seq<u32>, lines: u32): seq<u32>
    requires |data| == REG_NUM
  {
    data[3 := LowByte(lines)][4 := HighByte(lines)]
  }

  /** What the calibration mode writes straight into the sensor. */
  function CalibrationRegisters(mode: nat): seq<u32> {
    var lines := if mode == MODE_1080P then VMAX_1080P30 * 30 / 5 else VMAX_720P60 * 60 / 5;
    [2, 0, 0, LowByte(lines), HighByte(lines)]
  }

  function InitRegisters(mode: nat): seq<u32> {
    if mode == MODE_1080P then [0x00, 0x00, 0x00, 0x65, 0x04] else [0x00, 0x00, 0x00, 0xEE, 0x02]
  }

  function Flags(s: State): (f: seq<bool>)
    requires WellFormed(s)
    ensures |f| == REG_NUM
  {
    seq(REG_NUM, i requires 0 <= i < REG_NUM => !s.init || s.data[i] != s.pre[i])
  }

  /** The sensor after the flagged registers are written. */
  function Written(sensor: seq<u32>, data: seq<u32>, update: seq<bool>): (r: seq<u32>)
    requires |sensor| == |data| == |update| == REG_NUM
    ensures |r| == REG_NUM
  {
    seq(REG_NUM, i requires 0 <= i < REG_NUM => if update[i] then data[i] else sensor[i])
  }

  function Step(s: State, op: Op): (t: State)
    requires WellFormed(s)
    ensures WellFormed(t)
  {
    match op
    case Fps(fps) =>
      if SupportedFps(s.mode, fps) then
        var lines := StdLines(s.mode, fps);
        s.(data := WithVmax(s.data, lines), lines := lines, linesStd := lines)
      else s
    case SlowFramerate(asked) =>
      var lines := AtMost(asked, FULL_LINES_MAX);
      s.(data := WithVmax(s.data, lines), lines := lines)
    case IntTime(time) =>
      var value := (s.lines - time) % 0x1_0000_0000;
      s.(data := s.data[0 := LowByte(value)][1 := HighByte(value)])
    case Gains(again, dgain) =>
      s.(data := s.data[2 := LowByte(AtMost((again + dgain) % 0x1_0000_0000, GAIN_MAX))])
    case PixelDetect(on) =>
      if on then s.(sensor := CalibrationRegisters(s.mode))
      else s.(sensor := WithVmax(s.sensor, s.linesStd), init := false)
    case WdrMode => s.(init := false)
    case ImageMode(size) =>
      if Switches(s.mode, s.sensorInit, size) then
        var mode := ModeFor(s.mode, size.value).value;
        s.(init := false, mode := mode, sensorInit := true, sensor := InitRegisters(mode))
      else s.(init := false)
    case GlobalInit =>
      State([0, 0, 0, 0, 0], [false, false, false, false, false], [0, 0, 0, 0, 0], s.sensor, false, false,
            MODE_1080P, VMAX_1080P30, VMAX_1080P30)
    case Read =>
      s.(update := Flags(s), init := true, pre := s.data, sensor := Written(s.sensor, s.data, Flags(s)))
    case ReadNull =>
      s.(update := Flags(s), init := true)
  }

  // ---- Refinement over whole runs ----

  function Start(sensor: seq<u32>): (s: State)
    requires |sensor| == REG_NUM
    ensures WellFormed(s)
  {
    State([0, 0, 0, 0, 0], [false, false, false, false, false], [0, 0, 0, 0, 0], sensor, false, false,
          MODE_1080P, VMAX_1080P30, VMAX_1080P30)
  }

  const NO_WISH := Wish(0, 0, 0, MODE_1080P, VMAX_1080P30, VMAX_1080P30, false, false)

  function Run(sensor: seq<u32>, ops: seq<Op>): (s: State)
    requires |sensor| == REG_NUM
    ensures WellFormed(s)
  {
    if ops == [] then Start(sensor) else Step(Run(sensor, ops[..|ops| - 1]), ops[|ops| - 1])
  }

  function Asked(ops: seq<Op>): Wish {
    if ops == [] then NO_WISH else Asks(Asked(ops[..|ops| - 1]), ops[|ops| - 1])
  }

  /** The shadow holds the wish. */
  predicate Shadows(s: State, w: Wish)
    requires WellFormed(s)
  {
    && s.data == Registers(w)
    && s.mode == w.mode && s.lines == w.lines && s.linesStd == w.linesStd && s.sensorInit == w.sensorInit
    && w.shutter < 65536 && w.gain < 256 && w.vmax < 65536
  }

  /** Once a full update is done, what was last sent is what the sensor has, calibration apart. */
  predicate SensorKnown(s: State, calibrating: bool)
    requires WellFormed(s)
  {
    s.init && !calibrating ==> s.sensor == s.pre
  }

  lemma ModWords(x: int)
    ensures (x % 0x1_0000_0000) % 256 == x % 65536 % 256
    ensures (x % 0x1_0000_0000) / 256 % 256 == x % 65536 / 256 % 256
  {
    LowHalf(x);
    BytesOfHalf(x % 0x1_0000_0000);
  }

  lemma LowHalf(x: int)
    ensures x % 0x1_0000_0000 % 65536 == x % 65536
  {
    var q, r := x / 0x1_0000_0000, x % 0x1_0000_0000;
    assert x == 65536 * (65536 * q) + r;
    AddsMultiple(r, 65536 * q);
  }

  lemma AddsMultiple(r: int, n: int)
    ensures (65536 * n + r) % 65536 == r % 65536
  {
  }

  lemma BytesOfHalf(r: nat)
    ensures r % 65536 % 256 == r % 256 && r % 65536 / 256 == r / 256 % 256
  {
    var a, b := r / 65536, r % 65536;
    assert r == 256 * (256 * a) + b;
    assert r / 256 == 256 * a + b / 256;
  }

  lemma StepShadows(s: State, w: Wish, op: Op)
    requires WellFormed(s) && Shadows(s, w)
    ensures Shadows(Step(s, op), Asks(w, op))
  {
    hide LinesPerSecond, Flags, Written, LowByte, HighByte, StdLines, ModeFor, Switches, SupportedFps;
    match op {
      case IntTime(time) => ShutterBytes(w.lines - time);
      case Fps(fps) =>
        if SupportedFps(s.mode, fps) { StdLinesSmall(s.mode, fps); }
      case GlobalInit => ZeroBytes();
      case _ =>
    }
  }

  lemma ShutterBytes(x: int)
    ensures LowByte(x % 0x1_0000_0000) == LowByte(x % 65536)
    ensures HighByte(x % 0x1_0000_0000) == HighByte(x % 65536)
  {
    ModWords(x);
  }

  lemma ZeroBytes()
    ensures LowByte(0) == 0 && HighByte(0) == 0
  {
  }

  lemma StdLinesSmall(mode: nat, fps: real)
    requires SupportedFps(mode, fps)
    ensures StdLines(mode, fps) <= FULL_LINES_MAX
  {
  }

  lemma StepSensor(s: State, op: Op, calibrating: bool)
    requires WellFormed(s) && SensorKnown(s, calibrating)
    requires op == ReadNull ==> s.init
    ensures SensorKnown(Step(s, op), if op.PixelDetect? then op.on else calibrating)
    ensures op == Read && !calibrating ==> Step(s, op).sensor == s.data
  {
    hide StdLines, ModeFor, Switches, SupportedFps;
  }

  /** No null read comes while a full update is due. */
  predicate NoNullReadWhenDue(sensor: seq<u32>, ops: seq<Op>)
    requires |sensor| == REG_NUM
  {
    forall k :: 0 <= k < |ops| && ops[k] == ReadNull ==> Run(sensor, ops[..k]).init
  }

  lemma {:induction false} RunShadows(sensor: seq<u32>, ops: seq<Op>)
    requires |sensor| == REG_NUM
    ensures Shadows(Run(sensor, ops), Asked(ops))
  {
    hide Step, Asks;
    if ops == [] {
      ZeroBytes();
    } else {
      var n := |ops| - 1;
      RunShadows(sensor, ops[..n]);
      StepShadows(Run(sensor, ops[..n]), Asked(ops[..n]), ops[n]);
    }
  }

  lemma {:induction false} RunRefines(sensor: seq<u32>, ops: seq<Op>)
    requires |sensor| == REG_NUM && NoNullReadWhenDue(sensor, ops)
    ensures Shadows(Run(sensor, ops), Asked(ops))
    ensures SensorKnown(Run(sensor, ops), Asked(ops).calibrating)
  {
    hide Step, Asks, Shadows;
    RunShadows(sensor, ops);
    if ops == [] {
    } else {
      var n := |ops| - 1;
      forall k | 0 <= k < n && ops[..n][k] == ReadNull
        ensures Run(sensor, ops[..n][..k]).init
      {
        assert ops[..n][..k] == ops[..k] && ops[k] == ReadNull;
      }
      RunRefines(sensor, ops[..n]);
      var s, w := Run(sensor, ops[..n]), Asked(ops[..n]);
      assert ops[n] == ReadNull ==> s.init;
      StepSensor(s, ops[n], w.calibrating);
      CalibratingAfter(w, ops[n]);
    }
  }

  lemma CalibratingAfter(w: Wish, op: Op)
    ensures Asks(w, op).calibrating == if op.PixelDetect? then op.on else w.calibrating
  {
  }

  /** After every read outside calibration, the first one after it included, the sensor holds what was asked for. */
  lemma SensorHoldsTheWish(sensor: seq<u32>, ops: seq<Op>)
    requires |sensor| == REG_NUM && NoNullReadWhenDue(sensor, ops)
    requires ops != [] && ops[|ops| - 1] == Read && !Asked(ops).calibrating
    ensures Run(sensor, ops).sensor == Registers(Asked(ops))
  {
    hide Asks, Step, Registers;
    RunRefines(sensor, ops);
    ReadResult(Run(sensor, ops[..|ops| - 1]));
  }

  lemma ReadResult(s: State)
    requires WellFormed(s)
    ensures Step(s, Read).init && Step(s, Read).pre == Step(s, Read).data == s.data
  {
  }

  /** Outside calibration a read after the first sends exactly the registers that differ from the sensor's. */
  lemma ReadSendsTheDifference(sensor: seq<u32>, ops: seq<Op>, i: nat)
    requires |sensor| == REG_NUM && NoNullReadWhenDue(sensor, ops) && i < REG_NUM
    requires Run(sensor, ops).init && !Asked(ops).calibrating
    ensures Step(Run(sensor, ops), Read).update[i] <==> Run(sensor, ops).sensor[i] != Registers(Asked(ops))[i]
  {
    hide Asks, Registers;
    RunRefines(sensor, ops);
  }

  /** A null read while a full update is due does lose it: here the new exposure never reaches the sensor. */
  lemma NullReadLosesUpdate()
    ensures var ops := [ReadNull, Read];
            var sensor := [9, 9, 9, 9, 9];
            !Asked(ops).calibrating && Run(sensor, ops).sensor != Registers(Asked(ops))
  {
    var sensor: seq<u32> := [9, 9, 9, 9, 9];
    var s0 := Start(sensor);
    assert [ReadNull, Read][..1] == [ReadNull] && [ReadNull][..0] == [];
    assert Run(sensor, [ReadNull]) == Step(s0, ReadNull);
    assert Run(sensor, [ReadNull, Read]) == Step(Step(s0, ReadNull), Read);
    assert Step(Step(s0, ReadNull), Read).sensor[0] == 9;
    assert Asked([ReadNull]) == Asks(NO_WISH, ReadNull) && Asked([ReadNull, Read]) == Asks(Asked([ReadNull]), Read);
    assert Registers(NO_WISH)[0] == 0;
  }

  /** A register that the driver takes for unchanged although the sensor has something else. */
  predicate Overlooked(s: State, i: nat)
    requires WellFormed(s) && i < REG_NUM
  {
    s.init && s.data[i] == s.pre[i] && s.sensor[i] != s.data[i]
  }

  lemma ReadRepairs(s: State)
    requires WellFormed(s)
    ensures Step(s, Read).sensor == s.data <==> forall i :: 0 <= i < REG_NUM ==> !Overlooked(s, i)
  {
    var t := Step(s, Read);
    assert forall i :: 0 <= i < REG_NUM ==> (t.sensor[i] == s.data[i] <==> !Overlooked(s, i));
    if forall i :: 0 <= i < REG_NUM ==> !Overlooked(s, i) {
      assert t.sensor == s.data;
    }
  }

  /** Whatever null reads there were, a read leaves the sensor with what was asked for exactly when no register is
      overlooked just before it: none is while a full update is due. */
  lemma NullReadExact(sensor: seq<u32>, ops: seq<Op>)
    requires |sensor| == REG_NUM && ops != [] && ops[|ops| - 1] == Read
    ensures var before := Run(sensor, ops[..|ops| - 1]);
            Run(sensor, ops).sensor == Registers(Asked(ops))
            <==> forall i :: 0 <= i < REG_NUM ==> !Overlooked(before, i)
  {
    hide Overlooked, Asks, Registers;
    var n := |ops| - 1;
    RunShadows(sensor, ops);
    RunShadows(sensor, ops[..n]);
    ReadRepairs(Run(sensor, ops[..n]));
    ReadResult(Run(sensor, ops[..n]));
  }

  // ---- Frame length, exposure and gain ----

  /** The frame length is the longest that keeps the requested rate. */
  lemma StdLinesIsLongest(mode: nat, fps: real, n: nat)
    requires SupportedFps(mode, fps)
    ensures n <= StdLines(mode, fps) <==> n <= FULL_LINES_MAX && n as real * fps <= LinesPerSecond(mode) as real
  {
    var total := LinesPerSecond(mode) as real;
    var quotient := total / fps;
    assert quotient * fps == total;
    LinesBound(mode, fps);
    if n as real <= quotient {
      assert n as real * fps <= quotient * fps;
    } else {
      assert n as real * fps > quotient * fps;
    }
  }

  function MaxIntTime(lines: u32): u32 {
    (lines - 2) % 0x1_0000_0000
  }

  function Shutter(lines: u32, time: u32): nat {
    (lines - time) % 65536
  }

  /** The exposure limit the driver reports keeps the shutter value at 2 or more, exactly when there are two lines. */
  lemma LimitIsSafe(lines: u32)
    requires lines <= FULL_LINES_MAX
    ensures (forall time: u32 :: time <= MaxIntTime(lines) ==> Shutter(lines, time) == lines - time >= 2)
            <==> lines >= 2
  {
    if lines >= 2 {
      forall time: u32 | time <= MaxIntTime(lines)
        ensures Shutter(lines, time) == lines - time >= 2
      {
      }
    } else {
      var time: u32 := lines;
      assert time <= MaxIntTime(lines) && Shutter(lines, time) == 0;
    }
  }

  /** For example, with one line the reported limit is the largest number there is, and a time of 5 wraps. */
  lemma OneLineWraps()
    ensures MaxIntTime(1) == 0xFFFF_FFFF && Shutter(1, 5) == 65532
  {
  }

  // ---- In numbers ----

  /** The mode call and its answer. A first success initialises the sensor for 720 or 1080 lines; later ones have to
      change the mode. Too high a rate is refused, and a size beyond 1920 by 1080 asks for the mode in force. */
  lemma ImageModeInNumbers(s: State, size: Size, ok: bool)
    requires WellFormed(s) && ok == Switches(s.mode, s.sensorInit, Some(size))
    ensures var t := Step(s, ImageMode(Some(size)));
            var small := size.width <= 1280 && size.height <= 720;
            var large := !small && size.width <= 1920 && size.height <= 1080;
            var asked := if small then 2 else if large then 1 else s.mode;
            && (ok <==> !(small && size.fps > 60.0) && !(large && size.fps > 30.0)
                        && (!s.sensorInit || asked != s.mode))
            && t.mode == (if ok then asked else s.mode) && t.sensorInit == (s.sensorInit || ok) && !t.init
            && t.sensor == (if !ok then s.sensor else if asked == 2 then [0, 0, 0, 238, 2] else [0, 0, 0, 101, 4])
            && (ok ==> t.sensor[3] + 256 * t.sensor[4] == if asked == 2 then 750 else 1125)
            && t.data == s.data && t.lines == s.lines && t.linesStd == s.linesStd
  {
    assert s.mode == 1 || s.mode == 2;
  }

  /** Without a size the call is refused. */
  lemma NoImageMode(s: State)
    requires WellFormed(s)
    ensures Step(s, ImageMode(None)) == s.(init := false) && !Switches(s.mode, s.sensorInit, None)
  {
  }

  /** Calibration writes shutter 2, gain 0 and the frame length of five frames a second straight into the sensor; its
      end writes the normal frame length and makes a full update due. */
  lemma CalibrationInNumbers(s: State)
    requires WellFormed(s)
    ensures var t := Step(s, PixelDetect(true));
            && t.sensor[0] + 256 * t.sensor[1] == 2 && t.sensor[2] == 0
            && t.sensor[3] + 256 * t.sensor[4] == (if s.mode == 2 then 9000 else 6750)
            && t == s.(sensor := t.sensor)
    ensures var t := Step(s, PixelDetect(false));
            && t.sensor[..3] == s.sensor[..3] && t.sensor[3] + 256 * t.sensor[4] == s.linesStd
            && t == s.(sensor := t.sensor, init := false)
  {
    assert s.mode == 1 || s.mode == 2;
  }

  /** The rates a mode supports, and the frame length set for one: the longest that keeps it, in 16 bits. */
  lemma FpsInNumbers(s: State, fps: real, n: nat)
    requires WellFormed(s)
    ensures var t := Step(s, Fps(fps));
            if (s.mode == 1 && 0.51 <= fps <= 30.0) || (s.mode == 2 && 0.68 <= fps <= 60.0) then
              && (n <= t.lines <==> n <= 65535 && n as real * fps <= if s.mode == 2 then 45000.0 else 33750.0)
              && t.linesStd == t.lines && t.data[3] + 256 * t.data[4] == t.lines && t.data[..3] == s.data[..3]
              && t == s.(data := t.data, lines := t.lines, linesStd := t.lines)
            else t == s
  {
    hide StdLines;
    if SupportedFps(s.mode, fps) {
      StdLinesIsLongest(s.mode, fps, n);
      StdLinesSmall(s.mode, fps);
      assert LinesPerSecond(s.mode) as real == if s.mode == 2 then 45000.0 else 33750.0;
    }
  }

  /** The other registers: a longer frame, the exposure counted from its end, and the gain. */
  lemma SlowFramerateInNumbers(s: State, lines: u32)
    requires WellFormed(s)
    ensures var t := Step(s, SlowFramerate(lines));
            && t.lines == (if lines <= 65535 then lines else 65535) && t.data[3] + 256 * t.data[4] == t.lines
            && t.data[..3] == s.data[..3] && t == s.(data := t.data, lines := t.lines)
  {
  }

  lemma ExposureInNumbers(s: State, time: u32)
    requires WellFormed(s)
    ensures var t := Step(s, IntTime(time));
            && t.data[0] + 256 * t.data[1] == (s.lines - time) % 65536
            && t.data[2..] == s.data[2..] && t == s.(data := t.data)
  {
    hide LowByte, HighByte;
    ShutterBytes(s.lines - time);
    TwoBytes((s.lines - time) % 65536);
  }

  lemma TwoBytes(x: int)
    requires 0 <= x < 65536
    ensures LowByte(x) + 256 * HighByte(x) == x
  {
  }

  lemma GainsInNumbers(s: State, again: u32, dgain: u32)
    requires WellFormed(s)
    ensures var t := Step(s, Gains(again, dgain));
            var sum := (again + dgain) % 4_294_967_296;
            t == s.(data := s.data[2 := if sum <= 140 then sum else 140])
  {
  }

  /** A fresh driver, and the one after a global initialisation: mode 1, 1125 lines, an empty shadow, nothing sent. */
  lemma StartInNumbers(sensor: seq<u32>, s: State)
    requires |sensor| == REG_NUM && WellFormed(s)
    ensures var t := Start(sensor);
            && t.mode == 1 && t.lines == t.linesStd == 1125 && !t.init && !t.sensorInit && t.sensor == sensor
            && t.data == t.pre == [0, 0, 0, 0, 0] && t.update == [false, false, false, false, false]
    ensures Step(s, GlobalInit) == Start(s.sensor)
    ensures Step(s, WdrMode) == s.(init := false)
  {
  }

  /** A read: every register while a full update is due, otherwise those that changed; a null read sends nothing. */
  lemma ReadInNumbers(s: State, i: nat)
    requires WellFormed(s) && i < 5
    ensures var t := Step(s, Read);
            && t.init && t.data == t.pre == s.data
            && t.update[i] == (!s.init || s.data[i] != s.pre[i])
            && t.sensor[i] == if t.update[i] then s.data[i] else s.sensor[i]
    ensures var t := Step(s, ReadNull);
            t == s.(init := true, update := t.update) && t.update[i] == (!s.init || s.data[i] != s.pre[i])
  {
  }
}

/** The unit conversions of `MotorControl` (lines 333-440 of the C# class). Each list helper
    appends one converted element per input element to a fresh list and has no other effect,
    so it is a pure sequence function here; the element conversion is named separately. */
module Units {
  import opened Hardware

  /** `Math.Round(double)`: to the nearest integer, halves to the even neighbour. */
  function Round(x: real): (r: int)
    ensures x - 0.5 <= r as real <= x + 0.5
    ensures x == x.Floor as real ==> r == x.Floor
  {
    var f := x.Floor;
    var d := x - f as real;
    if d < 0.5 then f
    else if d > 0.5 then f + 1
    else if f % 2 == 0 then f else f + 1
  }

  /** `Math.Ceiling`: the least integer not below `x`. */
  function Ceiling(x: real): (r: int)
    ensures x <= r as real < x + 1.0
  {
    -((-x).Floor)
  }

  // ---- element conversions ----

  /** Position [mm] to drive ticks; positive travel is negative ticks. */
  function MmToTicks(p: real): int
  {
    -Round(p * TicksPerRev / Pitch)
  }

  function TicksToMm(t: int): real
  {
    -(t as real) * Pitch / TicksPerRev
  }

  /** Velocity [mm/s] to the drive's velocity unit. */
  function MmPerSecToTicks(v: real): int
  {
    -Round(v * 10.0 * TicksPerRev / Pitch / VelocityResolution)
  }

  function TicksToMmPerSec(t: int): real
  {
    -(t as real) * Pitch * VelocityResolution / TicksPerRev / 10.0
  }

  /** A raw word of the linear position sensor to [mm], as the homing search reads it. */
  function SensorToMm(raw: int): real
  {
    raw as real * LinearPosGain
  }

  // ---- list conversions, named as in the C# class ----

  function MotorSpeedToVelocity(motorSpeeds: seq<int>): (velocities: seq<real>)
    ensures |velocities| == |motorSpeeds|
  {
    seq(|motorSpeeds|, i requires 0 <= i < |motorSpeeds| => -(motorSpeeds[i] as real) / 256.0)
  }

  function PositionToTick(positions: seq<real>): (ticks: seq<int>)
    ensures |ticks| == |positions|
  {
    seq(|positions|, i requires 0 <= i < |positions| => MmToTicks(positions[i]))
  }

  function VelocityToTicksPerSecond(velocities: seq<real>): (ticks: seq<int>)
    ensures |ticks| == |velocities|
  {
    seq(|velocities|, i requires 0 <= i < |velocities| => MmPerSecToTicks(velocities[i]))
  }

  function TickToPosition(ticks: seq<int>): (positions: seq<real>)
    ensures |positions| == |ticks|
  {
    seq(|ticks|, i requires 0 <= i < |ticks| => TicksToMm(ticks[i]))
  }

  function TicksPerSecondToVelocity(ticksPerSecond: seq<int>): (velocities: seq<real>)
    ensures |velocities| == |ticksPerSecond|
  {
    seq(|ticksPerSecond|, i requires 0 <= i < |ticksPerSecond| => TicksToMmPerSec(ticksPerSecond[i]))
  }

  function TimeToSeconds(time: seq<int>): (seconds: seq<real>)
    ensures |seconds| == |time|
  {
    seq(|time|, i requires 0 <= i < |time| => time[i] as real / TimePerSecond)
  }

  function MotorTorquesToTorques(motorTorques: seq<int>): (torques: seq<real>)
    ensures |torques| == |motorTorques|
  {
    seq(|motorTorques|, i requires 0 <= i < |motorTorques| => motorTorques[i] as real / MotorTorquePerTorque)
  }

  function MotorPressureToPressure(motorPressure: seq<int>): (pressure: seq<real>)
    ensures |pressure| == |motorPressure|
  {
    seq(|motorPressure|, i requires 0 <= i < |motorPressure| => motorPressure[i] as real * PressureGain + PressureBias)
  }

  function Uns16ToLinPos(raw: seq<int>): (linearPos: seq<real>)
    ensures |linearPos| == |raw|
  {
    seq(|raw|, i requires 0 <= i < |raw| => raw[i] as real * LinearPosGain + LinearPosBias)
  }

  /** The scale factor is the integer quotient `5 / 65535`, which is 0, not a real fraction. */
  function Uns16ToVdc(analogIn: seq<int>): (vdc: seq<real>)
    ensures |vdc| == |analogIn|
  {
    seq(|analogIn|, i requires 0 <= i < |analogIn| => analogIn[i] as real * ((5 / 65535) as real))
  }

  // ---- properties ----

  /** One tick is 1/128 mm, with the inverted sign; a tick count survives the round trip exactly. */
  lemma TickRoundTrip(t: int)
    ensures TicksToMm(t) == -(t as real) / 128.0
    ensures MmToTicks(TicksToMm(t)) == t
  {
    assert TicksToMm(t) * TicksPerRev / Pitch == (-t) as real;
  }

  /** A position survives the round trip through ticks to within half a tick (1/256 mm),
      and the sign of travel is inverted. */
  lemma PositionQuantisation(p: real)
    ensures MmToTicks(p) == -Round(128.0 * p)
    ensures -1.0 / 256.0 <= TicksToMm(MmToTicks(p)) - p <= 1.0 / 256.0
    ensures p > 0.0 ==> MmToTicks(p) <= 0
    ensures p < 0.0 ==> MmToTicks(p) >= 0
  {
    assert p * TicksPerRev / Pitch == 128.0 * p;
  }

  /** One velocity unit is 1/80 mm/s, with the inverted sign; exact round trip from the device side. */
  lemma VelocityTickRoundTrip(t: int)
    ensures TicksToMmPerSec(t) == -(t as real) / 80.0
    ensures MmPerSecToTicks(TicksToMmPerSec(t)) == t
  {
    assert TicksToMmPerSec(t) * 10.0 * TicksPerRev / Pitch / VelocityResolution == (-t) as real;
  }

  /** A velocity survives the round trip to within 1/160 mm/s, with the sign inverted. */
  lemma VelocityQuantisation(v: real)
    ensures MmPerSecToTicks(v) == -Round(80.0 * v)
    ensures -1.0 / 160.0 <= TicksToMmPerSec(MmPerSecToTicks(v)) - v <= 1.0 / 160.0
    ensures v > 0.0 ==> MmPerSecToTicks(v) <= 0
    ensures v < 0.0 ==> MmPerSecToTicks(v) >= 0
  {
    assert v * 10.0 * TicksPerRev / Pitch / VelocityResolution == 80.0 * v;
  }

  /** Converting device values to physical units and back returns the device values. */
  lemma {:induction false} DeviceRoundTrips(ticks: seq<int>)
    ensures PositionToTick(TickToPosition(ticks)) == ticks
    ensures VelocityToTicksPerSecond(TicksPerSecondToVelocity(ticks)) == ticks
  {
    forall i | 0 <= i < |ticks|
      ensures PositionToTick(TickToPosition(ticks))[i] == ticks[i]
      ensures VelocityToTicksPerSecond(TicksPerSecondToVelocity(ticks))[i] == ticks[i]
    {
      TickRoundTrip(ticks[i]);
      VelocityTickRoundTrip(ticks[i]);
    }
  }

  /** Converting to ticks, back, and to ticks again is the first conversion: quantisation is stable. */
  lemma {:induction false} PositionTicksStable(positions: seq<real>)
    ensures PositionToTick(TickToPosition(PositionToTick(positions))) == PositionToTick(positions)
    ensures forall i :: 0 <= i < |positions| ==>
      -1.0 / 256.0 <= TickToPosition(PositionToTick(positions))[i] - positions[i] <= 1.0 / 256.0
  {
    DeviceRoundTrips(PositionToTick(positions));
    forall i | 0 <= i < |positions|
      ensures -1.0 / 256.0 <= TickToPosition(PositionToTick(positions))[i] - positions[i] <= 1.0 / 256.0
    {
      PositionQuantisation(positions[i]);
    }
  }

  /** The pressure channel conversion yields only zeros, whatever the raw words. */
  lemma PressureChannelIsZero(analogIn: seq<int>)
    ensures forall i :: 0 <= i < |analogIn| ==> Uns16ToVdc(analogIn)[i] == 0.0
  {
    assert 5 / 65535 == 0;
  }

  /** The logged linear position agrees with the homing search's reading: raw * 100 / 65420 mm. */
  lemma LinearSensorScale(raw: seq<int>)
    ensures forall i :: 0 <= i < |raw| ==>
      Uns16ToLinPos(raw)[i] == SensorToMm(raw[i]) == raw[i] as real * 100.0 / 65420.0
  {
  }

  /** The device time counter runs at 2000 counts per second; motor torque is in thousandths;
      the pressure conversion has unit gain and no bias; motor speed is in 1/256 units. */
  lemma ScaleFactors(raw: seq<int>)
    ensures forall i :: 0 <= i < |raw| ==> TimeToSeconds(raw)[i] * 2000.0 == raw[i] as real
    ensures forall i :: 0 <= i < |raw| ==> MotorTorquesToTorques(raw)[i] * 1000.0 == raw[i] as real
    ensures forall i :: 0 <= i < |raw| ==> MotorPressureToPressure(raw)[i] == raw[i] as real
    ensures forall i :: 0 <= i < |raw| ==> MotorSpeedToVelocity(raw)[i] * 256.0 == -(raw[i] as real)
  {
  }
}

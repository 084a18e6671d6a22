/** The caller-owned dive configuration. */
module Params {

  /** `DiveParameters`: speeds in m/s, durations in s, depths in m,
      gradient factors in (0, 1], SAC rate in litres per minute. */
  datatype DiveParameters = DiveParameters(
    descentSpeed: real,
    ascentSpeed: real,
    safetyStopAscentSpeed: real,
    safetyStopDuration: real,
    safetyStopDepth: real,
    gfLow: real,
    gfHigh: real,
    sacRate: real)

  /** Speeds the simulator can step with: both strictly positive. */
  predicate PositiveSpeeds(p: DiveParameters) {
    p.descentSpeed > 0.0 && p.ascentSpeed > 0.0
  }

  /** `DiveParameters::new(gf_high, gf_low)`: note the argument order, high
      first. Descent at 1/3 m/s, ascent at 1/6 m/s. */
  function New(gfHigh: real, gfLow: real): (p: DiveParameters)
    ensures p.gfHigh == gfHigh && p.gfLow == gfLow
    ensures p.descentSpeed == 0.333333333 && p.ascentSpeed == 0.1666667
    ensures PositiveSpeeds(p) && p.ascentSpeed < p.descentSpeed
  {
    DiveParameters(0.333333333, 0.1666667, 0.083, 3.0, 5.0, gfLow, gfHigh, 20.0)
  }

  /** `DiveParameters::default()`: gradient factors 100/100, descent 0.33 m/s
      and ascent 0.17 m/s. */
  function Default(): (p: DiveParameters)
    ensures p.gfLow == 1.0 && p.gfHigh == 1.0
    ensures p.descentSpeed == 0.33 && p.ascentSpeed == 0.17
    ensures PositiveSpeeds(p) && p.ascentSpeed < p.descentSpeed
  {
    DiveParameters(0.33, 0.17, 0.083, 3.0, 5.0, 1.0, 1.0, 20.0)
  }
}

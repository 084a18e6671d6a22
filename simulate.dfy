/** The dive simulator: descent, bottom time, a free ascent with
    gradient-factor decompression stops, and a final minute of surface
    off-gassing, stepped one second at a time over a caller-owned bank. */
module Simulate {
  import opened Maths
  import opened ZhL16c
  import opened Gas
  import opened Kinetics
  import opened Params
  import opened Ceiling

  /** Safety cap on loop iterations; the loop stops silently on reaching it. */
  const MAX_ITERATIONS: nat := 50000000
  /** The fixed internal time step, in seconds. */
  const INTERNAL_STEP: real := 1.0
  /** Surface off-gassing after the ascent, in seconds. */
  const SURFACE_TIME_NEEDED: real := 60.0
  /** A stop shorter than this is carried over into the next stop, in seconds. */
  const MIN_STOP_TIME: real := 60.0
  /** A stop is abandoned after this long, in seconds (20 minutes). */
  const MAX_STOP_TIME: real := 1200.0
  /** The ceiling must be this much shallower than the stop to leave it, in metres. */
  const CEILING_CLEARANCE: real := 0.5
  /** Shallower than this the free ascent uses a more conservative ceiling, in metres. */
  const NEAR_SURFACE_DEPTH: real := 6.0
  /** The factor applied to the gradient factor near the surface. */
  const NEAR_SURFACE_GF_FACTOR: real := 0.9

  /** `SimulationOutputs` (the variant that records): three parallel time
      series, appended to together. */
  class SimulationOutputs {
    var depths: seq<real>
    var pressures: seq<real>
    var tissuesPerInterval: seq<seq<Tissue>>

    /** The three series have equal lengths and every snapshot is a bank. */
    predicate Valid()
      reads this
    {
      |depths| == |pressures| == |tissuesPerInterval|
      && forall k :: 0 <= k < |tissuesPerInterval| ==> IsBank(tissuesPerInterval[k])
    }

    /** The three series as a value. */
    function Recorded(): Series
      reads this
    {
      Series(depths, pressures, tissuesPerInterval)
    }

    constructor ()
      ensures Valid()
      ensures depths == [] && pressures == [] && tissuesPerInterval == []
    {
      depths := [];
      pressures := [];
      tissuesPerInterval := [];
    }

    /** `record_output`: one sample appended to each series. */
    method Record(depth: real, pressure: real, tissues: array<Tissue>)
      requires Valid() && tissues.Length == COMPARTMENTS
      modifies this
      ensures Valid()
      ensures depths == old(depths) + [depth]
      ensures pressures == old(pressures) + [pressure]
      ensures tissuesPerInterval == old(tissuesPerInterval) + [tissues[..]]
    {
      depths := depths + [depth];
      pressures := pressures + [pressure];
      tissuesPerInterval := tissuesPerInterval + [tissues[..]];
    }
  }

  /** The three recorded series as a value: depths, ambient pressures and
      bank snapshots, one entry per sample. */
  datatype Series = Series(depths: seq<real>, pressures: seq<real>, banks: seq<seq<Tissue>>)

  /** Series b continues series a: each of a's three series is a prefix of b's. */
  predicate SeriesPrefix(a: Series, b: Series) {
    a.depths <= b.depths && a.pressures <= b.pressures && a.banks <= b.banks
  }

  /** The output bookkeeping of one step of `step` seconds that ended at
      `depth` and `amb` with bank ts, from accumulator acc and series log:
      the new accumulator and series. */
  function Ticked(interval: real, acc: real, log: Series, step: real, depth: real, amb: real,
                  ts: seq<Tissue>): (r: (real, Series))
    // the series only grows, by at most the sample taken at the end of the step
    ensures SeriesPrefix(log, r.1)
    ensures r.1 == log || r.1 == Series(log.depths + [depth], log.pressures + [amb], log.banks + [ts])
    // a sample is taken exactly when the accumulator reaches the interval,
    // which then drops by the interval rather than to zero
    ensures var taken := acc + step >= interval;
      |r.1.depths| == |log.depths| + (if taken then 1 else 0)
      && r.0 == acc + step - (if taken then interval else 0.0)
  {
    if acc + step >= interval then
      (acc + step - interval, Series(log.depths + [depth], log.pressures + [amb], log.banks + [ts]))
    else
      (acc + step, log)
  }

  /** `internal_step.min(distance / speed)`: a time step of at most one
      second that never carries the diver past the goal, and lands on it
      exactly when the goal is within one step. */
  function StepToward(distance: real, speed: real): (step: real)
    requires distance >= 0.0 && speed > 0.0
    ensures 0.0 <= step <= INTERNAL_STEP
    ensures speed * step == Min(distance, speed)
    ensures distance > speed ==> step == INTERNAL_STEP
  {
    assert speed * (distance / speed) == distance;
    if distance > speed then
      DivAboveOne(distance, speed);
      INTERNAL_STEP
    else
      Min(INTERNAL_STEP, distance / speed)
  }

  /** One ascent step toward a shallower goal: the time step, and the
      depth reached, which is the goal or one second's rise higher up,
      whichever is deeper. */
  method AscendToward(depth: real, goal: real, speed: real) returns (step: real, newDepth: real)
    requires goal <= depth && speed > 0.0
    ensures 0.0 <= step <= INTERNAL_STEP && (goal < depth ==> 0.0 < step)
    ensures depth - goal > speed ==> step == INTERNAL_STEP
    ensures newDepth == Max(goal, depth - speed)
    ensures step == StepToward(depth - goal, speed)
  {
    step := StepToward(depth - goal, speed);
    newDepth := depth - speed * step;
  }

  lemma FloorIs(x: real, n: int)
    requires n as real <= x < n as real + 1.0
    ensures x.Floor == n
  {
  }

  /** `calculate_deco_stop_depth`: `(ceiling + 2.999) / 3` truncated, times
      3, and at least 3: the shallowest multiple of 3 that is at least the
      ceiling, never shallower than 3 m. */
  function DecoStopDepth(ceiling: nat): (d: nat)
    ensures d % 3 == 0 && d >= 3 && d >= ceiling
    ensures ceiling >= 1 ==> d < ceiling + 3
    ensures ceiling <= 3 ==> d == 3
  {
    var q := (ceiling + 2) / 3;
    FloorIs((ceiling as real + 2.999) / 3.0, q);
    var rounded := ((ceiling as real + 2.999) / 3.0).Floor * 3;
    if rounded >= 3 then rounded else 3
  }

  /** The deepest point the simulator can reach for a target depth: the
      target rounded up to a multiple of 3, and at least 3. A stop depth is
      rounded up, so it can lie below the target. */
  ghost function DepthBound(target: real): (b: nat)
    requires target >= 0.0
    ensures IsDepthBound(target, b)
  {
    DepthBoundExists(target);
    var b: nat :| IsDepthBound(target, b);
    b
  }

  /** b is the least multiple of 3 that is at least 3 and not shallower than the target. */
  ghost predicate IsDepthBound(target: real, b: nat) {
    b % 3 == 0 && b >= 3 && target <= b as real && (b == 3 || (b as real) < target + 3.0)
  }

  lemma DepthBoundExists(target: real)
    requires target >= 0.0
    ensures exists b: nat :: IsDepthBound(target, b)
  {
    var k := -((-target / 3.0).Floor);
    var b: nat := if 3 * k >= 3 then 3 * k else 3;
    assert IsDepthBound(target, b);
  }

  /** A stop entered because the ceiling is shallower than the diver is
      never deeper than the depth bound. */
  lemma DecoStopWithinBound(ceiling: nat, depth: real, target: real)
    requires target >= 0.0 && ceiling as real < depth <= DepthBound(target) as real
    ensures DecoStopDepth(ceiling) <= DepthBound(target)
  {
  }

  /** The gradient factor in force during the ascent: gf_high until a first
      stop is known and at the surface, gf_low at or below the first stop,
      and in between a linear interpolation from gf_low at the first stop
      to gf_high at the surface. */
  function CurrentGf(params: DiveParameters, firstStopDepth: Option<nat>, depth: real): (gf: real)
    ensures firstStopDepth.None? || depth <= 0.0 ==> gf == params.gfHigh
    ensures firstStopDepth.Some? && depth > 0.0 ==>
      Min(params.gfLow, params.gfHigh) <= gf <= Max(params.gfLow, params.gfHigh)
    ensures firstStopDepth.Some? && depth > 0.0 && depth >= firstStopDepth.value as real ==> gf == params.gfLow
    ensures firstStopDepth.Some? && 0.0 < depth < firstStopDepth.value as real ==>
      gf == params.gfLow + (params.gfHigh - params.gfLow) * (1.0 - depth / firstStopDepth.value as real)
  {
    match firstStopDepth
    case None => params.gfHigh
    case Some(firstStop) =>
      if depth <= 0.0 then params.gfHigh
      else if depth >= firstStop as real then params.gfLow
      else Interpolate(params.gfLow, params.gfHigh, 1.0 - depth / firstStop as real)
  }

  /** The point a fraction w of the way from lo to hi. */
  function Interpolate(lo: real, hi: real, w: real): (r: real)
    requires 0.0 <= w <= 1.0
    ensures Min(lo, hi) <= r <= Max(lo, hi)
  {
    InterpolationBetween(lo, hi, w);
    lo + (hi - lo) * w
  }

  lemma InterpolationBetween(lo: real, hi: real, w: real)
    requires 0.0 <= w <= 1.0
    ensures Min(lo, hi) <= lo + (hi - lo) * w <= Max(lo, hi)
  {
    if lo <= hi {
      MulNonNegative(hi - lo, w);
      MulMonotone(hi - lo, hi - lo, w, 1.0);
    } else {
      MulNonNegative(lo - hi, w);
      MulMonotone(lo - hi, lo - hi, w, 1.0);
    }
  }

  /** Going further from lo towards a higher hi never gives less. */
  lemma InterpolateMonotone(lo: real, hi: real, w1: real, w2: real)
    requires lo <= hi && 0.0 <= w1 <= w2 <= 1.0
    ensures Interpolate(lo, hi, w1) <= Interpolate(lo, hi, w2)
  {
    MulMonotone(hi - lo, hi - lo, w1, w2);
  }

  /** Dividing by a positive number keeps the order. */
  lemma DivideKeepsOrder(x: real, y: real, z: real)
    requires x <= y && z > 0.0
    ensures x / z <= y / z
  {
    assert y / z - x / z == (y - x) / z;
  }

  /** With gf_low ≤ gf_high the gradient factor never decreases as the
      diver rises: a shallower depth is never held to a lower factor. */
  lemma CurrentGfAntitoneInDepth(params: DiveParameters, firstStopDepth: Option<nat>, d1: real, d2: real)
    requires params.gfLow <= params.gfHigh && d1 <= d2
    ensures CurrentGf(params, firstStopDepth, d2) <= CurrentGf(params, firstStopDepth, d1)
  {
    if firstStopDepth.Some? && d1 > 0.0 && d2 < firstStopDepth.value as real {
      var f := firstStopDepth.value as real;
      DivideKeepsOrder(d1, d2, f);
      InterpolateMonotone(params.gfLow, params.gfHigh, 1.0 - d2 / f, 1.0 - d1 / f);
    }
  }

  /** A stop may be left once the ceiling is gone or at least half a metre
      shallower than the stop. */
  predicate CanLeaveStop(newCeiling: nat, stopDepth: real) {
    newCeiling == 0 || newCeiling as real + CEILING_CLEARANCE < stopDepth
  }

  /** The caller's inputs to `simulate_with_ascent`, gathered. */
  datatype SimConfig = SimConfig(
    params: DiveParameters,
    startingAmbientPressure: real,
    targetDepth: real,
    temperature: real,
    intervalInSeconds: real,
    bottomTimeSeconds: real,
    includeAscent: bool)

  /** What the source needs of its inputs: positive speeds (each step
      divides by one, and a negative step would fail the tissue update's
      assertion) and a target that is not above the surface. */
  predicate ConfigOk(cfg: SimConfig) {
    PositiveSpeeds(cfg.params) && cfg.targetDepth >= 0.0
  }

  /** The deepest recorded depth: the target without the ascent, the depth
      bound with it. */
  ghost function SampleLimit(cfg: SimConfig): real
    requires cfg.targetDepth >= 0.0
  {
    if cfg.includeAscent then DepthBound(cfg.targetDepth) as real else cfg.targetDepth
  }

  /** A recorded sample: a depth in [0, limit] and, in the water, the
      ambient pressure depth / 10 + 1; at the surface it may instead be the
      starting ambient pressure. */
  predicate SampleOk(depth: real, pressure: real, startingAmbientPressure: real, limit: real) {
    0.0 <= depth <= limit
    && (pressure == depth / 10.0 + 1.0 || (depth == 0.0 && pressure == startingAmbientPressure))
  }

  /** Every recorded sample is a SampleOk. */
  predicate SamplesWithin(depths: seq<real>, pressures: seq<real>, startingAmbientPressure: real, limit: real) {
    |depths| == |pressures|
    && forall k :: 0 <= k < |depths| ==> SampleOk(depths[k], pressures[k], startingAmbientPressure, limit)
  }

  lemma SamplesWithinAppend(depths: seq<real>, pressures: seq<real>, depth: real, pressure: real,
                            startingAmbientPressure: real, limit: real)
    requires SamplesWithin(depths, pressures, startingAmbientPressure, limit)
    requires SampleOk(depth, pressure, startingAmbientPressure, limit)
    ensures SamplesWithin(depths + [depth], pressures + [pressure], startingAmbientPressure, limit)
  {
    var ds, ps := depths + [depth], pressures + [pressure];
    forall k | 0 <= k < |ds|
      ensures SampleOk(ds[k], ps[k], startingAmbientPressure, limit)
    {
      if k < |depths| {
        assert ds[k] == depths[k] && ps[k] == pressures[k];
      }
    }
  }

  /** The loop's local state: position, time, phase flags and stop timers. */
  datatype SimState = SimState(
    depth: real,
    ambPressure: real,
    diveTime: real,
    descending: bool,
    bottom: bool,
    ascending: bool,
    atDecoStop: bool,
    firstStopDepth: Option<nat>,
    currentDecoDepth: nat,
    decoStopTime: real,
    accumulatedShortStopTime: real,
    outputAccumulator: real)

  function InitialState(cfg: SimConfig): SimState {
    SimState(0.0, cfg.startingAmbientPressure, 0.0, true, false, false, false, None, 0, 0.0, 0.0, 0.0)
  }

  /** The two states agree on everything but depth, ambient pressure, dive
      time and the output accumulator. */
  predicate SamePhase(a: SimState, b: SimState) {
    a.descending == b.descending && a.bottom == b.bottom && a.ascending == b.ascending
    && a.atDecoStop == b.atDecoStop && a.firstStopDepth == b.firstStopDepth
    && a.currentDecoDepth == b.currentDecoDepth && a.decoStopTime == b.decoStopTime
    && a.accumulatedShortStopTime == b.accumulatedShortStopTime
  }

  /** What holds at the top of every iteration. */
  ghost predicate Inv(cfg: SimConfig, s: SimState)
    requires cfg.targetDepth >= 0.0
  {
    var bound := DepthBound(cfg.targetDepth);
    // exactly one phase
    ((s.descending && !s.bottom && !s.ascending)
      || (!s.descending && s.bottom && !s.ascending)
      || (!s.descending && !s.bottom && s.ascending))
    && (s.atDecoStop ==> s.ascending)
    && 0.0 <= s.depth <= bound as real
    && (s.descending ==> s.depth <= cfg.targetDepth)
    && (s.bottom ==> s.depth == cfg.targetDepth)
    && (!s.ascending ==> s.firstStopDepth.None?)
    && (s.firstStopDepth.Some? ==> s.firstStopDepth.value >= 1)
    && 0.0 <= s.accumulatedShortStopTime < MIN_STOP_TIME
    && (s.atDecoStop ==> s.accumulatedShortStopTime == 0.0 && 0.0 <= s.decoStopTime < MAX_STOP_TIME)
    && (s.atDecoStop ==> s.currentDecoDepth % 3 == 0 && 3 <= s.currentDecoDepth <= bound)
    && (!s.atDecoStop ==> s.decoStopTime == 0.0)
  }

  lemma InitialStateOk(cfg: SimConfig)
    requires ConfigOk(cfg)
    ensures Inv(cfg, InitialState(cfg))
  {
  }

  /** The tissue update of one step followed by the output bookkeeping of
      `Ticked`. */
  method Tick(tissues: array<Tissue>, outputs: SimulationOutputs, depth: real, ambPressure: real,
              temperature: real, step: real, interval: real, accumulator: real, exp: ExpFn,
              ghost startingAmbientPressure: real, ghost limit: real)
    returns (newAccumulator: real)
    requires tissues.Length == COMPARTMENTS && step >= 0.0
    requires outputs.Valid()
    requires SamplesWithin(outputs.depths, outputs.pressures, startingAmbientPressure, limit)
    requires SampleOk(depth, ambPressure, startingAmbientPressure, limit)
    modifies tissues, outputs
    ensures outputs.Valid()
    ensures SamplesWithin(outputs.depths, outputs.pressures, startingAmbientPressure, limit)
    ensures tissues[..] == AdvanceAll(old(tissues[..]), ambPressure, temperature, step / 60.0, exp)
    ensures (newAccumulator, outputs.Recorded())
      == Ticked(interval, accumulator, old(outputs.Recorded()), step, depth, ambPressure, tissues[..])
  {
    StepTissues(tissues, ambPressure, temperature, step / 60.0, exp);
    newAccumulator := RecordIfDue(outputs, tissues, depth, ambPressure, step, interval, accumulator,
                                  startingAmbientPressure, limit);
  }

  /** The output bookkeeping after a step: the accumulator grows by the
      step, and once it reaches the interval a sample is recorded and the
      accumulator drops by the interval rather than to zero. */
  method RecordIfDue(outputs: SimulationOutputs, tissues: array<Tissue>, depth: real, ambPressure: real,
                     step: real, interval: real, accumulator: real,
                     ghost startingAmbientPressure: real, ghost limit: real)
    returns (newAccumulator: real)
    requires tissues.Length == COMPARTMENTS && outputs.Valid()
    requires SamplesWithin(outputs.depths, outputs.pressures, startingAmbientPressure, limit)
    requires SampleOk(depth, ambPressure, startingAmbientPressure, limit)
    modifies outputs
    ensures outputs.Valid()
    ensures SamplesWithin(outputs.depths, outputs.pressures, startingAmbientPressure, limit)
    ensures (newAccumulator, outputs.Recorded())
      == Ticked(interval, accumulator, old(outputs.Recorded()), step, depth, ambPressure, tissues[..])
  {
    newAccumulator := accumulator + step;
    if newAccumulator >= interval {
      SamplesWithinAppend(outputs.depths, outputs.pressures, depth, ambPressure, startingAmbientPressure, limit);
      outputs.Record(depth, ambPressure, tissues);
      newAccumulator := newAccumulator - interval;
    }
  }

  /** Loads that start physical stay physical when every ambient pressure
      used, the surface one included, is at least the water-vapour pressure. */
  predicate Physical(cfg: SimConfig, ts: seq<Tissue>) {
    AllNonNegative(ts) && cfg.startingAmbientPressure >= WaterVaporPressure(cfg.temperature)
  }

  /** The bottom time still to spend: the requested bottom time less the
      time since the nominal end of the descent. */
  function BottomTimeLeft(cfg: SimConfig, s: SimState): real
    requires PositiveSpeeds(cfg.params)
  {
    cfg.bottomTimeSeconds - (s.diveTime - cfg.targetDepth / cfg.params.descentSpeed)
  }

  // Each iteration of the loop as a relation between the locals, the bank
  // and the recorded series before it (s, ts, log) and after it (next, ts2,
  // log2).

  /** A descent iteration: at most one second down, never past the target,
      switching to the bottom phase on reaching it. */
  predicate DescentStep(cfg: SimConfig, exp: ExpFn, s: SimState, ts: seq<Tissue>, next: SimState, ts2: seq<Tissue>,
                        log: Series, log2: Series) {
    PositiveSpeeds(cfg.params) && IsBank(ts) && s.depth <= cfg.targetDepth
    && (var step := StepToward(cfg.targetDepth - s.depth, cfg.params.descentSpeed);
        var depth := Min(cfg.targetDepth, s.depth + cfg.params.descentSpeed);
        next == s.(depth := depth, ambPressure := depth / 10.0 + 1.0, diveTime := s.diveTime + step,
                   descending := depth < cfg.targetDepth, bottom := depth == cfg.targetDepth,
                   outputAccumulator := next.outputAccumulator)
        && ts2 == AdvanceAll(ts, next.ambPressure, cfg.temperature, step / 60.0, exp)
        && (next.outputAccumulator, log2)
           == Ticked(cfg.intervalInSeconds, s.outputAccumulator, log, step, next.depth, next.ambPressure, ts2))
  }

  /** A bottom iteration: the switch to the ascent once the bottom time is
      used up, otherwise at most one second at the target. */
  predicate BottomStep(cfg: SimConfig, exp: ExpFn, s: SimState, ts: seq<Tissue>, next: SimState, ts2: seq<Tissue>,
                       log: Series, log2: Series) {
    PositiveSpeeds(cfg.params) && IsBank(ts)
    && (var left := BottomTimeLeft(cfg, s);
        if left <= 0.0 then
          next == s.(bottom := false, ascending := true) && ts2 == ts && log2 == log
        else
          var step := Min(INTERNAL_STEP, left);
          var amb := cfg.targetDepth / 10.0 + 1.0;
          next == s.(depth := cfg.targetDepth, ambPressure := amb, diveTime := s.diveTime + step,
                     outputAccumulator := next.outputAccumulator)
          && ts2 == AdvanceAll(ts, next.ambPressure, cfg.temperature, step / 60.0, exp)
          && (next.outputAccumulator, log2)
             == Ticked(cfg.intervalInSeconds, s.outputAccumulator, log, step, next.depth, next.ambPressure, ts2))
  }

  /** A second at a stop, judged by the ceiling at gradient factor gf after
      the update: left once clear (the time carried over when under a
      minute), abandoned at twenty minutes, otherwise counted. */
  predicate StopSecond(cfg: SimConfig, mc: MaxCeilingWithGf, exp: ExpFn, gf: real,
                       s: SimState, ts: seq<Tissue>, next: SimState, ts2: seq<Tissue>,
                       log: Series, log2: Series) {
    IsBank(ts)
    && (var depth := s.currentDecoDepth as real;
        var amb := depth / 10.0 + 1.0;
        var time := s.decoStopTime + INTERNAL_STEP;
        ts2 == AdvanceAll(ts, next.ambPressure, cfg.temperature, INTERNAL_STEP / 60.0, exp)
        && (next.outputAccumulator, log2)
           == Ticked(cfg.intervalInSeconds, s.outputAccumulator, log, INTERNAL_STEP, next.depth, next.ambPressure, ts2)
        && (var clear := CanLeaveStop(mc(gf, ts2).depth, depth);
            var stays := !clear && time < MAX_STOP_TIME;
            next == s.(depth := depth, ambPressure := amb, diveTime := s.diveTime + INTERNAL_STEP,
                       atDecoStop := stays, decoStopTime := if stays then time else 0.0,
                       accumulatedShortStopTime :=
                         s.accumulatedShortStopTime + (if clear && time < MIN_STOP_TIME then time else 0.0),
                       outputAccumulator := next.outputAccumulator)))
  }

  /** After a stop is opened (state o): if the stop is shallower than the
      diver, at most one second's rise toward it, never past it; otherwise
      nothing more in this iteration. */
  predicate OpenStep(cfg: SimConfig, exp: ExpFn, o: SimState, ts: seq<Tissue>, next: SimState, ts2: seq<Tissue>,
                     log: Series, log2: Series) {
    PositiveSpeeds(cfg.params) && IsBank(ts)
    && (var stop := o.currentDecoDepth as real;
        if o.depth > stop then
          var step := StepToward(o.depth - stop, cfg.params.ascentSpeed);
          var depth := Max(stop, o.depth - cfg.params.ascentSpeed);
          next == o.(depth := depth, ambPressure := depth / 10.0 + 1.0, diveTime := o.diveTime + step,
                     outputAccumulator := next.outputAccumulator)
          && ts2 == AdvanceAll(ts, next.ambPressure, cfg.temperature, step / 60.0, exp)
          && (next.outputAccumulator, log2)
             == Ticked(cfg.intervalInSeconds, o.outputAccumulator, log, step, next.depth, next.ambPressure, ts2)
        else
          next == o && ts2 == ts && log2 == log)
  }

  /** A free rise at the ascent speed: within one second of the surface to
      0 m and the surface minute, otherwise one second's rise. */
  predicate RiseStep(cfg: SimConfig, exp: ExpFn, s: SimState, ts: seq<Tissue>, next: SimState, ts2: seq<Tissue>,
                     log: Series, log2: Series) {
    IsBank(ts)
    && (var speed := cfg.params.ascentSpeed;
        if s.depth <= speed then
          next == s.(depth := 0.0, ambPressure := cfg.startingAmbientPressure,
                     diveTime := s.diveTime + SURFACE_TIME_NEEDED, outputAccumulator := next.outputAccumulator)
          && ts2 == SurfaceInterval(cfg, exp, ts)
          && (next.outputAccumulator, log2) == SurfaceTicks(cfg, exp, ts, s.outputAccumulator, log, 60)
        else
          var depth := s.depth - speed;
          next == s.(depth := depth, ambPressure := depth / 10.0 + 1.0, diveTime := s.diveTime + INTERNAL_STEP,
                     outputAccumulator := next.outputAccumulator)
          && ts2 == AdvanceAll(ts, next.ambPressure, cfg.temperature, INTERNAL_STEP / 60.0, exp)
          && (next.outputAccumulator, log2)
             == Ticked(cfg.intervalInSeconds, s.outputAccumulator, log, INTERNAL_STEP, next.depth, next.ambPressure, ts2))
  }

  /** A second held at the current depth. */
  predicate HoldStep(cfg: SimConfig, exp: ExpFn, s: SimState, ts: seq<Tissue>, next: SimState, ts2: seq<Tissue>,
                     log: Series, log2: Series) {
    IsBank(ts)
    && next == s.(ambPressure := s.depth / 10.0 + 1.0, diveTime := s.diveTime + INTERNAL_STEP,
                  outputAccumulator := next.outputAccumulator)
    && ts2 == AdvanceAll(ts, next.ambPressure, cfg.temperature, INTERNAL_STEP / 60.0, exp)
    && (next.outputAccumulator, log2)
       == Ticked(cfg.intervalInSeconds, s.outputAccumulator, log, INTERNAL_STEP, next.depth, next.ambPressure, ts2)
  }

  /** The free ascent below no binding ceiling c: rise while the safety
      ceiling allows it, otherwise hold. */
  predicate FreeStep(cfg: SimConfig, mc: MaxCeilingWithGf, exp: ExpFn, gf: real, c: nat,
                     s: SimState, ts: seq<Tissue>, next: SimState, ts2: seq<Tissue>, log: Series, log2: Series) {
    var safety := SafetyCeiling(mc, gf, ts, s.depth, c);
    if safety == 0 || s.depth > safety as real then RiseStep(cfg, exp, s, ts, next, ts2, log, log2)
    else HoldStep(cfg, exp, s, ts, next, ts2, log, log2)
  }

  /** An ascent iteration: latch the first stop from the gf_low ceiling,
      take the gradient factor for the current depth and its ceiling c, then
      spend a second at the open stop, open a stop below a ceiling the diver
      is deeper than, ascend freely, or end the dive at the surface. */
  predicate AscentStep(cfg: SimConfig, mc: MaxCeilingWithGf, exp: ExpFn,
                       s: SimState, ts: seq<Tissue>, next: SimState, ts2: seq<Tissue>, log: Series, log2: Series) {
    PositiveSpeeds(cfg.params) && IsBank(ts)
    && (var first := LatchFirstStop(s.firstStopDepth, mc(cfg.params.gfLow, ts).depth);
        var current := s.(firstStopDepth := first);
        var gf := CurrentGf(cfg.params, first, s.depth);
        var c := mc(gf, ts).depth;
        if s.atDecoStop then StopSecond(cfg, mc, exp, gf, current, ts, next, ts2, log, log2)
        else if c > 0 && s.depth > c as real then OpenStep(cfg, exp, OpenStop(current, c), ts, next, ts2, log, log2)
        else if s.depth > 0.0 then FreeStep(cfg, mc, exp, gf, c, current, ts, next, ts2, log, log2)
        else next == current && ts2 == ts && log2 == log)
  }

  /** The locals, the bank and the recorded series at the top of an iteration. */
  datatype Snapshot = Snapshot(state: SimState, bank: seq<Tissue>, series: Series)

  /** One loop iteration, dispatched on the phase. */
  predicate IterationStep(cfg: SimConfig, mc: MaxCeilingWithGf, exp: ExpFn, a: Snapshot, b: Snapshot) {
    if a.state.descending then DescentStep(cfg, exp, a.state, a.bank, b.state, b.bank, a.series, b.series)
    else if a.state.bottom then BottomStep(cfg, exp, a.state, a.bank, b.state, b.bank, a.series, b.series)
    else cfg.includeAscent && AscentStep(cfg, mc, exp, a.state, a.bank, b.state, b.bank, a.series, b.series)
  }

  /** A run of the loop: each snapshot follows from the one before by one
      iteration. */
  predicate IsRun(cfg: SimConfig, mc: MaxCeilingWithGf, exp: ExpFn, trace: seq<Snapshot>) {
    |trace| >= 1 && forall k :: 0 <= k < |trace| - 1 ==> IterationStep(cfg, mc, exp, trace[k], trace[k + 1])
  }

  /** A run followed by one more iteration is a run. */
  lemma RunExtends(cfg: SimConfig, mc: MaxCeilingWithGf, exp: ExpFn, trace: seq<Snapshot>, b: Snapshot)
    requires IsRun(cfg, mc, exp, trace) && IterationStep(cfg, mc, exp, trace[|trace| - 1], b)
    ensures IsRun(cfg, mc, exp, trace + [b]) && (trace + [b])[0] == trace[0]
  {
    var t := trace + [b];
    forall k | 0 <= k < |t| - 1 ensures IterationStep(cfg, mc, exp, t[k], t[k + 1]) {
      if k < |trace| - 1 {
        assert t[k] == trace[k] && t[k + 1] == trace[k + 1];
      }
    }
  }

  /** The recorded series only grow: one iteration appends at most one
      sample, or at most sixty for the surface minute, and never changes the
      samples already recorded. */
  lemma IterationAppends(cfg: SimConfig, mc: MaxCeilingWithGf, exp: ExpFn, a: Snapshot, b: Snapshot)
    requires IterationStep(cfg, mc, exp, a, b)
    ensures SeriesPrefix(a.series, b.series)
    ensures |b.series.depths| <= |a.series.depths| + 60
  {
  }

  /** Along a run the recorded series are append-only: each snapshot's
      series continues every earlier one's. */
  lemma {:induction false} RunAppendOnly(cfg: SimConfig, mc: MaxCeilingWithGf, exp: ExpFn, trace: seq<Snapshot>)
    requires IsRun(cfg, mc, exp, trace)
    ensures forall i, j :: 0 <= i <= j < |trace| ==> SeriesPrefix(trace[i].series, trace[j].series)
    decreases |trace|
  {
    if |trace| > 1 {
      var init := trace[..|trace| - 1];
      assert IsRun(cfg, mc, exp, init) by {
        forall k | 0 <= k < |init| - 1 ensures IterationStep(cfg, mc, exp, init[k], init[k + 1]) {
          assert init[k] == trace[k] && init[k + 1] == trace[k + 1];
        }
      }
      RunAppendOnly(cfg, mc, exp, init);
      var n := |trace| - 1;
      IterationAppends(cfg, mc, exp, trace[n - 1], trace[n]);
      forall i | 0 <= i <= n ensures SeriesPrefix(trace[i].series, trace[n].series) {
        if i < n {
          assert init[i] == trace[i] && init[n - 1] == trace[n - 1];
        }
      }
    }
  }

  /** Loads that start physical stay non-negative through an iteration:
      every update it makes is at 1 bar or deeper, or at the starting
      ambient pressure for the surface minute. */
  lemma IterationKeepsPhysical(cfg: SimConfig, mc: MaxCeilingWithGf, exp: ExpFn, a: Snapshot, b: Snapshot)
    requires ConfigOk(cfg) && Inv(cfg, a.state) && IterationStep(cfg, mc, exp, a, b)
    requires Physical(cfg, a.bank)
    ensures AllNonNegative(b.bank)
  {
    var s, ts, amb := a.state, a.bank, b.state.ambPressure;
    if s.descending {
      var step := StepToward(cfg.targetDepth - s.depth, cfg.params.descentSpeed);
      AdvanceAllKeepsNonNegative(ts, amb, cfg.temperature, step / 60.0, exp);
    } else if s.bottom {
      if BottomTimeLeft(cfg, s) > 0.0 {
        var step := Min(INTERNAL_STEP, BottomTimeLeft(cfg, s));
        AdvanceAllKeepsNonNegative(ts, amb, cfg.temperature, step / 60.0, exp);
      }
    } else {
      AscentKeepsPhysical(cfg, mc, exp, s, ts, b.state, b.bank, a.series, b.series);
    }
  }

  /** The ascent part of IterationKeepsPhysical. */
  lemma AscentKeepsPhysical(cfg: SimConfig, mc: MaxCeilingWithGf, exp: ExpFn,
                            s: SimState, ts: seq<Tissue>, next: SimState, ts2: seq<Tissue>, log: Series, log2: Series)
    requires ConfigOk(cfg) && s.depth >= 0.0 && AscentStep(cfg, mc, exp, s, ts, next, ts2, log, log2)
    requires Physical(cfg, ts)
    ensures AllNonNegative(ts2)
  {
    var first := LatchFirstStop(s.firstStopDepth, mc(cfg.params.gfLow, ts).depth);
    var current := s.(firstStopDepth := first);
    var gf := CurrentGf(cfg.params, first, s.depth);
    var c := mc(gf, ts).depth;
    if s.atDecoStop {
      AdvanceAllKeepsNonNegative(ts, next.ambPressure, cfg.temperature, INTERNAL_STEP / 60.0, exp);
    } else if c > 0 && s.depth > c as real {
      var o := OpenStop(current, c);
      if o.depth > o.currentDecoDepth as real {
        var step := StepToward(o.depth - o.currentDecoDepth as real, cfg.params.ascentSpeed);
        AdvanceAllKeepsNonNegative(ts, next.ambPressure, cfg.temperature, step / 60.0, exp);
      }
    } else if s.depth > 0.0 {
      FreeKeepsPhysical(cfg, mc, exp, gf, c, current, ts, next, ts2, log, log2);
    }
  }

  /** The free-ascent part: a rise, the surface minute or a held second. */
  lemma FreeKeepsPhysical(cfg: SimConfig, mc: MaxCeilingWithGf, exp: ExpFn, gf: real, c: nat,
                          s: SimState, ts: seq<Tissue>, next: SimState, ts2: seq<Tissue>, log: Series, log2: Series)
    requires s.depth >= 0.0 && FreeStep(cfg, mc, exp, gf, c, s, ts, next, ts2, log, log2)
    requires Physical(cfg, ts)
    ensures AllNonNegative(ts2)
  {
    var safety := SafetyCeiling(mc, gf, ts, s.depth, c);
    if (safety == 0 || s.depth > safety as real) && s.depth <= cfg.params.ascentSpeed {
      AdvanceRepeatedKeepsNonNegative(ts, cfg.startingAmbientPressure, cfg.temperature,
                                      INTERNAL_STEP / 60.0, exp, 60);
    } else {
      AdvanceAllKeepsNonNegative(ts, next.ambPressure, cfg.temperature, INTERNAL_STEP / 60.0, exp);
    }
  }

  // Introduction lemmas: each relation from the values a method computes,
  // with the ambient pressure passed as the value the method recorded.

  lemma DescentStepFrom(cfg: SimConfig, exp: ExpFn, s: SimState, ts: seq<Tissue>, next: SimState,
                        ts2: seq<Tissue>, log: Series, log2: Series, step: real, depth: real, amb: real)
    requires PositiveSpeeds(cfg.params) && IsBank(ts) && s.depth <= cfg.targetDepth
    requires step == StepToward(cfg.targetDepth - s.depth, cfg.params.descentSpeed)
    requires depth == Min(cfg.targetDepth, s.depth + cfg.params.descentSpeed) && amb == depth / 10.0 + 1.0
    requires next == s.(depth := depth, ambPressure := amb, diveTime := s.diveTime + step,
                        descending := depth < cfg.targetDepth, bottom := depth == cfg.targetDepth,
                        outputAccumulator := next.outputAccumulator)
    requires ts2 == AdvanceAll(ts, amb, cfg.temperature, step / 60.0, exp)
    requires (next.outputAccumulator, log2) == Ticked(cfg.intervalInSeconds, s.outputAccumulator, log, step, depth, amb, ts2)
    ensures DescentStep(cfg, exp, s, ts, next, ts2, log, log2)
  {
  }

  lemma BottomStepFrom(cfg: SimConfig, exp: ExpFn, s: SimState, ts: seq<Tissue>, next: SimState,
                       ts2: seq<Tissue>, log: Series, log2: Series, step: real, amb: real)
    requires PositiveSpeeds(cfg.params) && IsBank(ts) && BottomTimeLeft(cfg, s) > 0.0
    requires step == Min(INTERNAL_STEP, BottomTimeLeft(cfg, s)) && amb == cfg.targetDepth / 10.0 + 1.0
    requires next == s.(depth := cfg.targetDepth, ambPressure := amb, diveTime := s.diveTime + step,
                        outputAccumulator := next.outputAccumulator)
    requires ts2 == AdvanceAll(ts, amb, cfg.temperature, step / 60.0, exp)
    requires (next.outputAccumulator, log2) == Ticked(cfg.intervalInSeconds, s.outputAccumulator, log, step, cfg.targetDepth, amb, ts2)
    ensures BottomStep(cfg, exp, s, ts, next, ts2, log, log2)
  {
  }

  lemma RiseStepFrom(cfg: SimConfig, exp: ExpFn, s: SimState, ts: seq<Tissue>, next: SimState,
                     ts2: seq<Tissue>, log: Series, log2: Series, depth: real, amb: real)
    requires IsBank(ts) && s.depth > cfg.params.ascentSpeed
    requires depth == s.depth - cfg.params.ascentSpeed && amb == depth / 10.0 + 1.0
    requires next == s.(depth := depth, ambPressure := amb, diveTime := s.diveTime + INTERNAL_STEP,
                        outputAccumulator := next.outputAccumulator)
    requires ts2 == AdvanceAll(ts, amb, cfg.temperature, INTERNAL_STEP / 60.0, exp)
    requires (next.outputAccumulator, log2) == Ticked(cfg.intervalInSeconds, s.outputAccumulator, log, INTERNAL_STEP, depth, amb, ts2)
    ensures RiseStep(cfg, exp, s, ts, next, ts2, log, log2)
  {
  }

  lemma HoldStepFrom(cfg: SimConfig, exp: ExpFn, s: SimState, ts: seq<Tissue>, next: SimState,
                     ts2: seq<Tissue>, log: Series, log2: Series, amb: real)
    requires IsBank(ts) && amb == s.depth / 10.0 + 1.0
    requires next == s.(ambPressure := amb, diveTime := s.diveTime + INTERNAL_STEP,
                        outputAccumulator := next.outputAccumulator)
    requires ts2 == AdvanceAll(ts, amb, cfg.temperature, INTERNAL_STEP / 60.0, exp)
    requires (next.outputAccumulator, log2) == Ticked(cfg.intervalInSeconds, s.outputAccumulator, log, INTERNAL_STEP, s.depth, amb, ts2)
    ensures HoldStep(cfg, exp, s, ts, next, ts2, log, log2)
  {
  }

  lemma OpenStepFrom(cfg: SimConfig, exp: ExpFn, o: SimState, ts: seq<Tissue>, next: SimState,
                     ts2: seq<Tissue>, log: Series, log2: Series, step: real, depth: real, amb: real)
    requires PositiveSpeeds(cfg.params) && IsBank(ts) && o.depth > o.currentDecoDepth as real
    requires step == StepToward(o.depth - o.currentDecoDepth as real, cfg.params.ascentSpeed)
    requires depth == Max(o.currentDecoDepth as real, o.depth - cfg.params.ascentSpeed)
    requires amb == depth / 10.0 + 1.0
    requires next == o.(depth := depth, ambPressure := amb, diveTime := o.diveTime + step,
                        outputAccumulator := next.outputAccumulator)
    requires ts2 == AdvanceAll(ts, amb, cfg.temperature, step / 60.0, exp)
    requires (next.outputAccumulator, log2) == Ticked(cfg.intervalInSeconds, o.outputAccumulator, log, step, depth, amb, ts2)
    ensures OpenStep(cfg, exp, o, ts, next, ts2, log, log2)
  {
  }

  lemma StopSecondFrom(cfg: SimConfig, mc: MaxCeilingWithGf, exp: ExpFn, gf: real,
                       s: SimState, ts: seq<Tissue>, next: SimState, ts2: seq<Tissue>, log: Series, log2: Series,
                       amb: real, clear: bool, stays: bool, time: real, accumulated: real)
    requires IsBank(ts) && amb == s.currentDecoDepth as real / 10.0 + 1.0
    requires ts2 == AdvanceAll(ts, amb, cfg.temperature, INTERNAL_STEP / 60.0, exp)
    requires (next.outputAccumulator, log2) == Ticked(cfg.intervalInSeconds, s.outputAccumulator, log, INTERNAL_STEP, s.currentDecoDepth as real, amb, ts2)
    requires clear == CanLeaveStop(mc(gf, ts2).depth, s.currentDecoDepth as real)
    requires stays == (!clear && s.decoStopTime + INTERNAL_STEP < MAX_STOP_TIME)
    requires time == if stays then s.decoStopTime + INTERNAL_STEP else 0.0
    requires accumulated == s.accumulatedShortStopTime
      + (if clear && s.decoStopTime + INTERNAL_STEP < MIN_STOP_TIME then s.decoStopTime + INTERNAL_STEP else 0.0)
    requires next == s.(depth := s.currentDecoDepth as real, ambPressure := amb, diveTime := s.diveTime + INTERNAL_STEP,
                        atDecoStop := stays, decoStopTime := time, accumulatedShortStopTime := accumulated,
                        outputAccumulator := next.outputAccumulator)
    ensures StopSecond(cfg, mc, exp, gf, s, ts, next, ts2, log, log2)
  {
  }

  /** Below a ceiling the diver is deeper than, the ascent iteration opens
      a stop at DecoStopDepth of that ceiling, seeded with the carried-over
      short-stop time, and does not leave the stop's depth range: it ends
      no shallower than the stop and no deeper than it started. */
  lemma AscentOpensStop(cfg: SimConfig, mc: MaxCeilingWithGf, exp: ExpFn,
                        s: SimState, ts: seq<Tissue>, next: SimState, ts2: seq<Tissue>, log: Series, log2: Series)
    requires AscentStep(cfg, mc, exp, s, ts, next, ts2, log, log2) && !s.atDecoStop
    requires var first := LatchFirstStop(s.firstStopDepth, mc(cfg.params.gfLow, ts).depth);
      var c := mc(CurrentGf(cfg.params, first, s.depth), ts).depth;
      c > 0 && s.depth > c as real
    ensures var first := LatchFirstStop(s.firstStopDepth, mc(cfg.params.gfLow, ts).depth);
      var c := mc(CurrentGf(cfg.params, first, s.depth), ts).depth;
      next.atDecoStop && next.currentDecoDepth == DecoStopDepth(c)
      && next.decoStopTime == s.accumulatedShortStopTime && next.accumulatedShortStopTime == 0.0
      && next.firstStopDepth == first
      && Min(s.depth, DecoStopDepth(c) as real) <= next.depth <= s.depth
  {
  }

  /** With no open stop and no binding ceiling, the diver in the water rises
      exactly when the safety ceiling (the 0.9 × gf ceiling above 6 m) is
      gone or shallower than the diver, and otherwise stays put. */
  lemma AscentFollowsSafetyCeiling(cfg: SimConfig, mc: MaxCeilingWithGf, exp: ExpFn,
                                   s: SimState, ts: seq<Tissue>, next: SimState, ts2: seq<Tissue>,
                                   log: Series, log2: Series)
    requires AscentStep(cfg, mc, exp, s, ts, next, ts2, log, log2) && !s.atDecoStop && s.depth > 0.0
    requires var first := LatchFirstStop(s.firstStopDepth, mc(cfg.params.gfLow, ts).depth);
      var c := mc(CurrentGf(cfg.params, first, s.depth), ts).depth;
      !(c > 0 && s.depth > c as real)
    ensures var first := LatchFirstStop(s.firstStopDepth, mc(cfg.params.gfLow, ts).depth);
      var gf := CurrentGf(cfg.params, first, s.depth);
      var c := mc(gf, ts).depth;
      var safety := SafetyCeiling(mc, gf, ts, s.depth, c);
      && (next.depth < s.depth <==> safety == 0 || s.depth > safety as real)
      && (next.depth >= s.depth ==> next.depth == s.depth)
      && !next.atDecoStop
  {
  }

  /** One descent iteration: go down at the descent speed for at most one
      second without passing the target, and switch to the bottom phase on
      reaching it. */
  method DescentIteration(cfg: SimConfig, exp: ExpFn, tissues: array<Tissue>, outputs: SimulationOutputs,
                          s: SimState) returns (next: SimState, step: real)
    requires ConfigOk(cfg) && Inv(cfg, s) && s.descending
    requires tissues.Length == COMPARTMENTS && outputs.Valid()
    requires SamplesWithin(outputs.depths, outputs.pressures, cfg.startingAmbientPressure, SampleLimit(cfg))
    modifies tissues, outputs
    ensures Inv(cfg, next)
    ensures outputs.Valid()
    ensures SamplesWithin(outputs.depths, outputs.pressures, cfg.startingAmbientPressure, SampleLimit(cfg))
    ensures 0.0 <= step <= INTERNAL_STEP && next.diveTime == s.diveTime + step
    ensures DescentStep(cfg, exp, s, old(tissues[..]), next, tissues[..], old(outputs.Recorded()), outputs.Recorded())
  {
    var speed := cfg.params.descentSpeed;
    step := StepToward(cfg.targetDepth - s.depth, speed);
    var depth := s.depth + speed * step;
    assert depth == Min(cfg.targetDepth, s.depth + speed);
    assert s.depth <= depth <= cfg.targetDepth <= DepthBound(cfg.targetDepth) as real;
    var ambPressure := depth / 10.0 + 1.0;
    var acc := Tick(tissues, outputs, depth, ambPressure, cfg.temperature, step, cfg.intervalInSeconds,
                    s.outputAccumulator, exp, cfg.startingAmbientPressure, SampleLimit(cfg));
    next := s.(depth := depth, ambPressure := ambPressure, diveTime := s.diveTime + step, outputAccumulator := acc);
    if depth >= cfg.targetDepth {
      next := next.(descending := false, bottom := true);
    }
    DescentStepFrom(cfg, exp, s, old(tissues[..]), next, tissues[..], old(outputs.Recorded()), outputs.Recorded(),
                    step, depth, ambPressure);
  }

  /** One bottom iteration: once the bottom time is used up switch to the
      ascent (without a step); otherwise stay at the target for at most
      one second. */
  method BottomIteration(cfg: SimConfig, exp: ExpFn, tissues: array<Tissue>, outputs: SimulationOutputs,
                         s: SimState) returns (next: SimState, step: real)
    requires ConfigOk(cfg) && Inv(cfg, s) && s.bottom
    requires tissues.Length == COMPARTMENTS && outputs.Valid()
    requires SamplesWithin(outputs.depths, outputs.pressures, cfg.startingAmbientPressure, SampleLimit(cfg))
    modifies tissues, outputs
    ensures Inv(cfg, next)
    ensures outputs.Valid()
    ensures SamplesWithin(outputs.depths, outputs.pressures, cfg.startingAmbientPressure, SampleLimit(cfg))
    ensures next.diveTime == s.diveTime + step
    ensures next.ascending ==> next.depth == cfg.targetDepth && !next.atDecoStop
    ensures BottomStep(cfg, exp, s, old(tissues[..]), next, tissues[..], old(outputs.Recorded()), outputs.Recorded())
  {
    if BottomTimeLeft(cfg, s) <= 0.0 {
      return s.(bottom := false, ascending := true), 0.0;
    }
    next, step := StayAtBottom(cfg, exp, tissues, outputs, s);
  }

  /** The second of bottom time: at most one second at the target depth. */
  method StayAtBottom(cfg: SimConfig, exp: ExpFn, tissues: array<Tissue>, outputs: SimulationOutputs,
                      s: SimState) returns (next: SimState, step: real)
    requires ConfigOk(cfg) && Inv(cfg, s) && s.bottom && BottomTimeLeft(cfg, s) > 0.0
    requires tissues.Length == COMPARTMENTS && outputs.Valid()
    requires SamplesWithin(outputs.depths, outputs.pressures, cfg.startingAmbientPressure, SampleLimit(cfg))
    modifies tissues, outputs
    ensures Inv(cfg, next)
    ensures outputs.Valid()
    ensures SamplesWithin(outputs.depths, outputs.pressures, cfg.startingAmbientPressure, SampleLimit(cfg))
    ensures SamePhase(s, next) && next.depth == cfg.targetDepth && next.diveTime == s.diveTime + step
    ensures BottomStep(cfg, exp, s, old(tissues[..]), next, tissues[..], old(outputs.Recorded()), outputs.Recorded())
  {
    ghost var before, log := tissues[..], outputs.Recorded();
    step := Min(INTERNAL_STEP, BottomTimeLeft(cfg, s));
    var depth := cfg.targetDepth;
    var ambPressure := depth / 10.0 + 1.0;
    var acc := Tick(tissues, outputs, depth, ambPressure, cfg.temperature, step, cfg.intervalInSeconds,
                    s.outputAccumulator, exp, cfg.startingAmbientPressure, SampleLimit(cfg));
    next := s.(depth := depth, ambPressure := ambPressure, diveTime := s.diveTime + step, outputAccumulator := acc);
    BottomStepFrom(cfg, exp, s, before, next, tissues[..], log, outputs.Recorded(), step, ambPressure);
  }

  /** The bank after the surface minute: sixty one-second updates at the
      starting ambient pressure. */
  function SurfaceInterval(cfg: SimConfig, exp: ExpFn, ts: seq<Tissue>): (r: seq<Tissue>)
    requires IsBank(ts)
    ensures IsBank(r)
  {
    AdvanceRepeated(ts, cfg.startingAmbientPressure, cfg.temperature, INTERNAL_STEP / 60.0, exp, 60)
  }

  /** The bookkeeping of the first n seconds of the surface minute, from
      accumulator acc and series log: each second ends at depth 0 and the
      starting ambient pressure, with the bank k surface updates on. */
  function SurfaceTicks(cfg: SimConfig, exp: ExpFn, ts: seq<Tissue>, acc: real, log: Series, n: nat): (r: (real, Series))
    requires IsBank(ts)
    ensures SeriesPrefix(log, r.1) && |r.1.depths| <= |log.depths| + n
    decreases n
  {
    if n == 0 then (acc, log)
    else
      var prev := SurfaceTicks(cfg, exp, ts, acc, log, n - 1);
      Ticked(cfg.intervalInSeconds, prev.0, prev.1, INTERNAL_STEP, 0.0, cfg.startingAmbientPressure,
             AdvanceRepeated(ts, cfg.startingAmbientPressure, cfg.temperature, INTERNAL_STEP / 60.0, exp, n))
  }

  /** The final surface phase: exactly sixty one-second steps at the
      starting ambient pressure, each recorded at depth 0. */
  method SurfaceOffGas(cfg: SimConfig, exp: ExpFn, tissues: array<Tissue>, outputs: SimulationOutputs,
                       accumulator: real) returns (newAccumulator: real, ghost steps: nat)
    requires cfg.targetDepth >= 0.0
    requires tissues.Length == COMPARTMENTS && outputs.Valid()
    requires SamplesWithin(outputs.depths, outputs.pressures, cfg.startingAmbientPressure, SampleLimit(cfg))
    modifies tissues, outputs
    ensures outputs.Valid()
    ensures SamplesWithin(outputs.depths, outputs.pressures, cfg.startingAmbientPressure, SampleLimit(cfg))
    ensures steps == 60
    ensures tissues[..] == AdvanceRepeated(old(tissues[..]), cfg.startingAmbientPressure, cfg.temperature,
                                           INTERNAL_STEP / 60.0, exp, steps)
    ensures (newAccumulator, outputs.Recorded())
      == SurfaceTicks(cfg, exp, old(tissues[..]), accumulator, old(outputs.Recorded()), steps)
  {
    ghost var start, log := tissues[..], outputs.Recorded();
    var surfaceTime := 0.0;
    steps := 0;
    newAccumulator := accumulator;
    while surfaceTime < SURFACE_TIME_NEEDED
      invariant surfaceTime == steps as real && steps <= 60
      invariant outputs.Valid()
      invariant SamplesWithin(outputs.depths, outputs.pressures, cfg.startingAmbientPressure, SampleLimit(cfg))
      invariant tissues[..] == AdvanceRepeated(start, cfg.startingAmbientPressure, cfg.temperature,
                                               INTERNAL_STEP / 60.0, exp, steps)
      invariant (newAccumulator, outputs.Recorded()) == SurfaceTicks(cfg, exp, start, accumulator, log, steps)
      decreases 60 - steps
    {
      newAccumulator := SurfaceSecond(cfg, exp, tissues, outputs, newAccumulator, start, steps, accumulator, log);
      surfaceTime := surfaceTime + INTERNAL_STEP;
      steps := steps + 1;
    }
    SecondsCounted(surfaceTime, steps);
  }

  /** The surface clock, advanced one second per step from 0, has reached
      the minute exactly when sixty steps were taken. */
  lemma SecondsCounted(t: real, n: nat)
    requires t == n as real && n <= 60 && t >= SURFACE_TIME_NEEDED
    ensures n == 60
  {
  }

  /** One second of the surface phase, recorded at depth 0: the bank moves
      one update further along the surface interval. */
  method SurfaceSecond(cfg: SimConfig, exp: ExpFn, tissues: array<Tissue>, outputs: SimulationOutputs,
                       accumulator: real, ghost start: seq<Tissue>, ghost steps: nat,
                       ghost accumulator0: real, ghost log0: Series)
    returns (newAccumulator: real)
    requires cfg.targetDepth >= 0.0 && IsBank(start)
    requires tissues.Length == COMPARTMENTS && outputs.Valid()
    requires SamplesWithin(outputs.depths, outputs.pressures, cfg.startingAmbientPressure, SampleLimit(cfg))
    requires tissues[..] == AdvanceRepeated(start, cfg.startingAmbientPressure, cfg.temperature,
                                            INTERNAL_STEP / 60.0, exp, steps)
    requires (accumulator, outputs.Recorded()) == SurfaceTicks(cfg, exp, start, accumulator0, log0, steps)
    modifies tissues, outputs
    ensures outputs.Valid()
    ensures SamplesWithin(outputs.depths, outputs.pressures, cfg.startingAmbientPressure, SampleLimit(cfg))
    ensures tissues[..] == AdvanceRepeated(start, cfg.startingAmbientPressure, cfg.temperature,
                                           INTERNAL_STEP / 60.0, exp, steps + 1)
    ensures (newAccumulator, outputs.Recorded()) == SurfaceTicks(cfg, exp, start, accumulator0, log0, steps + 1)
  {
    ghost var limit := SampleLimit(cfg);
    assert limit >= 0.0;
    assert AdvanceRepeated(start, cfg.startingAmbientPressure, cfg.temperature, INTERNAL_STEP / 60.0, exp, steps + 1)
        == AdvanceAll(tissues[..], cfg.startingAmbientPressure, cfg.temperature, INTERNAL_STEP / 60.0, exp);
    newAccumulator := Tick(tissues, outputs, 0.0, cfg.startingAmbientPressure, cfg.temperature, INTERNAL_STEP,
                           cfg.intervalInSeconds, accumulator, exp, cfg.startingAmbientPressure, limit);
  }

  /** `first_stop_depth` is latched once, from the first positive gf_low
      ceiling seen during the ascent, and never changes afterwards. */
  function LatchFirstStop(firstStopDepth: Option<nat>, gfLowCeiling: nat): (r: Option<nat>)
    ensures firstStopDepth.Some? ==> r == firstStopDepth
    ensures firstStopDepth.None? ==> (r.Some? <==> gfLowCeiling > 0)
    ensures firstStopDepth.None? && r.Some? ==> r.value == gfLowCeiling
  {
    if firstStopDepth.None? && gfLowCeiling > 0 then Some(gfLowCeiling) else firstStopDepth
  }

  /** The ceiling that decides whether the free ascent may go on: near the
      surface the one at 0.9 times the current gradient factor, deeper the
      current one. */
  function SafetyCeiling(mc: MaxCeilingWithGf, gf: real, ts: seq<Tissue>, depth: real, currentCeiling: nat): (r: nat)
    ensures depth < NEAR_SURFACE_DEPTH ==> r == mc(gf * NEAR_SURFACE_GF_FACTOR, ts).depth
    ensures depth >= NEAR_SURFACE_DEPTH ==> r == currentCeiling
  {
    if depth < NEAR_SURFACE_DEPTH then mc(gf * NEAR_SURFACE_GF_FACTOR, ts).depth else currentCeiling
  }

  /** A ceiling shallower than the diver opens a stop at the next multiple
      of 3 m, seeded with the carried-over short-stop time, which is then
      cleared. */
  function OpenStop(s: SimState, ceiling: nat): SimState {
    s.(atDecoStop := true, currentDecoDepth := DecoStopDepth(ceiling),
       decoStopTime := s.accumulatedShortStopTime, accumulatedShortStopTime := 0.0)
  }

  /** Opening a stop below a ceiling the diver is deeper than keeps the
      invariant: the stop is within the depth bound. */
  lemma OpenStopKeepsInv(cfg: SimConfig, s: SimState, ceiling: nat)
    requires ConfigOk(cfg) && Inv(cfg, s) && s.ascending && !s.atDecoStop
    requires ceiling > 0 && s.depth > ceiling as real
    ensures Inv(cfg, OpenStop(s, ceiling))
  {
    DecoStopWithinBound(ceiling, s.depth, cfg.targetDepth);
  }

  /** The rise toward a stop that is shallower than the diver: at the
      ascent speed for at most one second, never past the stop. */
  method ApproachStop(cfg: SimConfig, exp: ExpFn, tissues: array<Tissue>, outputs: SimulationOutputs,
                      s: SimState)
    returns (next: SimState, elapsed: real)
    requires ConfigOk(cfg) && cfg.includeAscent && Inv(cfg, s) && s.atDecoStop
    requires s.depth > s.currentDecoDepth as real
    requires tissues.Length == COMPARTMENTS && outputs.Valid()
    requires SamplesWithin(outputs.depths, outputs.pressures, cfg.startingAmbientPressure, SampleLimit(cfg))
    modifies tissues, outputs
    ensures Inv(cfg, next)
    ensures outputs.Valid()
    ensures SamplesWithin(outputs.depths, outputs.pressures, cfg.startingAmbientPressure, SampleLimit(cfg))
    ensures 0.0 < elapsed <= INTERNAL_STEP && next.diveTime == s.diveTime + elapsed
    ensures OpenStep(cfg, exp, s, old(tissues[..]), next, tissues[..], old(outputs.Recorded()), outputs.Recorded())
  {
    var goal := s.currentDecoDepth as real;
    var depth;
    elapsed, depth := AscendToward(s.depth, goal, cfg.params.ascentSpeed);
    if depth <= goal {
      depth := goal;
    }
    var ambPressure := depth / 10.0 + 1.0;
    var acc := Tick(tissues, outputs, depth, ambPressure, cfg.temperature, elapsed, cfg.intervalInSeconds,
                    s.outputAccumulator, exp, cfg.startingAmbientPressure, SampleLimit(cfg));
    next := s.(depth := depth, ambPressure := ambPressure, diveTime := s.diveTime + elapsed,
               outputAccumulator := acc);
    OpenStepFrom(cfg, exp, s, old(tissues[..]), next, tissues[..], old(outputs.Recorded()), outputs.Recorded(),
                 elapsed, depth, ambPressure);
  }

  /** A free rise at the ascent speed. Within one second of the surface the
      diver reaches 0 m: the surface minute follows and the dive ends,
      without a tissue update for that last partial step. Otherwise the
      diver rises one second's worth. */
  method Rise(cfg: SimConfig, exp: ExpFn, tissues: array<Tissue>, outputs: SimulationOutputs, s: SimState)
    returns (next: SimState, done: bool, elapsed: real)
    requires ConfigOk(cfg) && cfg.includeAscent && Inv(cfg, s) && s.ascending && !s.atDecoStop
    requires s.depth > 0.0
    requires tissues.Length == COMPARTMENTS && outputs.Valid()
    requires SamplesWithin(outputs.depths, outputs.pressures, cfg.startingAmbientPressure, SampleLimit(cfg))
    modifies tissues, outputs
    ensures outputs.Valid()
    ensures SamplesWithin(outputs.depths, outputs.pressures, cfg.startingAmbientPressure, SampleLimit(cfg))
    ensures SamePhase(s, next) && next.diveTime == s.diveTime + elapsed
    ensures done <==> s.depth <= cfg.params.ascentSpeed
    ensures done ==> next.depth == 0.0 && elapsed == SURFACE_TIME_NEEDED
    ensures !done ==> Inv(cfg, next) && 0.0 < next.depth < s.depth && elapsed == INTERNAL_STEP
    ensures RiseStep(cfg, exp, s, old(tissues[..]), next, tissues[..], old(outputs.Recorded()), outputs.Recorded())
  {
    ghost var before, log := tissues[..], outputs.Recorded();
    var speed := cfg.params.ascentSpeed;
    var step, depth := AscendToward(s.depth, 0.0, speed);
    if depth <= 0.0 {
      ghost var steps;
      var acc;
      acc, steps := SurfaceOffGas(cfg, exp, tissues, outputs, s.outputAccumulator);
      next := s.(depth := 0.0, ambPressure := cfg.startingAmbientPressure,
                 diveTime := s.diveTime + SURFACE_TIME_NEEDED, outputAccumulator := acc);
      return next, true, SURFACE_TIME_NEEDED;
    }
    var ambPressure := depth / 10.0 + 1.0;
    var acc := Tick(tissues, outputs, depth, ambPressure, cfg.temperature, step, cfg.intervalInSeconds,
                    s.outputAccumulator, exp, cfg.startingAmbientPressure, SampleLimit(cfg));
    next := s.(depth := depth, ambPressure := ambPressure, diveTime := s.diveTime + step,
               outputAccumulator := acc);
    RiseStepFrom(cfg, exp, s, before, next, tissues[..], log, outputs.Recorded(), depth, ambPressure);
    done := false;
    elapsed := step;
  }

  /** Holding one second at the current depth while the safety ceiling
      still forbids the rise. */
  method Hold(cfg: SimConfig, exp: ExpFn, tissues: array<Tissue>, outputs: SimulationOutputs, s: SimState)
    returns (next: SimState)
    requires ConfigOk(cfg) && cfg.includeAscent && Inv(cfg, s) && s.ascending && !s.atDecoStop
    requires tissues.Length == COMPARTMENTS && outputs.Valid()
    requires SamplesWithin(outputs.depths, outputs.pressures, cfg.startingAmbientPressure, SampleLimit(cfg))
    modifies tissues, outputs
    ensures Inv(cfg, next)
    ensures outputs.Valid()
    ensures SamplesWithin(outputs.depths, outputs.pressures, cfg.startingAmbientPressure, SampleLimit(cfg))
    ensures SamePhase(s, next) && next.depth == s.depth && next.diveTime == s.diveTime + INTERNAL_STEP
    ensures HoldStep(cfg, exp, s, old(tissues[..]), next, tissues[..], old(outputs.Recorded()), outputs.Recorded())
  {
    ghost var before, log := tissues[..], outputs.Recorded();
    var ambPressure := s.depth / 10.0 + 1.0;
    var acc := Tick(tissues, outputs, s.depth, ambPressure, cfg.temperature, INTERNAL_STEP,
                    cfg.intervalInSeconds, s.outputAccumulator, exp, cfg.startingAmbientPressure, SampleLimit(cfg));
    next := s.(ambPressure := ambPressure, diveTime := s.diveTime + INTERNAL_STEP, outputAccumulator := acc);
    HoldStepFrom(cfg, exp, s, before, next, tissues[..], log, outputs.Recorded(), ambPressure);
  }

  /** One second at a deco stop (the diver is put at the stop depth). The
      stop is left once the ceiling at the current gradient factor has
      cleared it; when that happens within the first minute the time spent
      is carried over to the next stop. A stop is abandoned after twenty
      minutes whatever the ceiling. */
  method DecoStopIteration(cfg: SimConfig, mc: MaxCeilingWithGf, exp: ExpFn, tissues: array<Tissue>,
                           outputs: SimulationOutputs, s: SimState, gf: real)
    returns (next: SimState)
    requires ConfigOk(cfg) && cfg.includeAscent && Inv(cfg, s) && s.atDecoStop
    requires tissues.Length == COMPARTMENTS && outputs.Valid()
    requires SamplesWithin(outputs.depths, outputs.pressures, cfg.startingAmbientPressure, SampleLimit(cfg))
    modifies tissues, outputs
    ensures StopSecond(cfg, mc, exp, gf, s, old(tissues[..]), next, tissues[..], old(outputs.Recorded()), outputs.Recorded())
    ensures Inv(cfg, next)
    ensures outputs.Valid()
    ensures SamplesWithin(outputs.depths, outputs.pressures, cfg.startingAmbientPressure, SampleLimit(cfg))
    ensures next.ascending && next.firstStopDepth == s.firstStopDepth && next.currentDecoDepth == s.currentDecoDepth
    ensures next.depth == s.currentDecoDepth as real && next.diveTime == s.diveTime + INTERNAL_STEP
  {
    ghost var before, log := tissues[..], outputs.Recorded();
    var depth := s.currentDecoDepth as real;
    var ambPressure := depth / 10.0 + 1.0;
    var acc := Tick(tissues, outputs, depth, ambPressure, cfg.temperature, INTERNAL_STEP, cfg.intervalInSeconds,
                    s.outputAccumulator, exp, cfg.startingAmbientPressure, SampleLimit(cfg));
    var clear := CanLeaveStop(mc(gf, tissues[..]).depth, depth);
    var atDecoStop, decoStopTime, accumulated :=
      StopTimers(s.decoStopTime + INTERNAL_STEP, s.accumulatedShortStopTime, clear);
    next := s.(depth := depth, ambPressure := ambPressure, diveTime := s.diveTime + INTERNAL_STEP,
               atDecoStop := atDecoStop, decoStopTime := decoStopTime,
               accumulatedShortStopTime := accumulated, outputAccumulator := acc);
    StopSecondFrom(cfg, mc, exp, gf, s, before, next, tissues[..], log, outputs.Recorded(), ambPressure, clear,
                   atDecoStop, decoStopTime, accumulated);
  }

  /** The stop timers after a second at the stop, with `time` the stop time
      including it: the stop is left once clear, a stop shorter than a
      minute adding its time to the carried-over total; it is abandoned at
      twenty minutes; otherwise its time is kept. */
  method StopTimers(time: real, accumulated: real, clear: bool)
    returns (atDecoStop: bool, decoStopTime: real, newAccumulated: real)
    ensures atDecoStop == (!clear && time < MAX_STOP_TIME)
    ensures decoStopTime == if atDecoStop then time else 0.0
    ensures newAccumulated == accumulated + (if clear && time < MIN_STOP_TIME then time else 0.0)
  {
    decoStopTime := time;
    atDecoStop := true;
    newAccumulated := accumulated;
    if decoStopTime >= MIN_STOP_TIME && clear {
      atDecoStop := false;
      decoStopTime := 0.0;
    } else if decoStopTime < MIN_STOP_TIME && clear {
      newAccumulated := newAccumulated + decoStopTime;
      atDecoStop := false;
      decoStopTime := 0.0;
    }
    if decoStopTime >= MAX_STOP_TIME {
      atDecoStop := false;
      decoStopTime := 0.0;
    }
  }

  /** A ceiling c shallower than the diver: open a stop at the next
      multiple of 3 m and, if it is shallower than the diver, start toward it. */
  method OpenAndApproach(cfg: SimConfig, exp: ExpFn, tissues: array<Tissue>, outputs: SimulationOutputs,
                         s: SimState, c: nat)
    returns (next: SimState)
    requires ConfigOk(cfg) && cfg.includeAscent && Inv(cfg, s) && s.ascending && !s.atDecoStop
    requires c > 0 && s.depth > c as real
    requires tissues.Length == COMPARTMENTS && outputs.Valid()
    requires SamplesWithin(outputs.depths, outputs.pressures, cfg.startingAmbientPressure, SampleLimit(cfg))
    modifies tissues, outputs
    ensures Inv(cfg, next) && next.ascending && next.atDecoStop && next.depth > 0.0
    ensures outputs.Valid()
    ensures SamplesWithin(outputs.depths, outputs.pressures, cfg.startingAmbientPressure, SampleLimit(cfg))
    ensures OpenStep(cfg, exp, OpenStop(s, c), old(tissues[..]), next, tissues[..], old(outputs.Recorded()), outputs.Recorded())
  {
    OpenStopKeepsInv(cfg, s, c);
    next := OpenStop(s, c);
    if next.depth > next.currentDecoDepth as real {
      var elapsed;
      next, elapsed := ApproachStop(cfg, exp, tissues, outputs, next);
    }
  }

  /** The free ascent with no ceiling c binding the diver: rise if the
      safety ceiling allows it, otherwise hold. The dive ends when the rise
      reaches the surface. */
  method FreeAscent(cfg: SimConfig, mc: MaxCeilingWithGf, exp: ExpFn, tissues: array<Tissue>,
                    outputs: SimulationOutputs, s: SimState, gf: real, c: nat)
    returns (next: SimState, done: bool)
    requires ConfigOk(cfg) && cfg.includeAscent && Inv(cfg, s) && s.ascending && !s.atDecoStop
    requires s.depth > 0.0
    requires tissues.Length == COMPARTMENTS && outputs.Valid()
    requires SamplesWithin(outputs.depths, outputs.pressures, cfg.startingAmbientPressure, SampleLimit(cfg))
    modifies tissues, outputs
    ensures !done ==> Inv(cfg, next)
    ensures outputs.Valid()
    ensures SamplesWithin(outputs.depths, outputs.pressures, cfg.startingAmbientPressure, SampleLimit(cfg))
    ensures SamePhase(s, next) && (done <==> next.depth == 0.0)
    ensures var safety := SafetyCeiling(mc, gf, old(tissues[..]), s.depth, c);
      next.depth < s.depth <==> safety == 0 || s.depth > safety as real
    ensures FreeStep(cfg, mc, exp, gf, c, s, old(tissues[..]), next, tissues[..], old(outputs.Recorded()), outputs.Recorded())
  {
    var safety := SafetyCeiling(mc, gf, tissues[..], s.depth, c);
    if safety == 0 || s.depth > safety as real {
      var elapsed;
      next, done, elapsed := Rise(cfg, exp, tissues, outputs, s);
    } else {
      next := Hold(cfg, exp, tissues, outputs, s);
      done := false;
    }
  }

  /** One ascent iteration: latch the first stop from the gf_low ceiling,
      work out the gradient factor for the current depth and its ceiling,
      then hold a stop, open one, rise or hold. */
  method AscentIteration(cfg: SimConfig, mc: MaxCeilingWithGf, exp: ExpFn, tissues: array<Tissue>,
                         outputs: SimulationOutputs, s: SimState)
    returns (next: SimState, done: bool)
    requires ConfigOk(cfg) && cfg.includeAscent && Inv(cfg, s) && s.ascending
    requires tissues.Length == COMPARTMENTS && outputs.Valid()
    requires SamplesWithin(outputs.depths, outputs.pressures, cfg.startingAmbientPressure, SampleLimit(cfg))
    modifies tissues, outputs
    ensures outputs.Valid()
    ensures SamplesWithin(outputs.depths, outputs.pressures, cfg.startingAmbientPressure, SampleLimit(cfg))
    ensures !done ==> Inv(cfg, next)
    ensures next.ascending && (done ==> !next.atDecoStop)
    ensures done <==> next.depth == 0.0
    ensures done ==> !s.atDecoStop
    ensures next.firstStopDepth == LatchFirstStop(s.firstStopDepth, mc(cfg.params.gfLow, old(tissues[..])).depth)
    ensures s.atDecoStop ==> next.depth == s.currentDecoDepth as real
    ensures var gf := CurrentGf(cfg.params, next.firstStopDepth, s.depth);
      var c := mc(gf, old(tissues[..])).depth;
      !s.atDecoStop ==> (next.atDecoStop <==> c > 0 && s.depth > c as real)
    // the free ascent goes on exactly while the safety ceiling allows it
    ensures var gf := CurrentGf(cfg.params, next.firstStopDepth, s.depth);
      var c := mc(gf, old(tissues[..])).depth;
      var safety := SafetyCeiling(mc, gf, old(tissues[..]), s.depth, c);
      !s.atDecoStop && !(c > 0 && s.depth > c as real) && s.depth > 0.0 ==>
        (next.depth < s.depth <==> safety == 0 || s.depth > safety as real)
    ensures AscentStep(cfg, mc, exp, s, old(tissues[..]), next, tissues[..], old(outputs.Recorded()), outputs.Recorded())
  {
    var firstStopDepth := LatchFirstStop(s.firstStopDepth, mc(cfg.params.gfLow, tissues[..]).depth);
    var gf := CurrentGf(cfg.params, firstStopDepth, s.depth);
    var ceiling := mc(gf, tissues[..]).depth;
    var current := s.(firstStopDepth := firstStopDepth);
    if s.atDecoStop {
      next := DecoStopIteration(cfg, mc, exp, tissues, outputs, current, gf);
      done := false;
    } else if ceiling > 0 && s.depth > ceiling as real {
      next := OpenAndApproach(cfg, exp, tissues, outputs, current, ceiling);
      done := false;
    } else if s.depth > 0.0 {
      next, done := FreeAscent(cfg, mc, exp, tissues, outputs, current, gf, ceiling);
    } else {
      next, done := current, true;
    }
  }

  /** `simulate_with_ascent`: the phase machine, one iteration at a time,
      until the dive ends at the surface, the bottom phase ends without an
      ascent, or the iteration cap is reached. Every recorded sample lies
      within the depth limit with its matching ambient pressure, and loads
      that start physical stay physical. `finalState` and `capped` report
      how the loop ended. */
  method SimulateWithAscent(cfg: SimConfig, mc: MaxCeilingWithGf, exp: ExpFn, tissues: array<Tissue>)
    returns (outputs: SimulationOutputs, ghost finalState: SimState, ghost capped: bool,
             ghost trace: seq<Snapshot>)
    requires ConfigOk(cfg) && tissues.Length == COMPARTMENTS
    modifies tissues
    ensures IsRun(cfg, mc, exp, trace)
    ensures trace[0] == Snapshot(InitialState(cfg), old(tissues[..]), Series([], [], []))
    ensures trace[|trace| - 1] == Snapshot(finalState, tissues[..], outputs.Recorded())
    ensures fresh(outputs) && outputs.Valid()
    ensures SamplesWithin(outputs.depths, outputs.pressures, cfg.startingAmbientPressure, SampleLimit(cfg))
    ensures Physical(cfg, old(tissues[..])) ==> AllNonNegative(tissues[..])
    ensures capped ==> |trace| == MAX_ITERATIONS
    ensures !capped ==> finalState.ascending && !finalState.atDecoStop
    ensures !capped && cfg.includeAscent ==> finalState.depth == 0.0
    ensures !capped && !cfg.includeAscent ==> finalState.depth == cfg.targetDepth
  {
    ghost var physical := Physical(cfg, tissues[..]);
    outputs := new SimulationOutputs();
    var s := InitialState(cfg);
    InitialStateOk(cfg);
    var iterationCount: nat := 0;
    capped := false;
    trace := [Snapshot(s, tissues[..], outputs.Recorded())];
    while true
      invariant IsRun(cfg, mc, exp, trace)
      invariant trace[0] == Snapshot(InitialState(cfg), old(tissues[..]), Series([], [], []))
      invariant trace[|trace| - 1] == Snapshot(s, tissues[..], outputs.Recorded())
      invariant fresh(outputs) && outputs.Valid()
      invariant SamplesWithin(outputs.depths, outputs.pressures, cfg.startingAmbientPressure, SampleLimit(cfg))
      invariant physical ==> Physical(cfg, tissues[..])
      invariant Inv(cfg, s) && iterationCount < MAX_ITERATIONS
      invariant |trace| == iterationCount + 1 && !capped
      invariant !cfg.includeAscent && s.ascending ==> s.depth == cfg.targetDepth && !s.atDecoStop
      decreases MAX_ITERATIONS - iterationCount
    {
      iterationCount := iterationCount + 1;
      if iterationCount >= MAX_ITERATIONS {
        capped := true;
        break;
      }
      if s.ascending && !cfg.includeAscent {
        break;
      }
      var elapsed, done := 0.0, false;
      ghost var previous := trace[|trace| - 1];
      if s.descending {
        s, elapsed := DescentIteration(cfg, exp, tissues, outputs, s);
      } else if s.bottom {
        s, elapsed := BottomIteration(cfg, exp, tissues, outputs, s);
      } else {
        s, done := AscentIteration(cfg, mc, exp, tissues, outputs, s);
      }
      if physical {
        IterationKeepsPhysical(cfg, mc, exp, previous, Snapshot(s, tissues[..], outputs.Recorded()));
      }
      RunExtends(cfg, mc, exp, trace, Snapshot(s, tissues[..], outputs.Recorded()));
      trace := trace + [Snapshot(s, tissues[..], outputs.Recorded())];
      if done {
        break;
      }
    }
    finalState := s;
  }

  /** `simulate`: the full dive, ascent included. */
  method Simulate(params: DiveParameters, mc: MaxCeilingWithGf, exp: ExpFn, tissues: array<Tissue>,
                  startingAmbientPressure: real, targetDepth: real, temperature: real,
                  intervalInSeconds: real, bottomTimeSeconds: real)
    returns (outputs: SimulationOutputs)
    requires PositiveSpeeds(params) && targetDepth >= 0.0 && tissues.Length == COMPARTMENTS
    modifies tissues
    ensures fresh(outputs) && outputs.Valid()
    ensures forall k :: 0 <= k < |outputs.depths| ==>
      0.0 <= outputs.depths[k] <= DepthBound(targetDepth) as real
      && (outputs.pressures[k] == outputs.depths[k] / 10.0 + 1.0
          || (outputs.depths[k] == 0.0 && outputs.pressures[k] == startingAmbientPressure))
    ensures AllNonNegative(old(tissues[..])) && startingAmbientPressure >= WaterVaporPressure(temperature) ==>
      AllNonNegative(tissues[..])
  {
    var cfg := SimConfig(params, startingAmbientPressure, targetDepth, temperature, intervalInSeconds,
                         bottomTimeSeconds, true);
    ghost var finalState, capped, trace;
    outputs, finalState, capped, trace := SimulateWithAscent(cfg, mc, exp, tissues);
  }
}

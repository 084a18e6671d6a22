/** The M-value oversaturation check and the stop-by-stop decompression
    scheduler of the library's top level. */
module DecoLoop {
  import opened Maths
  import opened ZhL16c
  import opened Kinetics
  import opened MValue
  import opened Ceiling

  datatype DecoError = Oversaturation | BurstCeiling | InvalidSolution

  /** `Result<(), DecoError>`. */
  datatype DecoResult = Ok | Err(error: DecoError)

  /** A compartment's N2 load exceeds its M-value at ambient pressure `amb`. */
  predicate Oversaturated(t: Tissue, k: CompartmentIndex, ambPressure: real) {
    CalculateMValue(ambPressure, k) < t.loadN2
  }

  /** For a nitrogen-only tissue, exceeding the M-value is the same as being
      shallower than the gf = 1 raw ceiling. */
  lemma OversaturatedIffAboveCeiling(t: Tissue, k: CompartmentIndex, ambPressure: real)
    requires PhysicalLoads(t) && t.loadHe == 0.0
    ensures Oversaturated(t, k, ambPressure) <==> ambPressure < RawCeiling(1.0, t, k)
  {
    RawCeilingAtGfOne(t, k);
    BelowMValueLine(ambPressure, N2A(k), N2B(k), t.loadN2,
                    CalculateMValue(ambPressure, k), RawCeiling(1.0, t, k));
  }

  /** With m = amb / b + a and r = (p − a)·b for b > 0, m < p exactly when
      amb < r. */
  lemma BelowMValueLine(ambPressure: real, a: real, b: real, p: real, m: real, r: real)
    requires b > 0.0 && m == ambPressure / b + a && r == (p - a) * b
    ensures m < p <==> ambPressure < r
  {
    assert (ambPressure / b) * b == ambPressure;
    assert r / b == p - a;
  }

  /** `run_no_deco_loop`: update the compartments in index order by
      `deltaT` minutes at `ambPressure`, stopping with Oversaturation at the
      first one whose new N2 load exceeds its M-value (later compartments are
      then left as they were). */
  method RunNoDecoLoop(tissues: array<Tissue>, ambPressure: real, temperature: real,
                       deltaT: real, exp: ExpFn) returns (r: DecoResult)
    requires tissues.Length == COMPARTMENTS && deltaT >= 0.0
    modifies tissues
    ensures r.Ok? ==> tissues[..] == AdvanceAll(old(tissues[..]), ambPressure, temperature, deltaT, exp)
    ensures r.Ok? ==> forall k :: 0 <= k < COMPARTMENTS ==> !Oversaturated(tissues[k], k, ambPressure)
    ensures r.Err? ==> r.error == Oversaturation
    ensures r.Err? ==> exists j :: (0 <= j < COMPARTMENTS
      && tissues[..] == AdvancePrefix(old(tissues[..]), j + 1, ambPressure, temperature, deltaT, exp)
      && Oversaturated(tissues[j], j, ambPressure)
      && forall k :: 0 <= k < j ==> !Oversaturated(tissues[k], k, ambPressure))
  {
    for i := 0 to COMPARTMENTS
      invariant tissues[..] == AdvancePrefix(old(tissues[..]), i, ambPressure, temperature, deltaT, exp)
      invariant forall k :: 0 <= k < i ==> !Oversaturated(tissues[k], k, ambPressure)
    {
      tissues[i] := CalculateTissue(tissues[i], i, ambPressure, temperature, deltaT, exp);
      if CalculateMValue(ambPressure, i) < tissues[i].loadN2 {
        assert tissues[..] == AdvancePrefix(old(tissues[..]), i + 1, ambPressure, temperature, deltaT, exp);
        return Err(Oversaturation);
      }
    }
    return Ok;
  }

  /** At most this many one-second steps are spent at a stop. */
  const STOP_STEP_LIMIT: nat := 10000

  /** Ambient pressure at a stop depth in metres, as the scheduler takes it. */
  function StopAmbient(stop: nat): real {
    stop as real / 10.0 + 1.0
  }

  /** The bank after `s` one-second steps held at `stop`. */
  function StopTissues(ts: seq<Tissue>, stop: nat, temperature: real, exp: ExpFn, s: nat): (r: seq<Tissue>)
    requires IsBank(ts)
    ensures IsBank(r)
  {
    AdvanceRepeated(ts, StopAmbient(stop), temperature, 1.0 / 60.0, exp, s)
  }

  /** The stop may be left: the whole-bank ceiling is shallower than it. */
  predicate Clears(maxCeiling: MaxCeiling, ts: seq<Tissue>, stop: nat) {
    maxCeiling(ts).depth < stop
  }

  /** The first step count in [s, STOP_STEP_LIMIT) after which the stop
      clears, or None when none does. */
  function FirstClear(maxCeiling: MaxCeiling, ts: seq<Tissue>, stop: nat, temperature: real,
                      exp: ExpFn, s: nat): (r: Option<nat>)
    requires IsBank(ts) && s <= STOP_STEP_LIMIT
    ensures r.Some? ==> (s <= r.value < STOP_STEP_LIMIT
      && Clears(maxCeiling, StopTissues(ts, stop, temperature, exp, r.value), stop))
    ensures r.Some? ==> forall s' :: s <= s' < r.value ==>
      !Clears(maxCeiling, StopTissues(ts, stop, temperature, exp, s'), stop)
    ensures r.None? ==> forall s' :: s <= s' < STOP_STEP_LIMIT ==>
      !Clears(maxCeiling, StopTissues(ts, stop, temperature, exp, s'), stop)
    decreases STOP_STEP_LIMIT - s
  {
    if s == STOP_STEP_LIMIT then None
    else if Clears(maxCeiling, StopTissues(ts, stop, temperature, exp, s), stop) then Some(s)
    else FirstClear(maxCeiling, ts, stop, temperature, exp, s + 1)
  }

  /** One unfolding of FirstClear, and of the stop's bank, at step s. */
  lemma FirstClearStep(maxCeiling: MaxCeiling, ts: seq<Tissue>, stop: nat, temperature: real,
                       exp: ExpFn, s: nat)
    requires IsBank(ts) && s < STOP_STEP_LIMIT
    ensures Clears(maxCeiling, StopTissues(ts, stop, temperature, exp, s), stop) ==>
      FirstClear(maxCeiling, ts, stop, temperature, exp, s) == Some(s)
    ensures !Clears(maxCeiling, StopTissues(ts, stop, temperature, exp, s), stop) ==>
      FirstClear(maxCeiling, ts, stop, temperature, exp, s) == FirstClear(maxCeiling, ts, stop, temperature, exp, s + 1)
    ensures StopTissues(ts, stop, temperature, exp, s + 1)
         == AdvanceAll(StopTissues(ts, stop, temperature, exp, s), StopAmbient(stop), temperature, 1.0 / 60.0, exp)
  {
  }

  /** The stop depths the scheduler visits from `first`: first, first − 3,
      … while at least 3. */
  function StopDepths(first: nat): (r: seq<nat>)
    ensures |r| == first / 3
    ensures forall k :: 0 <= k < |r| ==> r[k] == first - 3 * k && r[k] >= 3
  {
    if first < 3 then [] else [first] + StopDepths(first - 3)
  }

  /** One completed stop: its depth, the seconds held and the bank on
      leaving it. */
  datatype Stop = Stop(depth: nat, seconds: nat, leaving: seq<Tissue>)

  /** The schedule the scheduler works through from stop depth `stop`, or
      None when some stop does not clear within the step limit. */
  function DecoSchedule(maxCeiling: MaxCeiling, ts: seq<Tissue>, stop: nat, temperature: real,
                        exp: ExpFn): Option<seq<Stop>>
    requires IsBank(ts)
    decreases stop
  {
    if stop < 3 then Some([])
    else match FirstClear(maxCeiling, ts, stop, temperature, exp, 0)
      case None => None
      case Some(s) =>
        var leaving := StopTissues(ts, stop, temperature, exp, s);
        var rest := DecoSchedule(maxCeiling, leaving, stop - 3, temperature, exp);
        if rest.None? then None else Some([Stop(stop, s, leaving)] + rest.value)
  }

  /** A schedule visits exactly the stop depths first, first − 3, …, ≥ 3;
      at each it holds fewer than STOP_STEP_LIMIT steps, leaves with the
      bank it reached there, and leaves only once the ceiling is shallower
      than the stop. */
  lemma {:induction false} DecoScheduleShape(maxCeiling: MaxCeiling, ts: seq<Tissue>, stop: nat,
                                             temperature: real, exp: ExpFn)
    requires IsBank(ts) && DecoSchedule(maxCeiling, ts, stop, temperature, exp).Some?
    ensures var sched := DecoSchedule(maxCeiling, ts, stop, temperature, exp).value;
      |sched| == |StopDepths(stop)|
      && (forall k :: 0 <= k < |sched| ==> sched[k].depth == StopDepths(stop)[k])
      && (forall k :: 0 <= k < |sched| ==> sched[k].seconds < STOP_STEP_LIMIT)
      && (forall k :: 0 <= k < |sched| ==> Clears(maxCeiling, sched[k].leaving, sched[k].depth))
      && (|sched| > 0 ==> sched[0].leaving == StopTissues(ts, stop, temperature, exp, sched[0].seconds))
    decreases stop
  {
    if stop >= 3 {
      var s := FirstClear(maxCeiling, ts, stop, temperature, exp, 0).value;
      var leaving := StopTissues(ts, stop, temperature, exp, s);
      DecoScheduleShape(maxCeiling, leaving, stop - 3, temperature, exp);
      var sched := DecoSchedule(maxCeiling, ts, stop, temperature, exp).value;
      var rest := DecoSchedule(maxCeiling, leaving, stop - 3, temperature, exp).value;
      assert sched == [Stop(stop, s, leaving)] + rest;
      assert StopDepths(stop) == [stop] + StopDepths(stop - 3);
      forall k | 1 <= k < |sched|
        ensures sched[k] == rest[k - 1]
      {
      }
    }
  }

  /** The stops chain: each stop's bank is a bank, and each stop after the
      first starts from the bank the one before it left with. */
  lemma {:induction false} DecoScheduleChains(maxCeiling: MaxCeiling, ts: seq<Tissue>, stop: nat,
                                              temperature: real, exp: ExpFn)
    requires IsBank(ts) && DecoSchedule(maxCeiling, ts, stop, temperature, exp).Some?
    ensures var sched := DecoSchedule(maxCeiling, ts, stop, temperature, exp).value;
      && (forall k :: 0 <= k < |sched| ==> IsBank(sched[k].leaving))
      && (forall k :: 0 <= k < |sched| - 1 ==>
            sched[k + 1].leaving
            == StopTissues(sched[k].leaving, sched[k + 1].depth, temperature, exp, sched[k + 1].seconds))
    decreases stop
  {
    if stop >= 3 {
      var s := FirstClear(maxCeiling, ts, stop, temperature, exp, 0).value;
      var leaving := StopTissues(ts, stop, temperature, exp, s);
      DecoScheduleChains(maxCeiling, leaving, stop - 3, temperature, exp);
      DecoScheduleShape(maxCeiling, leaving, stop - 3, temperature, exp);
      var sched := DecoSchedule(maxCeiling, ts, stop, temperature, exp).value;
      var rest := DecoSchedule(maxCeiling, leaving, stop - 3, temperature, exp).value;
      assert sched == [Stop(stop, s, leaving)] + rest;
      forall k | 1 <= k < |sched|
        ensures sched[k] == rest[k - 1]
      {
      }
    }
  }

  /** The scheduler's verdict from a bank and a first stop depth. */
  function DecoOutcome(maxCeiling: MaxCeiling, ts: seq<Tissue>, stop: nat, temperature: real,
                       exp: ExpFn): (r: DecoResult)
    requires IsBank(ts)
    ensures r.Err? ==> r.error == InvalidSolution
    ensures stop < 3 ==> r == Ok
  {
    if DecoSchedule(maxCeiling, ts, stop, temperature, exp).Some? then Ok else Err(InvalidSolution)
  }

  /** A fresh array holding a copy of the bank (`clone()` of the source's
      fixed-size array). */
  method CloneBank(base: seq<Tissue>) returns (a: array<Tissue>)
    requires IsBank(base)
    ensures fresh(a) && a[..] == base
  {
    a := new Tissue[COMPARTMENTS](k => if 0 <= k < |base| then base[k] else DefaultTissue());
  }

  /** Holding one stop: a fresh copy of the bank desaturates one second at a
      time at the stop's pressure until the ceiling is shallower than the
      stop, and gives up once more than STOP_STEP_LIMIT checks would be
      needed. */
  method HoldStop(maxCeiling: MaxCeiling, base: seq<Tissue>, stop: nat, temperature: real, exp: ExpFn)
    returns (r: Option<seq<Tissue>>)
    requires IsBank(base)
    ensures r == (match FirstClear(maxCeiling, base, stop, temperature, exp, 0)
                  case None => None
                  case Some(s) => Some(StopTissues(base, stop, temperature, exp, s)))
  {
    var tissuesClone := CloneBank(base);
    ghost var clear := FirstClear(maxCeiling, base, stop, temperature, exp, 0);
    var stopLength: nat := 0;
    while true
      invariant stopLength <= STOP_STEP_LIMIT
      invariant tissuesClone.Length == COMPARTMENTS
      invariant tissuesClone[..] == StopTissues(base, stop, temperature, exp, stopLength)
      invariant clear == FirstClear(maxCeiling, base, stop, temperature, exp, stopLength)
      decreases STOP_STEP_LIMIT - stopLength
    {
      if stopLength + 1 > STOP_STEP_LIMIT {
        return None;
      }
      var currentCeiling := maxCeiling(tissuesClone[..]);
      FirstClearStep(maxCeiling, base, stop, temperature, exp, stopLength);
      if currentCeiling.depth < stop {
        return Some(tissuesClone[..]);
      }
      StepTissues(tissuesClone, StopAmbient(stop), temperature, 1.0 / 60.0, exp);
      stopLength := stopLength + 1;
    }
  }

  /** `calculate_deco_stops`: visit the stop depths from the bank's current
      ceiling upwards in 3 m steps, holding each until it clears. The
      caller's bank is only read: every stop works on copies. */
  method CalculateDecoStops(maxCeiling: MaxCeiling, tissues: array<Tissue>, temperature: real, exp: ExpFn)
    returns (r: DecoResult)
    requires tissues.Length == COMPARTMENTS
    ensures r == DecoOutcome(maxCeiling, tissues[..], maxCeiling(tissues[..]).depth, temperature, exp)
  {
    var firstStop := maxCeiling(tissues[..]).depth;
    var lastStop: nat := 3;
    var currentStopDepth: nat := firstStop;
    var baseTissuesClone := tissues[..];
    while true
      invariant IsBank(baseTissuesClone)
      invariant DecoOutcome(maxCeiling, baseTissuesClone, currentStopDepth, temperature, exp)
             == DecoOutcome(maxCeiling, tissues[..], firstStop, temperature, exp)
      decreases currentStopDepth
    {
      if currentStopDepth >= lastStop {
        var leaving := HoldStop(maxCeiling, baseTissuesClone, currentStopDepth, temperature, exp);
        if leaving.None? {
          return Err(InvalidSolution);
        }
        baseTissuesClone := leaving.value;
        currentStopDepth := currentStopDepth - 3;
      } else {
        break;
      }
    }
    return Ok;
  }
}

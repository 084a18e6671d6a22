/** Per-compartment inert-gas loading (Haldane exponential update). */
module Kinetics {
  import opened Maths
  import opened ZhL16c
  import opened Gas

  /** Inert-gas partial pressures (bar) held by one compartment. */
  datatype Tissue = Tissue(loadN2: real, loadHe: real)

  /** `Tissue::default()`: 1 bar of each gas. This is NOT the surface
      equilibrium; see DefaultTissueIsNotAtSurfaceEquilibrium. */
  function DefaultTissue(): (t: Tissue)
    ensures t.loadN2 == 1.0 && t.loadHe == 1.0
  {
    Tissue(1.0, 1.0)
  }

  /** Inspired N2 partial pressure: (ambient − water vapour) · FN2. */
  function InspiredN2(ambPressure: real, temperature: real): real {
    (ambPressure - WaterVaporPressure(temperature)) * FN2
  }

  /** Inspired He partial pressure: (ambient − water vapour) · FHE, which is
      0 for air. */
  function InspiredHe(ambPressure: real, temperature: real): (p: real)
    ensures p == 0.0
  {
    (ambPressure - WaterVaporPressure(temperature)) * FHE
  }

  /** e^(−k·t) with the half-life constant k = ln 2 / half-life. */
  function DecayFactor(halfLife: real, minutes: real, exp: ExpFn): (f: real)
    requires halfLife > 0.0 && minutes >= 0.0
    ensures 0.0 < f <= 1.0
    ensures f == 1.0 <==> minutes == 0.0
  {
    var k := LN2 / halfLife;
    assert k > 0.0;
    assert minutes > 0.0 ==> -k * minutes < 0.0;
    exp(-k * minutes)
  }

  /** The distance d scaled by the factor f in (0, 1]: it keeps its sign,
      does not lengthen, and strictly shrinks when f < 1 and d is non-zero. */
  function Scale(d: real, f: real): (m: real)
    requires 0.0 < f <= 1.0
    ensures d >= 0.0 ==> 0.0 <= m <= d
    ensures d <= 0.0 ==> d <= m <= 0.0
    ensures f < 1.0 && d > 0.0 ==> 0.0 < m < d
    ensures f < 1.0 && d < 0.0 ==> d < m < 0.0
    ensures f == 1.0 ==> m == d
  {
    var m := d * f;
    ProductBounds(d, f);
    m
  }

  lemma ProductBounds(d: real, f: real)
    requires 0.0 < f <= 1.0
    ensures d >= 0.0 ==> 0.0 <= d * f <= d
    ensures d <= 0.0 ==> d <= d * f <= 0.0
    ensures f < 1.0 && d > 0.0 ==> 0.0 < d * f < d
    ensures f < 1.0 && d < 0.0 ==> d < d * f < 0.0
    ensures f == 1.0 ==> d * f == d
  {
    var g := 1.0 - f;
    assert d - d * f == d * g;
    if d > 0.0 {
      assert d * f > 0.0;
      assert d * g >= 0.0;
      assert f < 1.0 ==> d * g > 0.0;
    } else if d < 0.0 {
      assert d * f < 0.0;
      assert d * g <= 0.0;
      assert f < 1.0 ==> d * g < 0.0;
    } else {
      assert d * f == 0.0;
    }
  }

  /** Scaling twice multiplies the factors. */
  lemma ScaleTwice(d: real, p: real, f: real)
    requires 0.0 < p <= 1.0 && 0.0 < f <= 1.0
    ensures 0.0 < f * p <= 1.0
    ensures Scale(Scale(d, p), f) == Scale(d, f * p)
  {
    MulMonotone(f, 1.0, p, 1.0);
    assert f * p > 0.0;
    assert d * p * f == d * (f * p);
  }

  /** The Haldane step: the load moves from `load` towards `inspired`,
      keeping the fraction `f` of the distance between them. It never
      overshoots: the new load lies between the old load and the inspired
      pressure, strictly inside when time passes (f < 1) and the two differ,
      and it stays put when no time passes (f = 1) or the load is already at
      the inspired pressure. */
  function Approach(load: real, inspired: real, f: real): (r: real)
    requires 0.0 < f <= 1.0
    ensures Min(load, inspired) <= r <= Max(load, inspired)
    ensures f == 1.0 || load == inspired ==> r == load
    ensures f < 1.0 && load < inspired ==> load < r < inspired
    ensures f < 1.0 && load > inspired ==> inspired < r < load
  {
    inspired + Scale(load - inspired, f)
  }

  /** The helium update exactly as the source writes it: the old load and
      the inspired pressure trade places relative to the nitrogen update. */
  function HeLoadAsWritten(load: real, inspired: real, f: real): (r: real)
    requires 0.0 < f <= 1.0
    ensures f == 1.0 ==> r == inspired
  {
    load + (inspired - load) * f
  }

  /** `calculate_tissue`, with the helium update corrected to mirror the
      nitrogen one (see HeLoadAsWritten and the README findings). The source
      asserts a non-negative elapsed time; the index only selects the two
      half-lives. */
  function CalculateTissue(t: Tissue, i: CompartmentIndex, ambPressure: real, temperature: real,
                           minutes: real, exp: ExpFn): (r: Tissue)
    requires minutes >= 0.0
    ensures var pp := InspiredN2(ambPressure, temperature);
      && Min(t.loadN2, pp) <= r.loadN2 <= Max(t.loadN2, pp)
      && (minutes > 0.0 && t.loadN2 < pp ==> t.loadN2 < r.loadN2)
      && (minutes > 0.0 && t.loadN2 > pp ==> r.loadN2 < t.loadN2)
      && (t.loadN2 == pp ==> r.loadN2 == t.loadN2)
    ensures Min(t.loadHe, 0.0) <= r.loadHe <= Max(t.loadHe, 0.0)
    ensures minutes == 0.0 ==> r == t
  {
    var fN2 := DecayFactor(N2HalfLife(i), minutes, exp);
    var fHe := DecayFactor(HeHalfLife(i), minutes, exp);
    Tissue(Approach(t.loadN2, InspiredN2(ambPressure, temperature), fN2),
           Approach(t.loadHe, InspiredHe(ambPressure, temperature), fHe))
  }

  /** `calculate_tissue` as written: nitrogen as in CalculateTissue, helium
      by HeLoadAsWritten. At zero elapsed time it sets the helium load to the
      inspired helium pressure instead of leaving it alone. */
  function CalculateTissueAsWritten(t: Tissue, i: CompartmentIndex, ambPressure: real, temperature: real,
                                    minutes: real, exp: ExpFn): (r: Tissue)
    requires minutes >= 0.0
    ensures r.loadN2 == CalculateTissue(t, i, ambPressure, temperature, minutes, exp).loadN2
    ensures minutes == 0.0 ==> r.loadN2 == t.loadN2 && r.loadHe == InspiredHe(ambPressure, temperature)
  {
    var fN2 := DecayFactor(N2HalfLife(i), minutes, exp);
    var fHe := DecayFactor(HeHalfLife(i), minutes, exp);
    Tissue(Approach(t.loadN2, InspiredN2(ambPressure, temperature), fN2),
           HeLoadAsWritten(t.loadHe, InspiredHe(ambPressure, temperature), fHe))
  }

  /** The discrepancy on a concrete input: the default tissue, compartment 0,
      1 bar, no time elapsed. The as-written update wipes its 1 bar of helium;
      the corrected one leaves the tissue unchanged. */
  lemma HeZeroTimeCounterexample(exp: ExpFn)
    ensures CalculateTissueAsWritten(DefaultTissue(), 0, 1.0, 20.0, 0.0, exp) == Tissue(1.0, 0.0)
    ensures CalculateTissue(DefaultTissue(), 0, 1.0, 20.0, 0.0, exp) == DefaultTissue()
  {
  }

  /** Both versions agree whenever the helium load already equals the
      inspired helium pressure (0 with air), so runs that start from
      surface equilibrium behave identically under either. */
  lemma AsWrittenAgreesAtHeliumEquilibrium(t: Tissue, i: CompartmentIndex, ambPressure: real,
                                           temperature: real, minutes: real, exp: ExpFn)
    requires minutes >= 0.0 && t.loadHe == InspiredHe(ambPressure, temperature)
    ensures CalculateTissueAsWritten(t, i, ambPressure, temperature, minutes, exp)
         == CalculateTissue(t, i, ambPressure, temperature, minutes, exp)
    ensures CalculateTissue(t, i, ambPressure, temperature, minutes, exp).loadHe == 0.0
  {
  }

  /** The surface-equilibrium tissue (DefaultTissueLoad of N2, no He) is a
      fixed point of the update at 1 bar, for any elapsed time. */
  lemma SurfaceEquilibriumIsFixed(i: CompartmentIndex, temperature: real, minutes: real, exp: ExpFn)
    requires minutes >= 0.0
    ensures var t := Tissue(DefaultTissueLoad(temperature), 0.0);
      CalculateTissue(t, i, 1.0, temperature, minutes, exp) == t
  {
  }

  /** `Tissue::default()` holds more N2 than surface equilibrium, so at 1 bar
      it off-gasses as soon as any time passes. */
  lemma DefaultTissueIsNotAtSurfaceEquilibrium(i: CompartmentIndex, temperature: real, minutes: real, exp: ExpFn)
    requires minutes > 0.0
    ensures DefaultTissue().loadN2 != DefaultTissueLoad(temperature)
    ensures CalculateTissue(DefaultTissue(), i, 1.0, temperature, minutes, exp).loadN2 < DefaultTissue().loadN2
  {
  }

  /** f^n. */
  function Pow(f: real, n: nat): real {
    if n == 0 then 1.0 else f * Pow(f, n - 1)
  }

  lemma {:induction false} PowBounds(f: real, n: nat)
    requires 0.0 < f <= 1.0
    ensures 0.0 < Pow(f, n) <= 1.0
    ensures n > 0 && f < 1.0 ==> Pow(f, n) < 1.0
  {
    if n > 0 {
      PowBounds(f, n - 1);
      assert Pow(f, n) == f * Pow(f, n - 1);
    }
  }

  /** The compartment after `n` successive updates of `minutes` each at a
      fixed ambient pressure. */
  function CompartmentAfter(t: Tissue, i: CompartmentIndex, ambPressure: real, temperature: real,
                            minutes: real, n: nat, exp: ExpFn): Tissue
    requires minutes >= 0.0
  {
    if n == 0 then t
    else CalculateTissue(CompartmentAfter(t, i, ambPressure, temperature, minutes, n - 1, exp),
                         i, ambPressure, temperature, minutes, exp)
  }

  /** A load after n Haldane steps of factor f towards a fixed `inspired`. */
  function ApproachN(load: real, inspired: real, f: real, n: nat): real
    requires 0.0 < f <= 1.0
  {
    if n == 0 then load else Approach(ApproachN(load, inspired, f, n - 1), inspired, f)
  }

  /** Convergence: at a fixed inspired pressure the distance to it shrinks
      by the factor f = e^(−k·Δt) per update, so after n updates it is the
      initial distance scaled by f^n. */
  lemma {:induction false} ApproachNDistance(load: real, inspired: real, f: real, n: nat)
    requires 0.0 < f <= 1.0
    ensures 0.0 < Pow(f, n) <= 1.0
    ensures ApproachN(load, inspired, f, n) - inspired == Scale(load - inspired, Pow(f, n))
  {
    PowBounds(f, n);
    if n == 0 {
      assert Pow(f, 0) == 1.0;
    } else {
      var d, p := load - inspired, Pow(f, n - 1);
      var prev := ApproachN(load, inspired, f, n - 1);
      ApproachNDistance(load, inspired, f, n - 1);
      assert prev - inspired == Scale(d, p);
      ScaleTwice(d, p, f);
      assert Pow(f, n) == f * p;
      assert ApproachN(load, inspired, f, n) == inspired + Scale(prev - inspired, f);
    }
  }

  /** n updates of a compartment at fixed ambient pressure are n Haldane
      steps of its N2 load towards the inspired N2 pressure. */
  lemma {:induction false} CompartmentAfterN2(t: Tissue, i: CompartmentIndex, ambPressure: real, temperature: real,
                                              minutes: real, n: nat, exp: ExpFn)
    requires minutes >= 0.0
    ensures CompartmentAfter(t, i, ambPressure, temperature, minutes, n, exp).loadN2
         == ApproachN(t.loadN2, InspiredN2(ambPressure, temperature), DecayFactor(N2HalfLife(i), minutes, exp), n)
  {
    if n > 0 {
      var pp, f := InspiredN2(ambPressure, temperature), DecayFactor(N2HalfLife(i), minutes, exp);
      var prev := CompartmentAfter(t, i, ambPressure, temperature, minutes, n - 1, exp);
      CompartmentAfterN2(t, i, ambPressure, temperature, minutes, n - 1, exp);
      assert CompartmentAfter(t, i, ambPressure, temperature, minutes, n, exp).loadN2 == Approach(prev.loadN2, pp, f);
      assert ApproachN(t.loadN2, pp, f, n) == Approach(ApproachN(t.loadN2, pp, f, n - 1), pp, f);
    }
  }

  /** With time passing, the distance to the inspired pressure strictly
      shrinks with every update and never changes sign. */
  lemma N2ConvergesMonotonically(t: Tissue, i: CompartmentIndex, ambPressure: real, temperature: real,
                                 minutes: real, n: nat, exp: ExpFn)
    requires minutes > 0.0 && n > 0
    ensures var pp := InspiredN2(ambPressure, temperature);
      var d0 := t.loadN2 - pp;
      var dn := CompartmentAfter(t, i, ambPressure, temperature, minutes, n, exp).loadN2 - pp;
      (d0 > 0.0 ==> 0.0 < dn < d0) && (d0 < 0.0 ==> d0 < dn < 0.0) && (d0 == 0.0 ==> dn == 0.0)
  {
    var pp, f := InspiredN2(ambPressure, temperature), DecayFactor(N2HalfLife(i), minutes, exp);
    CompartmentAfterN2(t, i, ambPressure, temperature, minutes, n, exp);
    ApproachNDistance(t.loadN2, pp, f, n);
    PowBounds(f, n);
  }

  /** A bank of 16 compartments, indexed by compartment. */
  predicate IsBank(ts: seq<Tissue>) { |ts| == COMPARTMENTS }

  /** Physically meaningful loads: no negative partial pressure. */
  predicate AllNonNegative(ts: seq<Tissue>) {
    forall k :: 0 <= k < |ts| ==> ts[k].loadN2 >= 0.0 && ts[k].loadHe >= 0.0
  }

  /** The first `n` compartments updated by CalculateTissue, the rest as
      they were. */
  function AdvancePrefix(ts: seq<Tissue>, n: nat, ambPressure: real, temperature: real,
                         minutes: real, exp: ExpFn): (r: seq<Tissue>)
    requires IsBank(ts) && n <= COMPARTMENTS && minutes >= 0.0
    ensures IsBank(r)
    ensures forall k :: 0 <= k < n ==> r[k] == CalculateTissue(ts[k], k, ambPressure, temperature, minutes, exp)
    ensures forall k :: n <= k < COMPARTMENTS ==> r[k] == ts[k]
  {
    seq(COMPARTMENTS, k requires 0 <= k < COMPARTMENTS =>
      if k < n then CalculateTissue(ts[k], k, ambPressure, temperature, minutes, exp) else ts[k])
  }

  /** One pass of `for i in 0..16 { tissues[i] = calculate_tissue(...) }`. */
  function AdvanceAll(ts: seq<Tissue>, ambPressure: real, temperature: real,
                      minutes: real, exp: ExpFn): (r: seq<Tissue>)
    requires IsBank(ts) && minutes >= 0.0
    ensures IsBank(r)
  {
    AdvancePrefix(ts, COMPARTMENTS, ambPressure, temperature, minutes, exp)
  }

  /** The bank after n equal updates of `minutes` each at a constant
      ambient pressure. */
  function AdvanceRepeated(ts: seq<Tissue>, ambPressure: real, temperature: real,
                           minutes: real, exp: ExpFn, n: nat): (r: seq<Tissue>)
    requires IsBank(ts) && minutes >= 0.0
    ensures IsBank(r)
  {
    if n == 0 then ts
    else AdvanceAll(AdvanceRepeated(ts, ambPressure, temperature, minutes, exp, n - 1),
                    ambPressure, temperature, minutes, exp)
  }

  /** Any number of updates at one pressure keeps the loads non-negative
      when that pressure is at least the water-vapour pressure. */
  lemma {:induction false} AdvanceRepeatedKeepsNonNegative(ts: seq<Tissue>, ambPressure: real, temperature: real,
                                                            minutes: real, exp: ExpFn, n: nat)
    requires IsBank(ts) && minutes >= 0.0 && AllNonNegative(ts)
    requires ambPressure >= WaterVaporPressure(temperature)
    ensures AllNonNegative(AdvanceRepeated(ts, ambPressure, temperature, minutes, exp, n))
  {
    if n > 0 {
      AdvanceRepeatedKeepsNonNegative(ts, ambPressure, temperature, minutes, exp, n - 1);
      AdvanceAllKeepsNonNegative(AdvanceRepeated(ts, ambPressure, temperature, minutes, exp, n - 1),
                                 ambPressure, temperature, minutes, exp);
    }
  }

  /** Compartments evolve independently: after n bank updates each one is
      its own n-fold update. */
  lemma {:induction false} AdvanceRepeatedPerCompartment(ts: seq<Tissue>, ambPressure: real, temperature: real,
                                                         minutes: real, exp: ExpFn, n: nat, k: CompartmentIndex)
    requires IsBank(ts) && minutes >= 0.0
    ensures AdvanceRepeated(ts, ambPressure, temperature, minutes, exp, n)[k]
         == CompartmentAfter(ts[k], k, ambPressure, temperature, minutes, n, exp)
  {
    if n > 0 {
      AdvanceRepeatedPerCompartment(ts, ambPressure, temperature, minutes, exp, n - 1, k);
      var prev := AdvanceRepeated(ts, ambPressure, temperature, minutes, exp, n - 1);
      assert AdvanceAll(prev, ambPressure, temperature, minutes, exp)[k]
          == CalculateTissue(prev[k], k, ambPressure, temperature, minutes, exp);
    }
  }

  /** Loads stay non-negative as long as the ambient pressure is at least
      the water-vapour pressure (so the inspired N2 is non-negative). */
  lemma AdvanceAllKeepsNonNegative(ts: seq<Tissue>, ambPressure: real, temperature: real,
                                   minutes: real, exp: ExpFn)
    requires IsBank(ts) && minutes >= 0.0 && AllNonNegative(ts)
    requires ambPressure >= WaterVaporPressure(temperature)
    ensures AllNonNegative(AdvanceAll(ts, ambPressure, temperature, minutes, exp))
  {
    var r := AdvanceAll(ts, ambPressure, temperature, minutes, exp);
    forall k | 0 <= k < |r| ensures r[k].loadN2 >= 0.0 && r[k].loadHe >= 0.0 {
      assert InspiredN2(ambPressure, temperature) >= 0.0;
      assert r[k] == CalculateTissue(ts[k], k, ambPressure, temperature, minutes, exp);
    }
  }

  /** No compartment holds any helium (every bank the callers build from
      air-breathing surface tissues). */
  predicate HeliumFree(ts: seq<Tissue>) {
    forall k :: 0 <= k < |ts| ==> ts[k].loadHe == 0.0
  }

  /** One pass over the bank with the update exactly as the source writes it. */
  function AdvanceAllAsWritten(ts: seq<Tissue>, ambPressure: real, temperature: real,
                               minutes: real, exp: ExpFn): (r: seq<Tissue>)
    requires IsBank(ts) && minutes >= 0.0
    ensures IsBank(r)
    ensures forall k :: 0 <= k < COMPARTMENTS ==>
      r[k].loadN2 == AdvanceAll(ts, ambPressure, temperature, minutes, exp)[k].loadN2
  {
    seq(COMPARTMENTS, k requires 0 <= k < COMPARTMENTS =>
      CalculateTissueAsWritten(ts[k], k, ambPressure, temperature, minutes, exp))
  }

  /** n equal passes with the update as written. */
  function AdvanceRepeatedAsWritten(ts: seq<Tissue>, ambPressure: real, temperature: real,
                                    minutes: real, exp: ExpFn, n: nat): (r: seq<Tissue>)
    requires IsBank(ts) && minutes >= 0.0
    ensures IsBank(r)
  {
    if n == 0 then ts
    else AdvanceAllAsWritten(AdvanceRepeatedAsWritten(ts, ambPressure, temperature, minutes, exp, n - 1),
                             ambPressure, temperature, minutes, exp)
  }

  /** On a helium-free bank the pass as written and the corrected pass give
      the same bank, and that bank is helium-free again; so any sequence of
      passes, at whatever pressures, agrees with the source on such banks. */
  lemma AsWrittenBankAgreesWithoutHelium(ts: seq<Tissue>, ambPressure: real, temperature: real,
                                         minutes: real, exp: ExpFn)
    requires IsBank(ts) && minutes >= 0.0 && HeliumFree(ts)
    ensures AdvanceAllAsWritten(ts, ambPressure, temperature, minutes, exp)
         == AdvanceAll(ts, ambPressure, temperature, minutes, exp)
    ensures HeliumFree(AdvanceAll(ts, ambPressure, temperature, minutes, exp))
  {
    var w := AdvanceAllAsWritten(ts, ambPressure, temperature, minutes, exp);
    var r := AdvanceAll(ts, ambPressure, temperature, minutes, exp);
    forall k | 0 <= k < COMPARTMENTS ensures w[k] == r[k] && r[k].loadHe == 0.0 {
      AsWrittenAgreesAtHeliumEquilibrium(ts[k], k, ambPressure, temperature, minutes, exp);
    }
  }

  /** The repeated passes as written agree with the corrected ones on a
      helium-free bank. */
  lemma {:induction false} AsWrittenRepeatedAgreesWithoutHelium(ts: seq<Tissue>, ambPressure: real,
                                                                temperature: real, minutes: real,
                                                                exp: ExpFn, n: nat)
    requires IsBank(ts) && minutes >= 0.0 && HeliumFree(ts)
    ensures AdvanceRepeatedAsWritten(ts, ambPressure, temperature, minutes, exp, n)
         == AdvanceRepeated(ts, ambPressure, temperature, minutes, exp, n)
    ensures HeliumFree(AdvanceRepeated(ts, ambPressure, temperature, minutes, exp, n))
  {
    if n > 0 {
      AsWrittenRepeatedAgreesWithoutHelium(ts, ambPressure, temperature, minutes, exp, n - 1);
      AsWrittenBankAgreesWithoutHelium(AdvanceRepeated(ts, ambPressure, temperature, minutes, exp, n - 1),
                                       ambPressure, temperature, minutes, exp);
    }
  }

  /** The in-place pass over a caller-owned array of 16 compartments. */
  method StepTissues(tissues: array<Tissue>, ambPressure: real, temperature: real,
                     minutes: real, exp: ExpFn)
    requires tissues.Length == COMPARTMENTS && minutes >= 0.0
    modifies tissues
    ensures tissues[..] == AdvanceAll(old(tissues[..]), ambPressure, temperature, minutes, exp)
  {
    for i := 0 to COMPARTMENTS
      invariant tissues[..] == AdvancePrefix(old(tissues[..]), i, ambPressure, temperature, minutes, exp)
    {
      tissues[i] := CalculateTissue(tissues[i], i, ambPressure, temperature, minutes, exp);
    }
  }
}

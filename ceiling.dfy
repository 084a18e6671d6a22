/** The analytical single-compartment ceiling with gradient factors, and the
    shapes of the whole-bank ceiling solvers the simulator consumes. */
module Ceiling {
  import opened Maths
  import opened ZhL16c
  import opened Kinetics
  import opened Params
  import opened MValue

  /** Loads the ceiling formula can be evaluated on: no negative partial
      pressure and some inert gas (the source divides by the total). */
  predicate PhysicalLoads(t: Tissue) {
    t.loadN2 >= 0.0 && t.loadHe >= 0.0 && t.loadN2 + t.loadHe > 0.0
  }

  /** A coefficient blended across N2 and He in proportion to each gas's
      load: (cN2·pN2 + cHe·pHe) / (pN2 + pHe). */
  function Blend(cN2: real, cHe: real, pN2: real, pHe: real): (c: real)
    requires pN2 >= 0.0 && pHe >= 0.0 && pN2 + pHe > 0.0
    ensures Min(cN2, cHe) <= c <= Max(cN2, cHe)
    ensures pHe == 0.0 ==> c == cN2
    ensures pN2 == 0.0 ==> c == cHe
  {
    var p := pN2 + pHe;
    var lo, hi := Min(cN2, cHe), Max(cN2, cHe);
    assert lo * p <= cN2 * pN2 + cHe * pHe <= hi * p by {
      MulMonotone2(lo, cN2, hi, pN2);
      MulMonotone2(lo, cHe, hi, pHe);
    }
    (cN2 * pN2 + cHe * pHe) / p
  }

  /** Multiplying by w ≥ 0 keeps lo ≤ x ≤ hi. */
  lemma MulMonotone2(lo: real, x: real, hi: real, w: real)
    requires lo <= x <= hi && w >= 0.0
    ensures lo * w <= x * w <= hi * w
  {
    MulNonNegative(x - lo, w);
    MulNonNegative(hi - x, w);
  }

  /** Load-weighted Bühlmann a of compartment i. */
  function BlendedA(t: Tissue, i: CompartmentIndex): (a: real)
    requires PhysicalLoads(t)
    ensures 0.0 < a <= Max(N2A(i), HeA(i))
  {
    Blend(N2A(i), HeA(i), t.loadN2, t.loadHe)
  }

  /** Load-weighted Bühlmann b of compartment i. */
  function BlendedB(t: Tissue, i: CompartmentIndex): (b: real)
    requires PhysicalLoads(t)
    ensures 0.0 < b < 1.0 && b <= Max(N2B(i), HeB(i))
  {
    Blend(N2B(i), HeB(i), t.loadN2, t.loadHe)
  }

  /** The load a compartment with coefficients a, b may hold at ambient
      pressure `amb` under gradient factor gf: gf of the way from the
      ambient pressure up to the M-value line a + amb / b. */
  function ToleratedLoad(a: real, b: real, gf: real, amb: real): real
    requires b > 0.0
  {
    amb + gf * (a + amb / b - amb)
  }

  /** The denominator of the ceiling formula, gf − gf·b + b. */
  function GfDenominator(gf: real, b: real): (d: real)
    requires gf >= 0.0 && 0.0 < b < 1.0
    ensures d >= b > 0.0
    ensures gf <= 1.0 ==> d >= gf
    ensures gf == 1.0 ==> d == 1.0
  {
    DenominatorBounds(gf, b);
    gf - gf * b + b
  }

  lemma DenominatorBounds(gf: real, b: real)
    requires gf >= 0.0 && 0.0 < b < 1.0
    ensures gf - gf * b >= 0.0
    ensures gf <= 1.0 ==> b - gf * b >= 0.0
  {
    MulNonNegative(gf, 1.0 - b);
    if gf <= 1.0 {
      MulNonNegative(b, 1.0 - gf);
    }
  }

  /** The numerator of the ceiling formula, p − a·gf. */
  function Numerator(p: real, a: real, gf: real): real {
    p - a * gf
  }

  /** The source's formula on plain numbers: (p − a·gf) · b / (gf − gf·b + b). */
  function CeilingFormula(p: real, a: real, b: real, gf: real): real
    requires 0.0 < b < 1.0 && gf >= 0.0
  {
    Numerator(p, a, gf) * (b / GfDenominator(gf, b))
  }

  /** The formula solves ToleratedLoad(a, b, gf, r) == p for r. */
  lemma FormulaSolves(p: real, a: real, b: real, gf: real)
    requires 0.0 < b < 1.0 && gf >= 0.0
    ensures ToleratedLoad(a, b, gf, CeilingFormula(p, a, b, gf)) == p
  {
    var d := GfDenominator(gf, b);
    var r := CeilingFormula(p, a, b, gf);
    assert r * d == (p - a * gf) * b;
    assert r + gf * (a + r / b - r) == gf * a + (r * d) / b;
  }

  /** ToleratedLoad is strictly increasing in the ambient pressure, so it
      takes the value p nowhere but at the formula's r. */
  lemma FormulaUnique(p: real, a: real, b: real, gf: real, amb: real)
    requires 0.0 < b < 1.0 && gf >= 0.0
    requires ToleratedLoad(a, b, gf, amb) == p
    ensures amb == CeilingFormula(p, a, b, gf)
  {
    var r := CeilingFormula(p, a, b, gf);
    var d := GfDenominator(gf, b);
    FormulaSolves(p, a, b, gf);
    var x := amb - r;
    assert ToleratedLoad(a, b, gf, amb) - ToleratedLoad(a, b, gf, r) == x + gf * (x / b - x);
    assert x + gf * (x / b - x) == x * (d / b);
    assert d / b > 0.0;
  }

  /** The formula is antitone in gf for a positive load and a > 0. */
  lemma FormulaAntitone(p: real, a: real, b: real, g1: real, g2: real)
    requires 0.0 < b < 1.0 && 0.0 <= g1 <= g2 && p >= 0.0 && a > 0.0
    ensures CeilingFormula(p, a, b, g2) <= CeilingFormula(p, a, b, g1)
  {
    CrossSign(p, a, b, g1, g2);
    FormulaCompare(p, a, b, g1, g2);
  }

  /** Numerator at gx times the denominator at gy. */
  function Cross(p: real, a: real, b: real, gx: real, gy: real): real
    requires 0.0 < b < 1.0 && gy >= 0.0
  {
    Numerator(p, a, gx) * GfDenominator(gy, b)
  }

  /** The cross-multiplied comparison behind FormulaAntitone: the
      difference factors as (g1 − g2)·(p·(1 − b) + a·b), which is ≤ 0. */
  lemma CrossSign(p: real, a: real, b: real, g1: real, g2: real)
    requires 0.0 < b < 1.0 && 0.0 <= g1 <= g2 && p >= 0.0 && a > 0.0
    ensures Cross(p, a, b, g2, g1) <= Cross(p, a, b, g1, g2)
  {
    var k := p * (1.0 - b) + a * b;
    MulNonNegative(p, 1.0 - b);
    assert a * b > 0.0;
    MulNonNegative(g2 - g1, k);
    assert (p - a * g2) * (g1 - g1 * b + b) - (p - a * g1) * (g2 - g2 * b + b) == (g1 - g2) * k;
  }

  /** Cross-multiplying back: positive denominators turn the cross
      comparison into a comparison of the two formula values. */
  lemma FormulaCompare(p: real, a: real, b: real, g1: real, g2: real)
    requires 0.0 < b < 1.0 && 0.0 <= g1 && 0.0 <= g2
    requires Cross(p, a, b, g2, g1) <= Cross(p, a, b, g1, g2)
    ensures CeilingFormula(p, a, b, g2) <= CeilingFormula(p, a, b, g1)
  {
    CrossMultiply(Numerator(p, a, g2), GfDenominator(g2, b), Numerator(p, a, g1), GfDenominator(g1, b), b);
  }

  /** With gf ≤ 1 and a non-negative load the formula is at least −a·b. */
  lemma FormulaLowerBound(p: real, a: real, b: real, gf: real)
    requires 0.0 < b < 1.0 && 0.0 <= gf <= 1.0 && p >= 0.0 && a > 0.0
    ensures CeilingFormula(p, a, b, gf) >= -(a * b)
  {
    var d := GfDenominator(gf, b);
    QuotientBelow(gf, b, d);
    LowerBoundStep(p, a, gf, b / d, b);
  }

  /** gf ≤ d makes gf·(b / d) at most b. */
  lemma QuotientBelow(gf: real, b: real, d: real)
    requires 0.0 <= gf <= d && d > 0.0 && b > 0.0
    ensures b / d > 0.0 && gf * (b / d) <= b
  {
    assert gf * (b / d) == b * (gf / d);
    var r := gf / d;
    assert r * d == gf;
    if r > 1.0 {
      assert false;
    }
    MulMonotone(b, b, r, 1.0);
  }

  /** (p − a·gf)·q ≥ −a·b once gf·q ≤ b, for p ≥ 0 and positive a, q. */
  lemma LowerBoundStep(p: real, a: real, gf: real, q: real, b: real)
    requires p >= 0.0 && a > 0.0 && q > 0.0 && gf >= 0.0 && gf * q <= b
    ensures Numerator(p, a, gf) * q >= -(a * b)
  {
    MulNonNegative(p, q);
    MulNonNegative(gf, q);
    MulMonotone(a, a, gf * q, b);
    assert (p - a * gf) * q == p * q - a * (gf * q);
  }

  /** With gf = 1 the formula is (p − a)·b. */
  lemma FormulaAtGfOne(p: real, a: real, b: real)
    requires 0.0 < b < 1.0
    ensures CeilingFormula(p, a, b, 1.0) == (p - a) * b
  {
    assert GfDenominator(1.0, b) == 1.0;
  }

  /** The unrounded ceiling r of the source: the ambient pressure at which
      the compartment's total load is exactly the gradient-factor-reduced
      tolerated load. */
  function RawCeiling(gf: real, t: Tissue, i: CompartmentIndex): (r: real)
    requires PhysicalLoads(t) && gf >= 0.0
    ensures ToleratedLoad(BlendedA(t, i), BlendedB(t, i), gf, r) == t.loadN2 + t.loadHe
  {
    FormulaSolves(t.loadN2 + t.loadHe, BlendedA(t, i), BlendedB(t, i), gf);
    CeilingFormula(t.loadN2 + t.loadHe, BlendedA(t, i), BlendedB(t, i), gf)
  }

  /** The raw ceiling is the only ambient pressure at which the tolerated
      load equals the compartment's load. */
  lemma RawCeilingIsUnique(gf: real, t: Tissue, i: CompartmentIndex, amb: real)
    requires PhysicalLoads(t) && gf >= 0.0
    requires ToleratedLoad(BlendedA(t, i), BlendedB(t, i), gf, amb) == t.loadN2 + t.loadHe
    ensures amb == RawCeiling(gf, t, i)
  {
    FormulaUnique(t.loadN2 + t.loadHe, BlendedA(t, i), BlendedB(t, i), gf, amb);
  }

  /** For a nitrogen-only tissue the blended coefficients are the N2 ones, so
      the raw ceiling is where the load sits gf of the way from the ambient
      pressure to the compartment's M-value. */
  lemma RawCeilingOnMValueLine(gf: real, t: Tissue, i: CompartmentIndex)
    requires PhysicalLoads(t) && gf >= 0.0 && t.loadHe == 0.0
    ensures var r := RawCeiling(gf, t, i);
      t.loadN2 == r + gf * (CalculateMValue(r, i) - r)
  {
    var r := RawCeiling(gf, t, i);
    assert BlendedA(t, i) == N2A(i) && BlendedB(t, i) == N2B(i);
    assert ToleratedLoad(N2A(i), N2B(i), gf, r) == t.loadN2;
    assert CalculateMValue(r, i) == r / N2B(i) + N2A(i);
  }

  /** With gf = 1 a nitrogen-only tissue's raw ceiling is (p − a)·b. */
  lemma RawCeilingAtGfOne(t: Tissue, i: CompartmentIndex)
    requires PhysicalLoads(t) && t.loadHe == 0.0
    ensures RawCeiling(1.0, t, i) == (t.loadN2 - N2A(i)) * N2B(i)
  {
    assert BlendedA(t, i) == N2A(i) && BlendedB(t, i) == N2B(i);
    FormulaAtGfOne(t.loadN2, N2A(i), N2B(i));
  }

  /** With gf = 1 a nitrogen-only tissue's raw ceiling is the ambient
      pressure whose M-value is exactly the load. */
  lemma MValueAtRawCeiling(t: Tissue, i: CompartmentIndex)
    requires PhysicalLoads(t) && t.loadHe == 0.0
    ensures CalculateMValue(RawCeiling(1.0, t, i), i) == t.loadN2
  {
    RawCeilingAtGfOne(t, i);
  }

  /** Lowering the gradient factor (more conservative) never makes the raw
      ceiling shallower: r is antitone in gf. */
  lemma RawCeilingAntitoneInGf(g1: real, g2: real, t: Tissue, i: CompartmentIndex)
    requires PhysicalLoads(t) && 0.0 <= g1 <= g2
    ensures RawCeiling(g2, t, i) <= RawCeiling(g1, t, i)
  {
    FormulaAntitone(t.loadN2 + t.loadHe, BlendedA(t, i), BlendedB(t, i), g1, g2);
  }

  /** n2 / d2 ≤ n1 / d1 from n2·d1 ≤ n1·d2 with positive denominators, then
      scaled by b > 0. */
  lemma CrossMultiply(n2: real, d2: real, n1: real, d1: real, b: real)
    requires d1 > 0.0 && d2 > 0.0 && b > 0.0 && n2 * d1 <= n1 * d2
    ensures n2 * (b / d2) <= n1 * (b / d1)
  {
    assert n2 / d2 <= n1 / d1 by {
      assert n2 / d2 == (n2 * d1) / (d1 * d2);
      assert n1 / d1 == (n1 * d2) / (d1 * d2);
    }
    assert n2 * (b / d2) == b * (n2 / d2);
    assert n1 * (b / d1) == b * (n1 / d1);
  }

  /** `3 · round(r / 3)`: the multiple of 3 nearest to r, halfway cases away
      from zero. (The source's comment says "round down"; the code rounds to
      nearest.) */
  function RoundToMultipleOf3(r: real): (c: int)
    ensures c % 3 == 0
    ensures r - 1.5 <= c as real <= r + 1.5
    ensures c as real - r == 1.5 ==> r > 0.0
    ensures r - c as real == 1.5 ==> r < 0.0
  {
    3 * RoundHalfAway(r / 3.0)
  }

  lemma RoundToMultipleOf3Monotone(r1: real, r2: real)
    requires r1 <= r2
    ensures RoundToMultipleOf3(r1) <= RoundToMultipleOf3(r2)
  {
    var c1, c2 := RoundToMultipleOf3(r1), RoundToMultipleOf3(r2);
    assert c1 <= c2 + 2 || c1 >= c2 + 3;
  }

  /** `ceiling`: the raw ceiling at the parameters' gf_high, rounded to the
      nearest multiple of 3 (gf_low is not consulted). The raw value is a
      tolerated ambient pressure in bar, which the source rounds as is. */
  function Ceiling(params: DiveParameters, t: Tissue, i: CompartmentIndex): (c: int)
    requires PhysicalLoads(t) && params.gfHigh >= 0.0
    ensures c % 3 == 0
    ensures var r := RawCeiling(params.gfHigh, t, i); r - 1.5 <= c as real <= r + 1.5
    // an exact half goes away from zero
    ensures var r := RawCeiling(params.gfHigh, t, i);
      (c as real - r == 1.5 ==> r > 0.0) && (r - c as real == 1.5 ==> r < 0.0)
  {
    RoundToMultipleOf3(RawCeiling(params.gfHigh, t, i))
  }

  /** Only gf_high matters. */
  lemma CeilingIgnoresGfLow(p1: DiveParameters, p2: DiveParameters, t: Tissue, i: CompartmentIndex)
    requires PhysicalLoads(t) && p1.gfHigh >= 0.0 && p1.gfHigh == p2.gfHigh
    ensures Ceiling(p1, t, i) == Ceiling(p2, t, i)
  {
  }

  /** A lower gf_high never gives a shallower ceiling. */
  lemma CeilingAntitoneInGf(p1: DiveParameters, p2: DiveParameters, t: Tissue, i: CompartmentIndex)
    requires PhysicalLoads(t) && 0.0 <= p1.gfHigh <= p2.gfHigh
    ensures Ceiling(p2, t, i) <= Ceiling(p1, t, i)
  {
    RawCeilingAntitoneInGf(p1.gfHigh, p2.gfHigh, t, i);
    RoundToMultipleOf3Monotone(RawCeiling(p2.gfHigh, t, i), RawCeiling(p1.gfHigh, t, i));
  }

  /** In every compartment, the largest a times the largest b is below 1. */
  lemma CoefficientProductBelowOne(i: CompartmentIndex)
    ensures Max(N2A(i), HeA(i)) * Max(N2B(i), HeB(i)) < 1.0
  {
  }

  /** With gf_high in [0, 1] and physical loads the ceiling is never
      negative: r ≥ −a·b > −1.5, which rounds to 0 or more. */
  lemma CeilingNonNegative(params: DiveParameters, t: Tissue, i: CompartmentIndex)
    requires PhysicalLoads(t) && 0.0 <= params.gfHigh <= 1.0
    ensures Ceiling(params, t, i) >= 0
  {
    var a, b := BlendedA(t, i), BlendedB(t, i);
    FormulaLowerBound(t.loadN2 + t.loadHe, a, b, params.gfHigh);
    CoefficientProductBelowOne(i);
    MulMonotone(a, Max(N2A(i), HeA(i)), b, Max(N2B(i), HeB(i)));
    assert RawCeiling(params.gfHigh, t, i) > -1.0;
  }

  /** Above a gradient factor of 1 the formula can go negative: a light
      nitrogen load in compartment 15 with gf_high = 10 rounds to −3. */
  lemma NegativeCeilingAboveGfOne()
    ensures Ceiling(Default().(gfHigh := 10.0), Tissue(0.0001, 0.0), 15) == -3
  {
    var t := Tissue(0.0001, 0.0);
    assert BlendedA(t, 15) == 0.2327 && BlendedB(t, 15) == 0.9653;
    assert GfDenominator(10.0, 0.9653) == 1.3123;
    var r := RawCeiling(10.0, t, 15);
    assert -1.72 < r < -1.71;
    RoundHalfAwayNear(r / 3.0, -1);
  }

  /** 17.65 bar of N2 in compartment 1 at gf 1.0: raw ceiling 10.84581,
      rounded to 12. */
  lemma CeilingScenarioGfOne()
    ensures Ceiling(Default(), Tissue(17.65, 0.0), 1) == 12
  {
    var t := Tissue(17.65, 0.0);
    assert BlendedA(t, 1) == 1.0 && BlendedB(t, 1) == 0.6514;
    assert GfDenominator(1.0, 0.6514) == 1.0;
    var r := RawCeiling(1.0, t, 1);
    assert r == 16.65 * (0.6514 / 1.0);
    assert r == 10.84581;
    RoundHalfAwayNear(r / 3.0, 4);
    assert RoundToMultipleOf3(r) == 12;
  }

  /** The same tissue at gf 0.3: raw ceiling about 14.95, rounded to 15. */
  lemma CeilingScenarioGfLow()
    ensures Ceiling(Default().(gfHigh := 0.3, gfLow := 0.3), Tissue(17.65, 0.0), 1) == 15
  {
    var t := Tissue(17.65, 0.0);
    assert BlendedA(t, 1) == 1.0 && BlendedB(t, 1) == 0.6514;
    assert GfDenominator(0.3, 0.6514) == 0.75598;
    var r := RawCeiling(0.3, t, 1);
    assert r == 17.35 * (0.6514 / 0.75598);
    assert 14.94 < r < 14.96;
    RoundHalfAwayNear(r / 3.0, 5);
  }

  /** The answer of `max_ceiling` / `max_ceiling_with_gf`: a ceiling depth
      and the compartment that controls it. */
  datatype CeilingResult = CeilingResult(depth: nat, index: CompartmentIndex)

  /** `max_ceiling_with_gf(gf, tissues)`, whose code is not part of this
      model: any function of this shape. */
  type MaxCeilingWithGf = (real, seq<Tissue>) -> CeilingResult

  /** `max_ceiling(params, tissues)` for fixed parameters. */
  type MaxCeiling = seq<Tissue> -> CeilingResult

  /** A per-compartment ceiling in whole metres, as the NDL loop consumes. */
  type CompartmentCeiling = (Tissue, CompartmentIndex) -> nat
}

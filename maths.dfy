/** Real-number helpers shared by the decompression model. */
module Maths {

  /** The properties of x ↦ e^x that the kinetics rely on: e^0 = 1, and a
      non-positive exponent gives a factor in (0, 1], strictly below 1 when
      the exponent is negative. */
  ghost predicate IsExp(exp: real -> real) {
    && exp(0.0) == 1.0
    && forall x: real :: x <= 0.0 ==> 0.0 < exp(x) <= 1.0 && (x < 0.0 ==> exp(x) < 1.0)
  }

  /** The natural exponential, as far as the model needs it. */
  type ExpFn = exp: real -> real | IsExp(exp) witness ExpWitness

  /** Any inhabitant shows the constraint can be met; the model never uses it. */
  const ExpWitness: real -> real := (x: real) => if x < 0.0 then 1.0 / (1.0 - x) else 1.0 + x

  /** ln 2 to double precision (the source evaluates it with `logf(2.0)`). */
  const LN2: real := 0.6931471805599453

  datatype Option<T> = None | Some(value: T)

  function Min(x: real, y: real): real { if x <= y then x else y }

  function Max(x: real, y: real): real { if x >= y then x else y }

  /** `round` from libm: nearest integer, halfway cases away from zero. */
  function RoundHalfAway(x: real): (r: int)
    ensures x - 0.5 <= r as real <= x + 0.5
    ensures r as real - x == 0.5 ==> x > 0.0
    ensures x - r as real == 0.5 ==> x < 0.0
  {
    if x >= 0.0 then (x + 0.5).Floor else -((0.5 - x).Floor)
  }

  /** Rounding is determined by the open unit interval around an integer. */
  lemma RoundHalfAwayNear(x: real, n: int)
    requires n as real - 0.5 < x < n as real + 0.5
    ensures RoundHalfAway(x) == n
  {
    var r := RoundHalfAway(x);
    assert (n - 1) as real < r as real < (n + 1) as real;
  }

  lemma MulNonNegative(x: real, y: real)
    requires x >= 0.0 && y >= 0.0
    ensures x * y >= 0.0
  {
  }

  lemma MulMonotone(x1: real, x2: real, y1: real, y2: real)
    requires 0.0 <= x1 <= x2 && 0.0 <= y1 <= y2
    ensures x1 * y1 <= x2 * y2
  {
    assert x1 * y1 <= x2 * y1;
  }

  lemma DivAboveOne(x: real, y: real)
    requires y > 0.0 && x > y
    ensures x / y > 1.0
  {
    assert (x / y) * y == x;
    if x / y <= 1.0 {
      MulMonotone(x / y, 1.0, y, y);
      assert false;
    }
  }
}

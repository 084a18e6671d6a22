/** The Bühlmann M-value line (tolerated tissue N2 pressure). */
module MValue {
  import opened ZhL16c

  /** `calculate_m_values`: amb / b + a with compartment i's N2
      coefficients; helium plays no part. The result lies on the M-value
      line: going back from it through a and b recovers the ambient
      pressure. */
  function CalculateMValue(ambPressure: real, i: CompartmentIndex): (m: real)
    ensures (m - N2A(i)) * N2B(i) == ambPressure
    ensures ambPressure >= 0.0 ==> m >= ambPressure + N2A(i)
  {
    ambPressure / N2B(i) + N2A(i)
  }

  /** The line is strictly increasing in the ambient pressure (b > 0) and
      meets the pressure axis at a. */
  lemma MValueIncreasing(p1: real, p2: real, i: CompartmentIndex)
    requires p1 < p2
    ensures CalculateMValue(p1, i) < CalculateMValue(p2, i)
    ensures CalculateMValue(0.0, i) == N2A(i)
  {
    var b := N2B(i);
    assert (CalculateMValue(p2, i) - CalculateMValue(p1, i)) * b == p2 - p1;
  }

  /** Compartment 15 at 5 bar: 5 / 0.9653 + 0.2327 ≈ 5.4124. */
  lemma MValueCompartment15At5Bar()
    ensures 5.41243 < CalculateMValue(5.0, 15) < 5.41244
  {
  }
}

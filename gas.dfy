/** Breathing-gas constants and helpers of the crate root: the inert-gas
    fractions of air, water-vapour pressure and the default surface load. */
module Gas {

  /** Nitrogen fraction of the breathing gas (air). */
  const FN2: real := 0.79

  /** Helium fraction of the breathing gas (none: air only). */
  const FHE: real := 0.0

  /** Alveolar water-vapour pressure in bar. The temperature argument is
      ignored: the source always answers 0.0627 bar (47 mmHg, the value at
      37 °C), whatever the temperature. */
  function WaterVaporPressure(temperature: real): (p: real)
    ensures p == 0.0627
  {
    0.0627
  }

  /** N2 load of a compartment in equilibrium with air at 1 bar:
      0.79 · (1 − water-vapour pressure). */
  function DefaultTissueLoad(temperature: real): (p: real)
    ensures 0.74 < p < 0.741
  {
    0.79 * (1.0 - WaterVaporPressure(temperature))
  }

  /** The answer does not depend on the temperature. */
  lemma DefaultTissueLoadIsConstant(t1: real, t2: real)
    ensures DefaultTissueLoad(t1) == DefaultTissueLoad(t2) == 0.740467
  {
  }
}

/** The no-decompression-limit search: advance every compartment one minute
    at a time at a fixed ambient pressure until some compartment shows a
    ceiling. */
module Ndl {
  import opened Maths
  import opened ZhL16c
  import opened Kinetics
  import opened Ceiling

  /** The largest per-compartment ceiling among compartments 0 .. k-1, or 0
      when k is 0. */
  function MaxCeilingUpTo(ceil: CompartmentCeiling, ts: seq<Tissue>, k: nat): (m: nat)
    requires k <= |ts| && k <= COMPARTMENTS
    ensures forall j :: 0 <= j < k ==> ceil(ts[j], j) <= m
    ensures m == 0 || exists j :: 0 <= j < k && m == ceil(ts[j], j)
  {
    if k == 0 then 0
    else
      var m, c := MaxCeilingUpTo(ceil, ts, k - 1), ceil(ts[k - 1], k - 1);
      if m >= c then m else c
  }

  /** Some compartment of the bank has a non-zero ceiling. */
  predicate HasCeiling(ceil: CompartmentCeiling, ts: seq<Tissue>)
    requires IsBank(ts)
  {
    exists j :: 0 <= j < COMPARTMENTS && ceil(ts[j], j) != 0
  }

  /** The running maximum over the whole bank is non-zero exactly when some
      compartment has a ceiling. */
  lemma MaxCeilingDetectsCeiling(ceil: CompartmentCeiling, ts: seq<Tissue>)
    requires IsBank(ts)
    ensures MaxCeilingUpTo(ceil, ts, COMPARTMENTS) != 0 <==> HasCeiling(ceil, ts)
  {
    var m := MaxCeilingUpTo(ceil, ts, COMPARTMENTS);
    if m != 0 {
      var j :| 0 <= j < COMPARTMENTS && m == ceil(ts[j], j);
      assert ceil(ts[j], j) != 0;
    }
  }

  /** The bank after n whole minutes at a constant ambient pressure. */
  function AfterMinutes(ts: seq<Tissue>, ambPressure: real, temperature: real,
                        exp: ExpFn, n: nat): (r: seq<Tissue>)
    requires IsBank(ts)
    ensures IsBank(r)
  {
    AdvanceRepeated(ts, ambPressure, temperature, 1.0, exp, n)
  }

  /** While the NDL search runs, every compartment's N2 load moves strictly
      and monotonically towards the inspired N2 pressure without crossing it. */
  lemma NdlLoadsApproachInspired(ts: seq<Tissue>, ambPressure: real, temperature: real,
                                 exp: ExpFn, n: nat, k: CompartmentIndex)
    requires IsBank(ts) && n > 0
    ensures var pp := InspiredN2(ambPressure, temperature);
      var d0 := ts[k].loadN2 - pp;
      var dn := AfterMinutes(ts, ambPressure, temperature, exp, n)[k].loadN2 - pp;
      (d0 > 0.0 ==> 0.0 < dn < d0) && (d0 < 0.0 ==> d0 < dn < 0.0) && (d0 == 0.0 ==> dn == 0.0)
  {
    AdvanceRepeatedPerCompartment(ts, ambPressure, temperature, 1.0, exp, n, k);
    N2ConvergesMonotonically(ts[k], k, ambPressure, temperature, 1.0, n, exp);
  }

  /** Minutes 1 .. n all end without a ceiling. */
  ghost predicate CeilingFreeFor(ceil: CompartmentCeiling, ts: seq<Tissue>, ambPressure: real,
                                 temperature: real, exp: ExpFn, n: nat)
    requires IsBank(ts)
  {
    forall m :: 1 <= m <= n ==> !HasCeiling(ceil, AfterMinutes(ts, ambPressure, temperature, exp, m))
  }

  /** One pass of the NDL loop: every compartment advanced one minute, in
      index order, while the largest ceiling seen so far is tracked. */
  method AdvanceMinute(ceil: CompartmentCeiling, tissues: array<Tissue>, ambPressure: real,
                       temperature: real, exp: ExpFn) returns (maxCeiling: nat)
    requires tissues.Length == COMPARTMENTS
    modifies tissues
    ensures tissues[..] == AdvanceAll(old(tissues[..]), ambPressure, temperature, 1.0, exp)
    ensures maxCeiling != 0 <==> HasCeiling(ceil, tissues[..])
  {
    ghost var after := AdvanceAll(tissues[..], ambPressure, temperature, 1.0, exp);
    maxCeiling := 0;
    for i := 0 to COMPARTMENTS
      invariant tissues[..] == AdvancePrefix(old(tissues[..]), i, ambPressure, temperature, 1.0, exp)
      invariant maxCeiling == MaxCeilingUpTo(ceil, after, i)
    {
      tissues[i] := CalculateTissue(tissues[i], i, ambPressure, temperature, 1.0, exp);
      var c := ceil(tissues[i], i);
      maxCeiling := if maxCeiling >= c then maxCeiling else c;
    }
    MaxCeilingDetectsCeiling(ceil, after);
  }

  /** `ndl`: the number of whole minutes that can still be spent at
      `ambPressure` before a ceiling appears. The tissues are advanced in
      place, one minute per pass, and the check happens after the full pass,
      so on return they have been advanced one minute more than the result.
      The source loops without bound; here at most `fuel` minutes are tried
      and None reports that no ceiling appeared within them. */
  method Ndl(ceil: CompartmentCeiling, tissues: array<Tissue>, ambPressure: real, temperature: real,
             exp: ExpFn, fuel: nat) returns (r: Option<nat>)
    requires tissues.Length == COMPARTMENTS
    modifies tissues
    ensures r.Some? ==> r.value < fuel
    ensures r.Some? ==> CeilingFreeFor(ceil, old(tissues[..]), ambPressure, temperature, exp, r.value)
    ensures r.Some? ==> HasCeiling(ceil, tissues[..])
    ensures r.Some? ==> tissues[..] == AfterMinutes(old(tissues[..]), ambPressure, temperature, exp, r.value + 1)
    ensures r.None? ==> CeilingFreeFor(ceil, old(tissues[..]), ambPressure, temperature, exp, fuel)
    ensures r.None? ==> tissues[..] == AfterMinutes(old(tissues[..]), ambPressure, temperature, exp, fuel)
  {
    ghost var start := tissues[..];
    var bottomTime: nat := 0;
    while bottomTime < fuel
      invariant bottomTime <= fuel
      invariant tissues[..] == AfterMinutes(start, ambPressure, temperature, exp, bottomTime)
      invariant CeilingFreeFor(ceil, start, ambPressure, temperature, exp, bottomTime)
      decreases fuel - bottomTime
    {
      var maxCeiling := AdvanceMinute(ceil, tissues, ambPressure, temperature, exp);
      assert AfterMinutes(start, ambPressure, temperature, exp, bottomTime + 1)
          == AdvanceAll(AfterMinutes(start, ambPressure, temperature, exp, bottomTime), ambPressure, temperature, 1.0, exp);
      if maxCeiling != 0 {
        return Some(bottomTime);
      }
      bottomTime := bottomTime + 1;
    }
    return None;
  }
}

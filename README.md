# dive-computer-deco: a Dafny model of the decompression engine

This project models the decompression engine of the `dive-computer-deco` crate in Dafny and proves properties of the model. The engine is a Bühlmann ZH-L16C tissue model with gradient factors. It has six parts:

- **Gas loading** (`Kinetics`). Each of the 16 compartments follows the Haldane exponential update towards the inspired partial pressure.
- **The M-value line** (`MValue`).
- **The single-compartment ceiling** (`Ceiling`). It blends the a/b coefficients across gases, applies the gradient-factor formula and rounds the result to a multiple of 3.
- **The no-decompression-limit search** (`Ndl`).
- **The crate-root helpers** (`Gas`, `Params`, `DecoLoop`):
  - the dive parameters;
  - the water-vapour and default-load constants;
  - the M-value oversaturation check;
  - the stop-by-stop decompression scheduler.
- **The dive simulator** (`Simulate`). It is a phase machine: descent, bottom time, a free ascent with gradient-factor stops, then one minute of surface off-gassing. It steps the caller's bank one second at a time and records time series.

The remaining modules hold supporting definitions:

- `Maths` holds real-number helpers and the contract for the exponential.
- `ZhL16c` holds the compartment table.

## Modelling choices

- **Numbers.** `f32` arithmetic is modelled as exact `real` arithmetic.
- **Exponential.** `e^x` is a parameter `exp: ExpFn`. Its type only guarantees `exp(0) = 1`, `0 < exp(x) ≤ 1` for `x ≤ 0`, and `exp(x) < 1` for `x < 0`. `ln 2` is a decimal constant.
- **Ceiling solvers.** `max_ceiling` and `max_ceiling_with_gf` are not part of this model. The scheduler and the simulator take them as function parameters (`Ceiling.MaxCeiling`, `Ceiling.MaxCeilingWithGf`). Each returns a depth in whole metres and a compartment index below 16.
- **NDL ceiling.** The NDL loop takes a per-compartment ceiling `(Tissue, index) -> nat` as a parameter, because it stores its ceilings in a `u32`.
- **Imperative code stays imperative.** The caller-owned `[Tissue; 16]` is an `array<Tissue>` updated in place by methods. Each method is proved against specification functions on `seq<Tissue>`: `AdvanceAll`, `AdvanceRepeated`, `FirstClear` and `DecoSchedule`.
- **Recorded output.** `SimulationOutputs` is a class whose three series are `seq` fields. Their value, a `Series`, is part of each snapshot of a run, and every step relation states what the step records.
- **Loop state.** The simulator's local variables are a `SimState` value. Each phase is one method with a precondition built on a shared loop invariant (`Simulate.Inv`).
- **Compartment table.** `src/zh16c.rs` is not part of this model. Its constants are the published ZH-L16C values, indexed 0..15 without the "1b" variant. Index 1 is therefore the table's second compartment: N2 half-life 8.0 minutes, a = 1.0, b = 0.6514. These agree with the values the crate's tests rely on: index 1 with a = 1.0 and b = 0.6514, and index 15 with a = 0.2327 and b = 0.9653.

## Where the code's comments or tests disagree with the code

The model follows the code in every case below.

- `water_vapor_pressure` ignores the temperature and returns 0.0627 bar (src/lib.rs:84-94). The in-file test expects 0.0555 (src/lib.rs:96-99). The model returns 0.0627.
- The comment in `ceiling` says "round down to multiples of 3", but the code uses `round`, which goes to the nearest value with halves away from zero (src/ceiling.rs:24-26). `Ceiling.RoundToMultipleOf3` does the same.
- `ceiling` rounds the solved tolerated ambient pressure `r` as it is (src/ceiling.rs:20-26). That value is in bar, and it is not converted to a depth in metres first. The model rounds `r` as the code does.
- `calculate_deco_stop_depth` rounds the ceiling up to a multiple of 3, so a stop can be deeper than the diver (src/simulate.rs:197-236). In that case the source puts the diver at the stop depth on the next iteration (src/simulate.rs:318). The model does the same. The deepest recorded depth is therefore bounded by `Simulate.DepthBound`: the target rounded up to a multiple of 3, and at least 3. It is not bounded by the target itself.
- Some free-ascent steps reach the surface (src/simulate.rs:255-281). That step's tissue update and its `dive_time` increment are skipped, and the 60 surface seconds follow directly. The model does the same.

## Model

| member | source | states |
|---|---|---|
| Maths.RoundHalfAway | src/ceiling.rs:25 | `round` lands within 0.5 of its argument, and an exact half goes away from zero |
| ZhL16c.N2HalfLife | src/tissue.rs:64 | every nitrogen half-life is positive |
| ZhL16c.HeHalfLife | src/tissue.rs:65 | every helium half-life is positive |
| ZhL16c.N2A | src/ceiling.rs:11 | every nitrogen a is positive |
| ZhL16c.N2B | src/ceiling.rs:12 | every nitrogen b lies strictly between 0 and 1 |
| ZhL16c.HeA | src/ceiling.rs:14 | every helium a is positive |
| ZhL16c.HeB | src/ceiling.rs:15 | every helium b lies strictly between 0 and 1 |
| Gas.WaterVaporPressure | src/lib.rs:84-94 | the water-vapour pressure is 0.0627 bar for every temperature |
| Gas.DefaultTissueLoad | src/lib.rs:79-81 | the surface N2 load 0.79·(1 − wvp) lies in (0.74, 0.741) |
| Gas.DefaultTissueLoadIsConstant | src/lib.rs:79-94 | the default load does not depend on the temperature and equals 0.740467 |
| Params.New | src/lib.rs:35-47 | `new` takes gf_high first and gf_low second, and fixes descent at 0.333333333 m/s and ascent at 0.1666667 m/s (both positive, ascent slower) |
| Params.Default | src/lib.rs:50-63 | the default has gradient factors 1.0/1.0, descent 0.33 m/s and ascent 0.17 m/s |
| MValue.CalculateMValue | src/m_value.rs:3-5 | the result lies on the line of compartment i's N2 coefficients: (m − a)·b is the ambient pressure; for non-negative pressure m ≥ amb + a |
| MValue.MValueIncreasing | src/m_value.rs:4 | the M-value is strictly increasing in the ambient pressure, and equals a at zero pressure |
| MValue.MValueCompartment15At5Bar | tests/m_value.rs:4-9 | compartment 15 at 5 bar gives an M-value between 5.41243 and 5.41244 |
| Kinetics.DefaultTissue | src/tissue.rs:23-30 | the default tissue holds 1 bar of N2 and 1 bar of He |
| Kinetics.InspiredHe | src/tissue.rs:57 | the inspired helium pressure is 0, because FHE is 0 |
| Kinetics.DecayFactor | src/tissue.rs:67-71 | e^(−ln2/half-life·t) lies in (0, 1], and equals 1 exactly when no time passes |
| Kinetics.Scale | src/tissue.rs:73 | scaling the distance to the inspired pressure by the decay factor keeps its sign and never lengthens it; it strictly shortens a non-zero distance when time passes |
| Kinetics.ScaleTwice | src/tissue.rs:73 | two successive decays multiply their factors |
| Kinetics.Approach | src/tissue.rs:73 | the Haldane step lands between the old load and the inspired pressure, strictly inside when time passes and they differ, and stays put at zero time or at equilibrium |
| Kinetics.HeLoadAsWritten | src/tissue.rs:74 | the helium update as written returns the inspired pressure, not the old load, when no time passes |
| Kinetics.CalculateTissue | src/tissue.rs:46-80 | the new N2 load lies between the old load and the inspired N2; it rises when below, falls when above, and is fixed at equilibrium; He stays between its load and 0; zero elapsed time changes nothing |
| Kinetics.CalculateTissueAsWritten | src/tissue.rs:46-80 | the as-written update agrees with the corrected one on N2, and at zero time sets He to the inspired He |
| Kinetics.HeZeroTimeCounterexample | src/tissue.rs:74 | at zero elapsed time the as-written update turns the default tissue's 1 bar of He into 0, and the corrected update leaves the tissue as it was |
| Kinetics.AsWrittenAgreesAtHeliumEquilibrium | src/tissue.rs:73-74 | when the He load already equals the inspired He, both updates give the same tissue, and its He load is 0 |
| Kinetics.AdvanceAllAsWritten | src/simulate.rs:117-119 | a bank pass with the as-written update gives the same N2 loads as the corrected pass |
| Kinetics.AsWrittenBankAgreesWithoutHelium | src/tissue.rs:73-74 | on a bank without helium, a pass with the as-written update equals the corrected pass, and the bank stays without helium |
| Kinetics.AsWrittenRepeatedAgreesWithoutHelium | src/ndl.rs:14-24 | on a bank without helium, any number of as-written passes equals the same number of corrected passes |
| Kinetics.SurfaceEquilibriumIsFixed | src/tissue.rs:56-57 | the surface-equilibrium tissue (default load of N2, no He) is a fixed point at 1 bar for any elapsed time |
| Kinetics.DefaultTissueIsNotAtSurfaceEquilibrium | src/tissue.rs:23-30 | `Tissue::default()` is not the surface equilibrium, and it off-gasses N2 at 1 bar as soon as time passes |
| Kinetics.PowBounds | src/tissue.rs:70 | repeated decay factors stay in (0, 1], and are below 1 when time passes |
| Kinetics.ApproachNDistance | src/tissue.rs:70-73 | after n updates at a fixed pressure the distance to the inspired pressure is the initial distance times f^n |
| Kinetics.CompartmentAfterN2 | src/tissue.rs:73 | n compartment updates at a fixed pressure are n Haldane steps of the N2 load |
| Kinetics.N2ConvergesMonotonically | src/tissue.rs:73 | with time passing, the N2 distance to the inspired pressure strictly shrinks after n ≥ 1 updates and never changes sign |
| Kinetics.AdvancePrefix | src/ndl.rs:15-16 | a pass stopped after n compartments has updated exactly those n and left the rest alone |
| Kinetics.AdvanceRepeatedPerCompartment | src/ndl.rs:14-24 | compartments evolve independently: after n bank updates each is its own n-fold update |
| Kinetics.AdvanceAllKeepsNonNegative | src/tissue.rs:56-57 | loads stay non-negative when the ambient pressure is at least the water-vapour pressure |
| Kinetics.AdvanceRepeatedKeepsNonNegative | src/tissue.rs:56-57 | so do any number of updates at one such pressure (the surface minute) |
| Kinetics.StepTissues | src/simulate.rs:117-119 | the in-place pass over the array gives the bank of AdvanceAll |
| Ceiling.Blend | src/ceiling.rs:17-18 | a load-weighted coefficient lies between the N2 and He coefficients, and is the N2 one when there is no He (the He one when there is no N2) |
| Ceiling.BlendedA | src/ceiling.rs:17 | the blended a is positive and at most the larger table a |
| Ceiling.BlendedB | src/ceiling.rs:18 | the blended b lies in (0, 1) and is at most the larger table b |
| Ceiling.GfDenominator | src/ceiling.rs:20 | gf − gf·b + b is at least b > 0, at least gf when gf ≤ 1, and 1 when gf = 1 |
| Ceiling.FormulaSolves | src/ceiling.rs:20 | the formula's r is an ambient pressure at which the gf-reduced tolerated load equals the tissue load |
| Ceiling.FormulaUnique | src/ceiling.rs:20 | no other ambient pressure gives that tolerated load |
| Ceiling.FormulaAntitone | src/ceiling.rs:20 | for a non-negative load and a > 0, a lower gf never gives a smaller r |
| Ceiling.FormulaLowerBound | src/ceiling.rs:20 | with gf in [0, 1] and a non-negative load, r ≥ −a·b |
| Ceiling.FormulaAtGfOne | src/ceiling.rs:20 | with gf = 1, r = (p − a)·b |
| Ceiling.RawCeiling | src/ceiling.rs:9-20 | the source's r is where the tissue's total load equals the tolerated load under gf_high with the blended coefficients |
| Ceiling.RawCeilingIsUnique | src/ceiling.rs:20 | the raw ceiling is the only such ambient pressure |
| Ceiling.RawCeilingOnMValueLine | src/ceiling.rs:17-20 | for a nitrogen-only tissue the load sits gf of the way from r to the M-value at r |
| Ceiling.RawCeilingAtGfOne | src/ceiling.rs:20 | at gf = 1 a nitrogen-only raw ceiling is (p − a)·b |
| Ceiling.MValueAtRawCeiling | src/ceiling.rs:20 | at gf = 1 the M-value at a nitrogen-only raw ceiling is exactly the N2 load |
| Ceiling.RawCeilingAntitoneInGf | src/ceiling.rs:20 | lowering the gradient factor never makes the raw ceiling shallower |
| Ceiling.RoundToMultipleOf3 | src/ceiling.rs:24-26 | 3·round(r/3) is a multiple of 3 within 1.5 of r, and an exact half goes away from zero |
| Ceiling.RoundToMultipleOf3Monotone | src/ceiling.rs:24-26 | the rounding is monotone |
| Ceiling.Ceiling | src/ceiling.rs:8-27 | `ceiling` is a multiple of 3 within 1.5 of the raw ceiling under gf_high, and an exact half goes away from zero |
| Ceiling.CeilingIgnoresGfLow | src/ceiling.rs:20 | parameters that differ only outside gf_high give the same ceiling |
| Ceiling.CeilingAntitoneInGf | src/ceiling.rs:20-26 | a lower gf_high never gives a shallower rounded ceiling |
| Ceiling.CoefficientProductBelowOne | src/ceiling.rs:11-15 | in every compartment the largest a times the largest b is below 1 |
| Ceiling.CeilingNonNegative | src/ceiling.rs:17-26 | with gf_high in [0, 1] and physical loads the rounded ceiling is never negative |
| Ceiling.NegativeCeilingAboveGfOne | src/ceiling.rs:20-26 | without that bound it can be: a light N2 load in compartment 15 with gf_high = 10 gives −3 |
| Ceiling.CeilingScenarioGfOne | src/ceiling.rs:29-39 | 17.65 bar of N2 in compartment 1 with the default parameters gives a ceiling of 12 |
| Ceiling.CeilingScenarioGfLow | src/ceiling.rs:41-55 | the same tissue with gradient factors 0.3/0.3 gives 15 |
| Ndl.MaxCeilingUpTo | src/ndl.rs:13-17 | the running maximum bounds every ceiling seen so far, and is 0 or one of them |
| Ndl.MaxCeilingDetectsCeiling | src/ndl.rs:17-20 | the maximum over the bank is non-zero exactly when some compartment has a ceiling |
| Ndl.NdlLoadsApproachInspired | src/ndl.rs:15-16 | during the search every N2 load moves strictly and monotonically towards the inspired N2 without crossing it |
| Ndl.AdvanceMinute | src/ndl.rs:15-18 | one pass advances every compartment one minute in place, and its maximum is non-zero exactly when the new bank has a ceiling |
| Ndl.Ndl | src/ndl.rs:10-25 | a result n means minutes 1..n were ceiling-free, and after n + 1 minutes there is a ceiling; the array then holds the bank advanced n + 1 minutes; None means no ceiling within the fuel |
| DecoLoop.OversaturatedIffAboveCeiling | src/lib.rs:115 | a nitrogen-only load exceeds its M-value exactly when the ambient pressure is below its gf = 1 raw ceiling |
| DecoLoop.RunNoDecoLoop | src/lib.rs:110-121 | Ok means all 16 compartments were updated and none exceeds its M-value; Oversaturation means compartments 0..j were updated, j is the first over its M-value, and later ones are untouched |
| DecoLoop.FirstClear | src/lib.rs:135-155 | the first second after which the stop's ceiling is shallower than the stop, with every earlier second not clear; None means no second below the 10000 cap clears |
| DecoLoop.FirstClearStep | src/lib.rs:137-154 | one more second at a stop either clears it there or defers the search to the next second; that second is one more bank update at the stop's pressure |
| DecoLoop.StopDepths | src/lib.rs:128-161 | the stops visited are first, first − 3, … while at least 3, with first/3 of them |
| DecoLoop.DecoScheduleShape | src/lib.rs:123-165 | a schedule visits exactly those stop depths, holds each fewer than 10000 seconds, leaves each only once the ceiling is shallower, and starts from the caller's bank |
| DecoLoop.DecoScheduleChains | src/lib.rs:128-161 | each stop starts from the bank the previous stop left, held its number of seconds at its own depth |
| DecoLoop.DecoOutcome | src/lib.rs:123-165 | the only error is InvalidSolution, and a first stop shallower than 3 m is Ok |
| DecoLoop.CloneBank | src/lib.rs:129-134 | the clone is a fresh array with the same bank |
| DecoLoop.HoldStop | src/lib.rs:132-156 | holding a stop on a copy returns the bank at the first clearing second, or None when the cap is hit |
| DecoLoop.CalculateDecoStops | src/lib.rs:123-165 | the scheduler's result is the outcome of the stop schedule from the bank's ceiling; the caller's array is only read |
| Simulate.SimulationOutputs.constructor | src/simulate.rs:29-37 | a new record set has three empty series |
| Simulate.SimulationOutputs.Record | src/simulate.rs:379-384 | a record appends one depth, one pressure and one snapshot of the bank, and the three series keep equal lengths |
| Simulate.StepToward | src/simulate.rs:110-112 | the time step is at most one second, never carries the diver past the goal, and is a full second when the goal is more than a second away |
| Simulate.AscendToward | src/simulate.rs:213-221 | an ascent step lands on the goal or one second's rise higher up, whichever is deeper |
| Simulate.DecoStopDepth | src/simulate.rs:373-377 | the stop depth is a multiple of 3, at least 3, at least the ceiling, below ceiling + 3 for a positive ceiling, and exactly 3 for a ceiling of at most 3 |
| Simulate.DepthBound | src/simulate.rs:108-236 | the least multiple of 3, at least 3, that is not shallower than the target; it is an upper bound on every depth the simulation can reach |
| Simulate.DecoStopWithinBound | src/simulate.rs:195-199 | a stop opened below a ceiling the diver is deeper than never goes below the depth bound |
| Simulate.CurrentGf | src/simulate.rs:174-189 | the factor is gf_high with no first stop or at the surface; gf_low at or below the first stop; between them it is gf_low + (gf_high − gf_low)·(1 − depth/first stop), which lies between gf_low and gf_high |
| Simulate.Interpolate | src/simulate.rs:184 | the interpolated factor lies between its two ends |
| Simulate.InterpolateMonotone | src/simulate.rs:184 | moving further towards the higher end never lowers the factor |
| Simulate.CurrentGfAntitoneInDepth | src/simulate.rs:174-189 | with gf_low ≤ gf_high, a shallower depth is never held to a lower gradient factor |
| Simulate.InitialStateOk | src/simulate.rs:72-83 | the initial locals (surface, descending, no stop) satisfy the loop invariant |
| Simulate.Ticked | src/simulate.rs:122-127 | the series only grows, by at most the sample taken at the end of the step (its depth, ambient pressure and bank); a sample is taken exactly when the accumulator reaches the interval, and the accumulator then drops by the interval rather than to zero |
| Simulate.Tick | src/simulate.rs:117-127 | one step updates the bank by AdvanceAll, and the accumulator and the recorded series follow `Ticked` |
| Simulate.RecordIfDue | src/simulate.rs:122-127 | the accumulator and the recorded series after a step are those of `Ticked` |
| Simulate.DescentIteration | src/simulate.rs:108-135 | the diver goes down by at most one second's descent without passing the target, and switches to the bottom phase exactly on reaching it; the new depth, time and bank are those of the descent relation `DescentStep` |
| Simulate.BottomIteration | src/simulate.rs:136-163 | with no bottom time left the ascent starts and nothing changes; otherwise at most one second passes at the target depth; the new state and bank are those of the bottom relation `BottomStep` |
| Simulate.StayAtBottom | src/simulate.rs:149-163 | one step at the target depth keeps the phase, lasts the bottom time left (at most one second) and updates the bank at the target's pressure |
| Simulate.SurfaceTicks | src/simulate.rs:264-277 | the surface minute's bookkeeping only appends to the series, at most one sample per second |
| Simulate.SurfaceOffGas | src/simulate.rs:255-281 | the surface phase runs exactly 60 one-second updates at the starting ambient pressure, and records the samples of `SurfaceTicks` |
| Simulate.SurfaceSecond | src/simulate.rs:264-277 | each surface second advances the bank one update further at the starting pressure and the bookkeeping one second further |
| Simulate.LatchFirstStop | src/simulate.rs:167-172 | the first stop is set once, from the first positive gf_low ceiling, and never changes afterwards |
| Simulate.SafetyCeiling | src/simulate.rs:240-247 | above 6 m the safety ceiling is the ceiling at 0.9 times the current gradient factor; from 6 m down it is the current ceiling |
| Simulate.OpenStopKeepsInv | src/simulate.rs:195-201 | opening a stop keeps the loop invariant |
| Simulate.ApproachStop | src/simulate.rs:212-236 | the rise towards a stop takes at most one second, lands no shallower than the stop, and updates the bank at the new depth; a diver already at or above the stop stays put (relation `OpenStep`) |
| Simulate.Rise | src/simulate.rs:249-295 | a free-ascent step reaches the surface and runs the surface minute exactly when the diver is within one second's rise of it; otherwise it rises one second and updates the bank there (relation `RiseStep`) |
| Simulate.Hold | src/simulate.rs:296-311 | holding one second keeps the depth, advances the time by one second and updates the bank at that depth's pressure (relation `HoldStep`) |
| Simulate.DecoStopIteration | src/simulate.rs:316-360 | one stop second at the stop depth: the bank advances one second there; the stop is left exactly when the new ceiling clears it by 0.5 m or 20 minutes are reached; a clear within the first minute carries its time over (relation `StopSecond`) |
| Simulate.StopTimers | src/simulate.rs:339-359 | the stop stays open exactly while it has not cleared and is under 20 minutes, its timer resets to 0 when it closes, and a clear within the first minute adds its time to the carried-over time |
| Simulate.OpenAndApproach | src/simulate.rs:193-236 | opening a stop leaves the diver at a stop, still below the surface, with the invariant kept; the depth, time and bank follow the approach relation from the opened stop |
| Simulate.FreeAscent | src/simulate.rs:237-311 | without a stop the diver rises exactly when the safety ceiling is 0 or shallower than the diver, and is done exactly on reaching the surface (relation `FreeStep`) |
| Simulate.AscentIteration | src/simulate.rs:164-360 | the ascent latches the first stop, opens a stop exactly when a positive ceiling is shallower than the diver, otherwise rises exactly when the safety ceiling allows it, and ends exactly at the surface; the whole step is the relation `AscentStep` |
| Simulate.AscentOpensStop | src/simulate.rs:193-236 | when a stop opens, its depth is the stop depth of the current ceiling, its timer starts from the carried-over short-stop time, that time resets to 0, and the diver ends between the stop and the old depth |
| Simulate.AscentFollowsSafetyCeiling | src/simulate.rs:237-311 | below the surface with no stop to open, the diver rises exactly when the safety ceiling is 0 or shallower than the diver, stays put otherwise, and no stop is open afterwards |
| Simulate.RunExtends | src/simulate.rs:59-371 | a run of loop iterations followed by one more iteration is a run from the same start |
| Simulate.IterationAppends | src/simulate.rs:59-371 | one loop iteration never changes the samples already recorded, and appends at most 60 |
| Simulate.RunAppendOnly | src/simulate.rs:380-384 | along a run the recorded series are append-only: every snapshot's series continues every earlier one's |
| Simulate.IterationKeepsPhysical | src/simulate.rs:59-371 | from a bank of non-negative loads, with the starting ambient pressure at least the water-vapour pressure, one iteration leaves every load non-negative: each update it makes is at 1 bar or deeper, or at the starting pressure |
| Simulate.SimulateWithAscent | src/simulate.rs:59-371 | the dive is a run of iterations from the initial state, the caller's bank and empty series, ending in the final state, the final bank and the returned series; each iteration pins the samples it records; every sample lies within the depth bound with its matching ambient pressure; physical loads stay physical; a capped run has exactly 50,000,000 snapshots, one per counted iteration; without the cap the dive ends at the surface, or at the target when the ascent is off |
| Simulate.Simulate | src/simulate.rs:46-57 | `simulate` is the simulation with the ascent on, and its samples lie within the depth bound with their matching ambient pressure |

## Left out

- Floating point: `f32` rounding, `libm` `logf`/`powf`/`round` precision and NaN on division by zero are not modelled. Results the tests compare bit for bit (tests/tissue.rs:84, tests/m_value.rs:8) are bounds only.
- `max_ceiling`, `max_ceiling_with_gf`, `binary_ceiling`, `binary_ndl` and `simulate_with_ascent_from_depth`: their code is not part of this model. The first two are function parameters with the shape their callers use.
- `src/zh16c.rs` is not part of this model: its constants are restated in `ZhL16c`.
- Type mismatches between the source files: `ceiling` returns `f32`, but `ndl` stores its result in a `u32`. `ceiling.rs` imports names the crate root does not define (`run_deco_loop`, `ZH_L16C_GF`). The model uses one consistent signature per function.
- All `println!` and `defmt` logging, the CSV-driven tests, and the non-recording `SimulationOutputs` variant, whose `record_output` does nothing.
- `Ndl.Ndl`: the source loops without bound, so the model takes a `fuel` argument. `None` reports that no ceiling appeared within `fuel` minutes. The result is a whole number of minutes rather than `f32`.
- `Ceiling.Ceiling`: requires non-negative loads with a positive total, and a non-negative gf_high. With a zero total the source divides by zero and yields NaN, which a real-valued model cannot represent.
- `Kinetics.CalculateTissue`: models the corrected helium update, not the one the source writes (see Findings). `Kinetics.CalculateTissueAsWritten` models the source as written.
- `Simulate.SimulateWithAscent` and `Simulate.Simulate`: require positive descent and ascent speeds and a non-negative target depth (`Simulate.ConfigOk`). `DiveParameters` has public fields, so a caller could pass other values, but no call site in the crate does. With a speed of 0 the source never moves the diver and runs until the 50,000,000-iteration cap. With a negative target the first descent step is negative, and the source panics at the assertion on the elapsed minutes in src/tissue.rs:54.
- `Simulate.Simulate`: states only the sample bounds and the physical-load invariant. The end-of-dive facts are in `Simulate.SimulateWithAscent`.
- `Ndl.Ndl`, `DecoLoop.RunNoDecoLoop`, `DecoLoop.CalculateDecoStops` and the simulator's phase methods: they use the corrected helium update (see Findings). On a bank without helium they agree with the source as written (`Kinetics.AsWrittenBankAgreesWithoutHelium`, `Kinetics.AsWrittenRepeatedAgreesWithoutHelium`). `Tissue::default()` holds 1 bar of helium, so on such a bank they differ from the source in the helium loads.

## Findings

| source | as written | input that shows it | evidently intended | confidence | as-written member | corrected member |
|---|---|---|---|---|---|---|
| src/tissue.rs:74 | `fhe = p0he + (pphe − p0he)·e^(−k·t)`: the old load and the inspired pressure trade places relative to the N2 line above it | `Tissue::default()` (1 bar He) in compartment 0 at 1 bar with 0 minutes elapsed: He becomes 0 instead of staying 1 | `fhe = pphe + (p0he − pphe)·e^(−k·t)`, mirroring N2, so that zero time changes nothing and the load moves towards the inspired pressure | not executed | Kinetics.CalculateTissueAsWritten (Kinetics.HeZeroTimeCounterexample) | Kinetics.CalculateTissue (Kinetics.AsWrittenAgreesAtHeliumEquilibrium) |

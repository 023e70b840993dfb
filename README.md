# PyTeCK ignition-delay simulation core, in Dafny

PyTeCK validates chemical-kinetic models against ignition-delay
experiments. For each experiment it does four things:

1. Set up a reactor case, with either a shock tube ("ST") or a rapid
   compression machine ("RCM").
2. Give the reactor a wall. The wall is fixed, or it moves with a velocity
   derived from a volume history. That history is either measured or
   synthesised from a linear pressure rise under isentropic compression.
3. Integrate the reactor up to one hundred ignition delays, recording a time
   series.
4. Read the simulated ignition delay off the peaks of a diagnostic signal.

This project models that logic and proves properties of it. All quantities
are exact reals.

| module (file) | models |
|---|---|
| `Outcomes` (outcomes.dfy) | `Option`, `Result` and `Outcome` wrappers used for error paths |
| `Differentiation` (differentiation.dfy) | `first_derivative`: the index-gradient of y divided by that of x. The as-written form uses x's first-order-ended gradient; the corrected form, used by the rest of the model, uses second-order ends for x as well (see Findings) |
| `Interpolation` (interpolation.dfy) | numpy's one-dimensional linear interpolation with left/right values |
| `Profiles` (profiles.dfy) | the pressure sampling and pressure law, `create_volume_history`, `VolumeProfile`, `PressureRiseProfile` |
| `Species` (species.dfy) | the species-target resolution of `setup_case`, as written and corrected |
| `Setup` (setup.dfy) | `Simulation` and `setup_case`: end time, wall decision table, largest step, target |
| `Recording` (recording.dfy) | the `run_case` recording loop, with interpolation back to the end time |
| `Analysis` (analysis.dfy) | `process_results`: diagnostic channel, peak search, dominant peak, delays |

Collaborators are handled as follows:

- **Gas model** (mechanism, equation of state). It is seen through three
  things: its species list, its initial density, and its density at the
  initial entropy as a function of pressure (`Setup.Gas`).
- **Reactor network.** It is seen as its initial state plus the finite
  sequence of states its steps reach.
- **Peak detector.** It is a function parameter. It is required to return
  increasing in-range indices (`Analysis.PeakDetector`).
- **Units.** All quantities are already in SI units.

## Model

| member | source | states |
|---|---|---|
| Differentiation.FirstDerivative | PyTeCK/simulation.py:32-45 | The corrected derivative, used by the profiles and the analysis. It exists exactly when there are at least three samples of each variable with nonzero index-gradients of x; otherwise the result says which condition failed. Each entry times x's second-order index-gradient equals y's index-gradient. |
| Differentiation.DerivativeOfLine | PyTeCK/simulation.py:32-36 | For the corrected derivative, data on a straight line y = m x + c has derivative exactly m at every sample, boundaries included, as the docstring promises. As written this holds at the ends only when the end gaps of x are equal (see Findings). |
| Differentiation.GradientOfLine | PyTeCK/simulation.py:45 | The index-gradient of a line is its slope times the index-gradient of x, at interior and edge points. |
| Differentiation.GradientExactOnQuadratic | PyTeCK/simulation.py:45 | The second-order stencils, one-sided at the ends, are exact on a quadratic in the index: the gradient at i is 2 a i + b. |
| Differentiation.FirstDerivativeAsWritten | PyTeCK/simulation.py:45 | The derivative as line 45 computes it. It exists under the same conditions, read with x's default gradient. Each entry times x's first-order-ended gradient equals y's second-order index-gradient. |
| Differentiation.AsWrittenAgreesOnEvenEnds | PyTeCK/simulation.py:45 | When the first two and the last two gaps of x are equal (uniform sampling among others), x's two gradients coincide and the as-written derivative equals the corrected one. |
| Differentiation.LineEndsSkewedAsWritten | PyTeCK/simulation.py:45 | On x = y = [0, 1, 3], the as-written derivative is [0.5, 1, 1.25]; the corrected one is 1 throughout. |
| Interpolation.Interp | PyTeCK/simulation.py:135 | The left value is returned below the first sample and the right value above the last. |
| Interpolation.InterpAtSample | PyTeCK/simulation.py:135 | Interpolation at a sample time returns that sample's value. |
| Interpolation.InterpOnSegment | PyTeCK/simulation.py:135 | Between two consecutive samples, interpolation is the straight line through them. |
| Interpolation.LerpEndpoints | PyTeCK/simulation.py:135 | The straight line through two points passes through both. |
| Interpolation.LerpBetween | PyTeCK/simulation.py:135 | Within a segment, the interpolated value lies between the two sample values. |
| Interpolation.InterpPair | PyTeCK/simulation.py:374-395 | Two-point interpolation strictly inside the segment is the straight line through the two points. |
| Profiles.SampleCount | PyTeCK/simulation.py:58 | The count is the least n with n/freq at or above timeEnd + 1/freq, i.e. np.arange's length in exact arithmetic. |
| Profiles.SampleTimes | PyTeCK/simulation.py:58 | Sample k is at k/freq. The times strictly increase from 0. The last one lies in [timeEnd, timeEnd + 1/freq). |
| Profiles.RisingPressures | PyTeCK/simulation.py:59 | There is one pressure per time, P0 (A t + 1). |
| Profiles.PressureLaw | PyTeCK/simulation.py:59 | The law starts at P0 at time 0. Two samples differ by A P0 times their time gap. |
| Profiles.CreateVolumeHistory | PyTeCK/simulation.py:63-90 | The times are the 20 kHz samples. Each volume times the isentropic density at its sampled pressure equals the initial density. A zero density anywhere gives an error, and only then. |
| Profiles.IsentropicRatios | PyTeCK/simulation.py:85-88 | The loop yields one ratio per pressure, or nothing exactly when some density is zero. |
| Profiles.VolumeRatiosStartAtOne | PyTeCK/simulation.py:76-88 | When the first sample is the initial state, the first volume ratio is 1. |
| Profiles.Normalize | PyTeCK/simulation.py:121-123 | Volumes are divided by the first volume, which gives 1 at the start. An empty history or a zero first volume is an error. |
| Profiles.NormalizeIgnoresUnits | PyTeCK/simulation.py:121-123 | Normalised volumes do not depend on the unit the volumes were given in. |
| Profiles.FromVolumeHistory | PyTeCK/simulation.py:105-126 | The profile exists exactly when normalisation and differentiation both succeed. It keeps the times, and its velocity is the derivative of the normalised volumes against the times. |
| Profiles.ConstantSpeedHistory | PyTeCK/simulation.py:105-126 | With the corrected derivative, a volume history that is linear in time gives a constant velocity of speed divided by the first volume, end samples included. |
| Profiles.VelocityProfile.Velocity | PyTeCK/simulation.py:128-135 | The wall velocity is 0 before the first and after the last sample time. |
| Profiles.VelocityAtSample | PyTeCK/simulation.py:128-135 | At a sample time the wall velocity is that sample's velocity. |
| Profiles.VelocityBetweenSamples | PyTeCK/simulation.py:128-135 | Between samples, the wall velocity is the straight line between them and lies between their velocities. |
| Profiles.FromPressureRise | PyTeCK/simulation.py:179-185 | The profile exists exactly when the unnormalised volumes can be differentiated. It keeps the times, and its velocity is the derivative of the volumes against them. |
| Profiles.UniformGradient | PyTeCK/simulation.py:58 | Times spaced 1/freq apart have index-gradient 1/freq at every sample, both edges included. |
| Profiles.PressureRiseVelocity | PyTeCK/simulation.py:179-185 | Over the 20 kHz samples, with at least three of them, the pressure-rise profile exists. Its velocity at each sample is the sampling frequency times the second-order difference of the volumes. |
| Species.Lower | PyTeCK/simulation.py:304 | Lower-casing keeps the length and lower-cases each character. |
| Species.IndexOf | PyTeCK/simulation.py:313 | The lookup finds the first position of a known name, and nothing for an unknown one. |
| Species.Candidates | PyTeCK/simulation.py:304-308 | The names tried are the name and its lower case. For a name ending in '*', they are followed by the base name and its lower case. |
| Species.FirstFound | PyTeCK/simulation.py:310-316 | The result is nothing exactly when no candidate is known; otherwise it is the index of a known candidate. |
| Species.FirstFoundIsEarliest | PyTeCK/simulation.py:311-314 | The earliest known candidate decides the index. |
| Species.FindSpecies | PyTeCK/simulation.py:310-316 | The loop that tries the candidates in order and stops at the first hit computes FirstFound. |
| Species.ResolveTarget | PyTeCK/simulation.py:299-325 | Pressure and temperature pass through. A species found at any index, 0 included, becomes that index. An unknown one falls back to pressure with 'd/dt max'. An empty name is an error, and only it. |
| Species.LookUpTarget | PyTeCK/simulation.py:299-325 | The imperative lookup computes ResolveTarget. |
| Species.ExactNameWins | PyTeCK/simulation.py:304-319 | A name the mechanism knows verbatim resolves to its own first index. |
| Species.LowerCaseSecond | PyTeCK/simulation.py:304-319 | Failing the exact name, the lower-cased name is used. |
| Species.ExcitedStateFallsBack | PyTeCK/simulation.py:306-319 | An unknown excited-state name falls back to its base name, then to the lower-cased base name. |
| Species.UnknownNameFallsBack | PyTeCK/simulation.py:310-325 | When the mechanism knows none of the candidate names (all four for an excited-state name), the target falls back to pressure with 'd/dt max'. |
| Species.ResolveTargetAsWritten | PyTeCK/simulation.py:318-325 | As written, a species first found at index 0 falls back to pressure. In every other case the result agrees with ResolveTarget. |
| Species.FirstSpeciesDroppedAsWritten | PyTeCK/simulation.py:318 | With species ["OH", "H2"], target "OH" falls back to pressure as written, but resolves to index 0 when corrected. |
| Setup.ChooseWall | PyTeCK/simulation.py:249-283 | The wall decision table, in both directions: ST without a pressure rise or RCM without a volume gives a fixed wall. ST with a rise gives the pressure-rise profile. RCM with a volume gives the volume profile. Other kinds get no wall. |
| Setup.MinGap | PyTeCK/simulation.py:293-296 | The largest step is at most every gap between consecutive times and equals one of them. |
| Setup.MinGapPositive | PyTeCK/simulation.py:293-296 | Over strictly increasing times, the largest step is positive. |
| Setup.ConfigureWall | PyTeCK/simulation.py:249-283 | The wall is built exactly when it is buildable. A fixed wall or none always is. A pressure-rise profile needs at least three samples and a nonzero isentropic density at every sampled pressure. A volume profile needs the time column and a history that normalises and differentiates. The wall built is the one the table asks for, made from the case's data. A volume history without times fails with its own error. |
| Setup.Simulation.constructor | PyTeCK/simulation.py:191-210 | Stores the kind, the properties, the target and the ignition type. |
| Setup.Simulation.SetupCase | PyTeCK/simulation.py:212-325 | Set-up succeeds exactly when the wall is buildable, a time column has at least two times and the target name is not empty. Then the end time is 100 ignition delays and the wall fits the table. The largest step is the minimum time gap when times are present. Target and type are resolved by the corrected ResolveTarget: a species at mechanism index 0 becomes Index(0), where line 318 as written falls back to pressure (see Findings). A failure leaves the object unchanged. |
| Recording.FirstReaching | PyTeCK/simulation.py:368-369 | Finds the first step at or past the end time, with every earlier step before it. |
| Recording.FirstReachingAt | PyTeCK/simulation.py:368-369 | A step at or past the end time whose predecessors all fall short is the first one reaching it. |
| Recording.Recorded | PyTeCK/simulation.py:356-413 | The specified series: just the initial state when it is already at or past the end time. It fails with StepperExhausted exactly when every step falls short of the end time. Otherwise it opens with the initial state and ends exactly on the end time, and every row has one mass fraction per species. |
| Recording.InterpolateTo | PyTeCK/simulation.py:372-396 | The interpolated row has exactly the end time and one mass fraction per species. |
| Recording.RunCase | PyTeCK/simulation.py:356-413 | The recording loop produces the series Recorded specifies, or the same error. |
| Recording.RecordedVerbatim | PyTeCK/simulation.py:357-406 | The series opens with the initial state. Each step ending at or before the end time is recorded as it is. |
| Recording.RecordedTimes | PyTeCK/simulation.py:356-413 | With a forward-moving stepper, the recorded times strictly increase and never pass the end time. The last one is the end time itself. |
| Recording.StepsIncrease | PyTeCK/simulation.py:368-369 | Times along a forward-moving stepper increase from the initial state. |
| Recording.BetweenOnChord | PyTeCK/simulation.py:374-395 | A value interpolated back to the end time lies on the chord between the two states and between their values. |
| Recording.OvershootRow | PyTeCK/simulation.py:372-396 | When the first step to reach the end time overshoots it, the last row has the end time. Every channel and mass fraction lies on the chord between the previous and overshooting steps. When that step is the first step, the run fails. |
| Recording.Times | PyTeCK/simulation.py:429 | The time column has the time of each row. |
| Analysis.Column | PyTeCK/simulation.py:429-435 | Selects the pressure, temperature or mass-fraction column by target. A name other than pressure or temperature (an unresolved species) is an error, as is a species index out of range. |
| Analysis.DetectionSignal | PyTeCK/simulation.py:437-448 | 'd/dt max' uses the derivative. 'max' uses the channel, falling back to the derivative when no peak is found. Other types use the channel. The peaks are the detector's on the chosen signal. |
| Analysis.ArgMax | PyTeCK/simulation.py:451 | Picks the first position whose signal value is the largest among the peaks. |
| Analysis.AtMost | PyTeCK/simulation.py:461 | Keeps peaks at or before the dominant index, taken from the list. |
| Analysis.AtMostIsPrefix | PyTeCK/simulation.py:461 | Over increasing peaks, the kept peaks are a prefix of the list. |
| Analysis.PositivePositions | PyTeCK/simulation.py:461-462 | np.where yields no more positions than its input has, each a valid position. |
| Analysis.PositivePositionsSound | PyTeCK/simulation.py:461-462 | Every position np.where picks has a positive delay. |
| Analysis.PositivePositionsComplete | PyTeCK/simulation.py:461-462 | Every position with a positive delay is picked. |
| Analysis.PositivePositionsIncrease | PyTeCK/simulation.py:461-462 | The picked positions come in increasing order. |
| Analysis.Gather | PyTeCK/simulation.py:461-463 | Each gathered delay is the time of the peak at that position of the unfiltered list, minus the compression time. |
| Analysis.CandidatesAsWritten | PyTeCK/simulation.py:461-463 | The source's candidate list is no longer than the filtered peaks, which are no more than all peaks. |
| Analysis.GatherOnPrefix | PyTeCK/simulation.py:461-463 | Positions found in a prefix pick out the same peaks from the whole list. |
| Analysis.FiltersCompose | PyTeCK/simulation.py:461-463 | Filtering on the dominant index and then on a positive delay is filtering on both. |
| Analysis.CandidatesAsWrittenAgree | PyTeCK/simulation.py:461-463 | The source indexes the unfiltered peak list with positions taken in the filtered one. On increasing peaks this gives exactly the intended candidate delays. |
| Analysis.Candidates | PyTeCK/simulation.py:461-463 | Candidate delays are positive and no more numerous than the peaks. |
| Analysis.SelectDelays | PyTeCK/simulation.py:464-474 | The overall delay is the last candidate, or 0 when there is none. A first-stage delay is reported exactly when there are two or more candidates, and it is the first one. |
| Analysis.DelaysFromPeaks | PyTeCK/simulation.py:450-474 | An empty peak list is an error, and only it. The result is SelectDelays of the intended candidates up to the dominant peak, although the body computes the source's mixed indexing. The overall delay is non-negative. A reported first-stage delay is positive, as is the overall delay then. |
| Analysis.LastCandidateIsOwn | PyTeCK/simulation.py:461-466 | A peak with a positive delay gives the last candidate delay among the peaks up to it. |
| Analysis.DominantPeakGivesOverall | PyTeCK/simulation.py:450-466 | When the dominant peak's delay is positive, the overall delay is that delay. |
| Analysis.CandidatesIgnoreLater | PyTeCK/simulation.py:461 | Peaks after the dominant one add no candidate. |
| Analysis.CandidatesBounded | PyTeCK/simulation.py:461-463 | Candidate delays never exceed a bound on the peaks' delays. |
| Analysis.CandidatesIncrease | PyTeCK/simulation.py:461-463 | Over strictly increasing times, candidate delays strictly increase. |
| Analysis.ProcessResults | PyTeCK/simulation.py:420-474 | Succeeds exactly when the target names a column, the detection signal can be formed and it has a peak. The result is then DelaysFromPeaks on that signal's peaks, with the series' time column and the compression time (0 when absent). The overall delay is non-negative, and a reported first-stage delay is positive. |
| Analysis.FirstStageBeforeOverallFromPeaks | PyTeCK/simulation.py:464-474 | From increasing times and valid peaks, a first-stage delay comes strictly before the overall delay. |
| Analysis.FirstStageBeforeOverall | PyTeCK/simulation.py:420-474 | Over a series with strictly increasing times, a reported first-stage delay is strictly less than the overall delay. |

## Left out

- The gas model, the reactor network integrator, HDF5 storage, unit conversion and `detect_peaks` are external libraries. They become parameters (`Setup.Gas`, the stepper's state sequence, the `detect` function) or are assumed already done (SI units).
- The reactant composition string and `gas.TPX` (simulation.py:233-242) are left out. The initial state reaches the model only through the gas's density and isentropic-density function.
- `n_vars` and the network object (simulation.py:285-290) are left out: they are bookkeeping only.
- Floating point is left out. Times from `np.arange` are exact k/freq, so float rounding that adds or drops a sample at the end is not modelled. `Profiles.SampleCount` counts exactly.
- Division by zero becomes a `Result` error. Differentiation and normalisation divide numpy arrays, where a zero gradient or zero first volume yields inf or NaN rather than an error (`Undefined`, `ZeroInitialVolume`). At simulation.py:88 `initial_density / gas.density` divides two Python floats, so a zero density raises ZeroDivisionError (`ZeroDensity`).
- Differentiation.FirstDerivative: the array spacing is read as an elementwise divisor, as numpy releases before 1.13 do: y's second-order index-gradient is divided by x's gradient. Later releases read an array argument as coordinates, which is not modelled. The corrected definition takes x's gradient with second-order ends, where line 45 as written has numpy's default first-order ends (`FirstDerivativeAsWritten`). The two differ at the ends whenever the first two or the last two gaps of x differ. That happens for measured volume histories and recorded integrator times; the 20 kHz pressure-rise samples are unaffected (`AsWrittenAgreesOnEvenEnds`). Two samples are a `ShortSignal` error here; in those numpy releases they take a first-order branch instead.
- Differentiation.DerivativeOfLine: exactness at the end samples holds for the corrected derivative. As written it holds at the ends only when the end gaps of x are equal.
- Profiles.ConstantSpeedHistory: the constant speed at the two end samples is a property of the corrected derivative. As written it holds there only for evenly spaced end times.
- Species.Lower: only ASCII letters are lower-cased. Full Unicode case mapping is not modelled.
- Recording.RunCase: the integrator is a finite sequence of reached states. An integrator failure is modelled as running out of states (`StepperExhausted`). The source's undefined previous state on a first overshooting step is `UnboundPrevious`.
- Analysis.ProcessResults: the NaN first-stage delay is `None`. An empty peak list after the fallback is the `NoPeaks` error, as numpy's argmax of an empty array raises. This follows the code, not a zero sentinel.
- Analysis.ProcessResults: a target naming neither a channel nor a resolved species is the `BadTarget` error. In the source this is an index error.
- Setup.Simulation.SetupCase: requires an unresolved (named) target, as the source's string comparisons do. Calling it twice on a resolved index is not modelled. The source converts unit-bearing properties in place; here they are given in SI units and not changed.
- Setup.Simulation.SetupCase: on a failure the model leaves the object unchanged. The source raises part-way, after some fields are set.
- Monotonicity of time columns is never checked by the source. Lemmas that need it take it as a hypothesis (`StrictlyIncreasing`).
- Interpolation.Interp and Profiles.VelocityProfile.Velocity require strictly increasing sample times. np.interp also accepts other abscissae and returns unspecified values for them, so the wall-velocity query is not modelled over a non-increasing volume history.
- Printing, file paths and the case identifier are left out.

## Findings

| source | as written | input that shows it | evidently intended | confidence | as-written member | corrected member |
|---|---|---|---|---|---|---|
| PyTeCK/simulation.py:45 | the inner `np.gradient(x)` uses numpy's default first-order ends, so the derivative's end values are only first-order accurate, against the docstring's second-order one-sided differences at the boundaries | x = y = [0, 1, 3]: the derivative of y = x comes out as [0.5, 1, 1.25] | take x's gradient with `edge_order=2` too, giving 1 at every sample of a line | not executed | Differentiation.LineEndsSkewedAsWritten | Differentiation.DerivativeOfLine |
| PyTeCK/simulation.py:318 | `if ind:` tests the found species index for truth, so index 0 counts as not found | mechanism species ["OH", "H2"], target "OH": falls back to pressure with 'd/dt max' | any found index, 0 included, becomes the target (`ind is not None`) | not executed | Species.FirstSpeciesDroppedAsWritten | Species.ResolveTarget |

# Completion-time projection under a sequential bottleneck

A Dafny model of the computational core of `ahmdal.py`. This is a teaching
script about Amdahl's law. A baseline team of 20 workers takes 36 months, so
the project is 720 worker-months of work. For each of four sequential
fractions (0.1, 0.3, 0.5, 0.9) and each team size 5, 10, …, 100, the script
projects the completion time:

- sequential time = f · W / baseline_workers
- parallel time = W · (1 − f) / workers
- total time = sequential time + parallel time

It collects one curve per fraction, draws a dashed reference line at the
baseline duration, and prints two hand-worked "key takeaway" figures for 100
workers.

The sequential term is divided by the *baseline* team size, not by the team
size being swept. This is the script's own formula, not the textbook form of
Amdahl's law, and the model keeps it unchanged. Arithmetic is over `real`,
so the algebraic identities hold exactly.

Modules:

- `Projection` (`projection.dfy`) holds the formula and its algebra. A zero
  baseline team gives `Err(DivisionByZero)`, where Python raises
  `ZeroDivisionError` (the baseline is a plain integer). A zero swept team
  size gives the same error. The script never sweeps size zero; see
  "## Left out" for what numpy would do.
- `Sweep` (`sweep.dfy`) holds the team-size range and the curve-building
  loops. It also holds the reference line and facts about whole curves.
- `Takeaways` (`run.dfy`) holds the two printed figures, the 90% one both as
  written and corrected.
- `Run` (`run.dfy`) holds the script's constants and its whole run.

The script does not check that a fraction lies in [0,1], so the model does
not either. Such a fraction still yields a time. The properties that need
f in [0,1] take it as a hypothesis.

## Model

| member | source | states |
|---|---|---|
| Projection.TotalWork | ahmdal.py:6-8 | the total work divided by the baseline team gives back the baseline duration; it is positive for a positive team and duration |
| Projection.SequentialTime | ahmdal.py:35 | the sequential time, run at the baseline team's rate, accounts for exactly the sequential share f·W of the work; it takes no team-size argument |
| Projection.ParallelTime | ahmdal.py:38-39 | the parallel time, run by `workers`, accounts for exactly the parallel share W·(1−f) |
| Projection.TotalTime | ahmdal.py:35-42 | work balance: time × baseline_workers × workers = W·(f·workers + (1−f)·baseline_workers) |
| Projection.ProjectTime | ahmdal.py:35-42 | the evaluation fails exactly when the baseline team or the swept team is zero; otherwise it yields the projected time, whatever the fraction |
| Projection.PurelyParallel | ahmdal.py:35-42 | at f = 0 the time is W / workers |
| Projection.NoSequentialFloor | ahmdal.py:35-42 | at f = 0, for every positive bound there is a team size whose time is below it |
| Projection.FullySequential | ahmdal.py:35-42 | at f = 1 the time is W / baseline_workers for every non-zero team size |
| Projection.BaselineIdentity | ahmdal.py:35-42 | with W = baseline_workers · baseline_time, at workers = baseline_workers the time is baseline_time for every fraction, so every curve meets the reference line there |
| Projection.NonIncreasingInWorkers | ahmdal.py:38-42 | for f in [0,1] and W ≥ 0, a larger team never takes longer |
| Projection.StrictlyDecreasingIff | ahmdal.py:38-42 | for W > 0 and f in [0,1], a strictly larger team takes strictly less time if and only if f < 1 |
| Projection.DiminishingReturns | ahmdal.py:38-42 | for W ≥ 0 and f ≤ 1 the time is convex in the team size: over team sizes w1 < w2 < w3, the time saved per added worker from w2 to w3 is at most that from w1 to w2 |
| Projection.EvenStepsDiminish | ahmdal.py:38-42 | for W ≥ 0 and f ≤ 1, over the team sizes w, w + step and w + 2·step, the second step of workers saves no more time than the first |
| Projection.SequentialFloor | ahmdal.py:35-42 | the total time is at least the sequential time, and it is positive for positive work, a positive baseline team and f in [0,1] |
| Projection.NoWorseThanBaseline | ahmdal.py:35-42 | from the baseline team size upward the time is at most W / baseline_workers |
| Sweep.Arange | ahmdal.py:24 | the range holds start + i·step at index i, every element lies in [start, stop), and no further step stays below stop |
| Sweep.TeamSizes | ahmdal.py:24 | the sweep has 20 sizes, size i is 5·(i+1), and all sizes are positive |
| Sweep.CompletionTimes | ahmdal.py:31-43 | a curve fails exactly when the sweep is non-empty and the baseline team or some swept size is zero; otherwise it has one entry per team size, and entry i is the time for size i |
| Sweep.ScenarioCurves | ahmdal.py:30-43 | one curve per scenario, in scenario order, each as `CompletionTimes` states; the run fails exactly when there is a scenario and its sweep fails |
| Sweep.ReferenceLine | ahmdal.py:51 | the reference line has one point per team size, each the baseline duration |
| Sweep.CurveNonIncreasing | ahmdal.py:33-43 | along increasing positive team sizes, a curve of f in [0,1] never rises |
| Sweep.CurveStrictlyDecreasingIff | ahmdal.py:33-43 | along at least two increasing positive team sizes, a curve falls strictly if and only if f < 1 |
| Sweep.CurveDiminishingReturns | ahmdal.py:33-43 | along evenly spaced positive team sizes, each step of a curve with W ≥ 0 and f ≤ 1 saves no more time than the step before it |
| Takeaways.TenPercentTakeaway | ahmdal.py:91 | the printed 10% figure equals the curve value at f = 0.1 and 100 workers |
| Takeaways.NinetyPercentTakeawayAsWritten | ahmdal.py:93 | the printed 90% figure is the curve value at f = 0.9 and 100 workers plus W/1000, so it is off the curve whenever W ≠ 0 |
| Takeaways.NinetyPercentTakeaway | ahmdal.py:93 | the corrected 90% figure, with parallel share 0.1, equals the curve value at f = 0.9 and 100 workers |
| Takeaways.TakeawayValues | ahmdal.py:91-93 | for W = 720 and a baseline of 20: 10.08 at 10%; at 90%, 33.84 as printed and 33.12 on the curve |
| Run.ProjectRun | ahmdal.py:6-93 | the run gives four curves of 20 points each, and each is the projection of its fraction for 720 worker-months and a baseline of 20. The reference line is 36 at every size. Every curve meets the line at 20 workers, lies above it before that, stays on or under it after, falls strictly, and saves no more per step of 5 workers than the step before. The 10% takeaway is 10.08, the 100-worker point of the first curve. The 90% takeaway, as printed, is 33.84: 0.72 above the last curve's 100-worker point |
| Run.RunCurve | ahmdal.py:30-51 | a curve of the run with f in [0,1) is 36 at 20 workers, above 36 before, at most 36 after, strictly falling, and convex along the sweep |

## Left out

- Plotting (figure set-up, styles, lines, legend, annotations, axis limits, showing the window), ahmdal.py:27-28 and 46-86, 96: display side effects with nothing to state.
- Console output and the `.1f` rounding, ahmdal.py:10-13 and 89-94: I/O and float formatting. The takeaway figures are modelled as numbers, without rounding.
- Scenario labels and colours, ahmdal.py:16-21: only the fractions enter the computation.
- IEEE floating-point rounding: the model computes over exact reals. The script's float results can differ in the last bits. For example, 0.1 is not exact in binary.
- `numpy.arange` is modelled by `Sweep.Arange` for a positive integer step only, which is the one case the script uses.
- Projection.ProjectTime: a zero swept team size is modelled as `Err(DivisionByZero)`. In the script that divisor is a numpy `int64` from `np.arange`, so the division by zero would give a non-finite float with a runtime warning and no exception: ±inf, by the sign of W·(1−f), when W·(1−f) ≠ 0, and nan when W·(1−f) = 0 (which includes f = 1 and W = 0). `real` has no inf or nan, and the script's sweep (5..100) never contains zero.
- Sweep.CompletionTimes: for the same reason, a zero team size aborts the modelled sweep, where numpy would store inf or nan and continue.
- Sweep.ScenarioCurves: inherits that abort on a zero team size, where numpy would continue.
- Range checks on the fraction: the script validates nothing, so none are added. A fraction outside [0,1] yields a number, as it does in the script.

## Findings

| source | as written | input that shows it | evidently intended | confidence | as-written member | corrected member |
|---|---|---|---|---|---|---|
| ahmdal.py:93 | the 90% takeaway uses `0.2 * total_work / 100` as the parallel term | W = 720, baseline 20, 100 workers: printed 33.84 (33.8 after rounding), curve value 32.4 + 0.72 = 33.12 (33.1) | parallel share 1 − 0.9 = 0.1, giving the curve value | high (not executed) | Takeaways.NinetyPercentTakeawayAsWritten | Takeaways.NinetyPercentTakeaway |

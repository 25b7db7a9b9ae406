/**
 The parameter sweep: the team sizes tried, the completion-time curve of one
 sequential fraction over those sizes, the curves of every scenario, and the
 dashed reference line of the baseline duration.
 */
module Sweep {
  import opened Projection

  /** The integers `start, start + step, ...` strictly below `stop`, as a
      half-open range with a positive step produces them. */
  function Arange(start: int, stop: int, step: int): (s: seq<int>)
    requires step > 0
    ensures forall i :: 0 <= i < |s| ==> s[i] == start + i * step
    ensures forall i :: 0 <= i < |s| ==> start <= s[i] < stop
    ensures start + |s| * step >= stop
    decreases stop - start
  {
    if start >= stop then []
    else
      var rest := Arange(start + step, stop, step);
      var s := [start] + rest;
      assert forall i :: 1 <= i < |s| ==> s[i] == start + step + (i - 1) * step;
      assert start + step + |rest| * step == start + |s| * step;
      s
  }

  /** The team sizes of the chart: 5, 10, ..., 100 workers. */
  function TeamSizes(): (s: seq<int>)
    ensures |s| == 20
    ensures forall i :: 0 <= i < |s| ==> s[i] == 5 * (i + 1)
    ensures forall i :: 0 <= i < |s| ==> s[i] > 0
  {
    var s := Arange(5, 101, 5);
    assert |s| > 0;
    assert s[|s| - 1] == 5 + (|s| - 1) * 5 < 101;
    s
  }

  /** `times` is the curve of fraction `f`: one time per team size, in the
      same order, each the projected time for that size. */
  ghost predicate IsCurve(times: seq<real>, totalWork: real, baselineWorkers: int, f: real, sizes: seq<int>)
  {
    && |times| == |sizes|
    && baselineWorkers != 0
    && (forall i :: 0 <= i < |sizes| ==> sizes[i] != 0)
    && forall i :: 0 <= i < |sizes| ==> times[i] == TotalTime(totalWork, baselineWorkers, f, sizes[i])
  }

  /** Whether the sweep of one fraction over `sizes` meets a zero divisor.
      No division happens for an empty sweep, so that one never fails. */
  predicate SweepFails(baselineWorkers: int, sizes: seq<int>)
  {
    |sizes| > 0 && (baselineWorkers == 0 || 0 in sizes)
  }

  /** The completion times of fraction `f`, one per team size, collected
      in sweep order; a zero divisor aborts the whole sweep (a zero
      team size is treated like a zero baseline, see `ProjectTime`). */
  method CompletionTimes(totalWork: real, baselineWorkers: int, f: real, sizes: seq<int>)
    returns (r: Result<seq<real>>)
    ensures r.Err? <==> SweepFails(baselineWorkers, sizes)
    ensures r.Ok? ==> |sizes| == 0 || IsCurve(r.value, totalWork, baselineWorkers, f, sizes)
    ensures r.Ok? ==> |r.value| == |sizes|
  {
    var times: seq<real> := [];
    var i := 0;
    while i < |sizes|
      invariant 0 <= i <= |sizes|
      invariant |times| == i
      invariant i > 0 ==> baselineWorkers != 0
      invariant 0 !in sizes[..i]
      invariant forall k :: 0 <= k < i ==>
                  sizes[k] != 0 && baselineWorkers != 0
                  && times[k] == TotalTime(totalWork, baselineWorkers, f, sizes[k])
    {
      var t := ProjectTime(totalWork, baselineWorkers, f, sizes[i]);
      if t.Err? {
        assert baselineWorkers == 0 || sizes[i] == 0;
        return Err(t.error);
      }
      times := times + [t.value];
      assert sizes[..i + 1] == sizes[..i] + [sizes[i]];
      i := i + 1;
    }
    assert sizes[..i] == sizes;
    return Ok(times);
  }

  /** The curves of all scenarios, in scenario order. A failing sweep
      aborts the run at the first scenario, since every scenario sweeps
      the same sizes. */
  method ScenarioCurves(totalWork: real, baselineWorkers: int, fractions: seq<real>, sizes: seq<int>)
    returns (r: Result<seq<seq<real>>>)
    ensures r.Err? <==> |fractions| > 0 && SweepFails(baselineWorkers, sizes)
    ensures r.Ok? ==> |r.value| == |fractions|
    ensures r.Ok? ==> forall k :: 0 <= k < |fractions| ==> |r.value[k]| == |sizes|
    ensures r.Ok? && |sizes| > 0 ==>
              forall k :: 0 <= k < |fractions| ==>
                IsCurve(r.value[k], totalWork, baselineWorkers, fractions[k], sizes)
  {
    var curves: seq<seq<real>> := [];
    var k := 0;
    while k < |fractions|
      invariant 0 <= k <= |fractions|
      invariant |curves| == k
      invariant k > 0 ==> !SweepFails(baselineWorkers, sizes)
      invariant forall j :: 0 <= j < k ==> |curves[j]| == |sizes|
      invariant |sizes| > 0 ==>
                  forall j :: 0 <= j < k ==> IsCurve(curves[j], totalWork, baselineWorkers, fractions[j], sizes)
    {
      var c := CompletionTimes(totalWork, baselineWorkers, fractions[k], sizes);
      if c.Err? {
        return Err(c.error);
      }
      curves := curves + [c.value];
      k := k + 1;
    }
    return Ok(curves);
  }

  /** The dashed reference line: the baseline duration at every team size. */
  function ReferenceLine(baselineTime: int, n: nat): (line: seq<real>)
    ensures |line| == n
    ensures forall i :: 0 <= i < n ==> line[i] == baselineTime as real
  {
    seq(n, _ => baselineTime as real)
  }

  /** Along sizes that grow, a curve of a fraction in [0,1] never rises. */
  lemma CurveNonIncreasing(times: seq<real>, totalWork: real, baselineWorkers: int,
                             f: real, sizes: seq<int>)
    requires IsCurve(times, totalWork, baselineWorkers, f, sizes)
    requires totalWork >= 0.0 && 0.0 <= f <= 1.0
    requires forall i :: 0 <= i < |sizes| ==> sizes[i] > 0
    requires forall i, j :: 0 <= i < j < |sizes| ==> sizes[i] < sizes[j]
    ensures forall i, j :: 0 <= i <= j < |times| ==> times[j] <= times[i]
  {
    forall i, j | 0 <= i <= j < |times|
      ensures times[j] <= times[i]
    {
      if i < j {
        NonIncreasingInWorkers(totalWork, baselineWorkers, f, sizes[i], sizes[j]);
      }
    }
  }

  /** Along sizes that grow, a curve with some parallel work falls strictly,
      and a fully sequential curve is flat. */
  lemma CurveStrictlyDecreasingIff(times: seq<real>, totalWork: real, baselineWorkers: int,
                                     f: real, sizes: seq<int>)
    requires IsCurve(times, totalWork, baselineWorkers, f, sizes)
    requires totalWork > 0.0 && 0.0 <= f <= 1.0 && |sizes| >= 2
    requires forall i :: 0 <= i < |sizes| ==> sizes[i] > 0
    requires forall i, j :: 0 <= i < j < |sizes| ==> sizes[i] < sizes[j]
    ensures (forall i, j :: 0 <= i < j < |times| ==> times[j] < times[i]) <==> f < 1.0
  {
    if f < 1.0 {
      forall i, j | 0 <= i < j < |times|
        ensures times[j] < times[i]
      {
        StrictlyDecreasingIff(totalWork, baselineWorkers, f, sizes[i], sizes[j]);
      }
    } else {
      StrictlyDecreasingIff(totalWork, baselineWorkers, f, sizes[0], sizes[1]);
      assert !(times[1] < times[0]);
    }
  }

  /** Along evenly spaced team sizes, each step saves no more time than
      the step before it. */
  lemma CurveDiminishingReturns(times: seq<real>, totalWork: real, baselineWorkers: int,
                                f: real, sizes: seq<int>, step: int)
    requires IsCurve(times, totalWork, baselineWorkers, f, sizes)
    requires totalWork >= 0.0 && f <= 1.0 && step > 0
    requires forall i :: 0 <= i < |sizes| ==> sizes[i] > 0
    requires forall i :: 0 <= i < |sizes| - 1 ==> sizes[i + 1] == sizes[i] + step
    ensures forall i :: 0 <= i < |times| - 2 ==> times[i] - times[i + 1] >= times[i + 1] - times[i + 2]
  {
    forall i | 0 <= i < |times| - 2
      ensures times[i] - times[i + 1] >= times[i + 1] - times[i + 2]
    {
      EvenStepsDiminish(totalWork, baselineWorkers, f, sizes[i], step);
    }
  }
}

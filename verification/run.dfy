/**
 The two "key takeaway" figures printed for a 100-worker team. Each is the
 formula worked out by hand. The 90% line uses 0.2 as the parallel share,
 where the formula gives 1 - 0.9 = 0.1. Both that line as written and its
 corrected form are modelled here.
 */
module Takeaways {
  import opened Projection

  /** The hand-worked figure for 10% sequential work and 100 workers. */
  function TenPercentTakeaway(totalWork: real, baselineWorkers: int): (t: real)
    requires baselineWorkers != 0
    ensures t == TotalTime(totalWork, baselineWorkers, 0.1, 100)
  {
    0.1 * totalWork / (baselineWorkers as real) + 0.9 * totalWork / 100.0
  }

  /** The hand-worked figure for 90% sequential work, as the program
      prints it: it is off the curve by a tenth of the work over 100
      workers, whenever there is any work at all. */
  function NinetyPercentTakeawayAsWritten(totalWork: real, baselineWorkers: int): (t: real)
    requires baselineWorkers != 0
    ensures t == TotalTime(totalWork, baselineWorkers, 0.9, 100) + totalWork / 1000.0
    ensures t == TotalTime(totalWork, baselineWorkers, 0.9, 100) <==> totalWork == 0.0
  {
    0.9 * totalWork / (baselineWorkers as real) + 0.2 * totalWork / 100.0
  }

  /** The 90% figure with the parallel share the formula uses. */
  function NinetyPercentTakeaway(totalWork: real, baselineWorkers: int): (t: real)
    requires baselineWorkers != 0
    ensures t == TotalTime(totalWork, baselineWorkers, 0.9, 100)
  {
    0.9 * totalWork / (baselineWorkers as real) + 0.1 * totalWork / 100.0
  }

  /** The figures for the program's project of 720 worker-months and a
      baseline team of 20: 10.08 months at 10%; at 90%, 33.84 as printed
      against 33.12 on the curve. */
  lemma TakeawayValues()
    ensures TenPercentTakeaway(720.0, 20) == 10.08
    ensures NinetyPercentTakeawayAsWritten(720.0, 20) == 33.84
    ensures NinetyPercentTakeaway(720.0, 20) == 33.12
    ensures NinetyPercentTakeawayAsWritten(720.0, 20) != TotalTime(720.0, 20, 0.9, 100)
  {
  }
}

/**
 The program's run: a baseline team of 20 workers taking 36 months, four
 sequential fractions, team sizes 5 to 100 in steps of 5, one curve per
 fraction and the dashed reference line at the baseline duration.
 */
module Run {
  import opened Projection
  import opened Sweep
  import opened Takeaways

  const BaselineWorkers: int := 20
  const BaselineTime: int := 36

  /** Sequential fractions of the four scenarios, in plotting order. */
  const Fractions: seq<real> := [0.1, 0.3, 0.5, 0.9]

  /** The run's curves, the reference line and the two takeaway figures
      as the program prints them. Each curve is the projection of its
      fraction over the team sizes for 720 worker-months and a baseline
      of 20. Every curve meets the 36-month reference line at the
      baseline team (the fourth size, 20 workers), lies above it before
      and on or under it after, and falls strictly as the team grows,
      each step of 5 workers saving no more than the step before.
      The 10% figure is the 100-worker point of the first curve; the 90%
      figure misses the 100-worker point of the last curve by 0.72. */
  method ProjectRun() returns (curves: seq<seq<real>>, reference: seq<real>, ten: real, ninety: real)
    ensures |curves| == |Fractions|
    ensures forall k :: 0 <= k < |curves| ==> |curves[k]| == |TeamSizes()|
    ensures forall k :: 0 <= k < |curves| ==> IsCurve(curves[k], 720.0, BaselineWorkers, Fractions[k], TeamSizes())
    ensures |reference| == |TeamSizes()|
    ensures forall i :: 0 <= i < |reference| ==> reference[i] == 36.0
    ensures forall k :: 0 <= k < |curves| ==> curves[k][3] == reference[3]
    ensures forall k, i :: 0 <= k < |curves| && 0 <= i < 3 ==> curves[k][i] > reference[i]
    ensures forall k, i :: 0 <= k < |curves| && 3 <= i < |TeamSizes()| ==> curves[k][i] <= reference[i]
    ensures forall k, i, j :: 0 <= k < |curves| && 0 <= i < j < |TeamSizes()| ==> curves[k][j] < curves[k][i]
    ensures forall k, i :: 0 <= k < |curves| && 0 <= i < |TeamSizes()| - 2 ==>
              curves[k][i] - curves[k][i + 1] >= curves[k][i + 1] - curves[k][i + 2]
    ensures ten == curves[0][19] && ten == 10.08
    ensures ninety == curves[3][19] + 0.72 && ninety != curves[3][19] && ninety == 33.84
  {
    var sizes := TeamSizes();
    var work := TotalWork(BaselineWorkers, BaselineTime) as real;
    var r := ScenarioCurves(work, BaselineWorkers, Fractions, sizes);
    assert r.Ok?;
    curves := r.value;
    reference := ReferenceLine(BaselineTime, |sizes|);
    assert work == 720.0;
    assert work / (BaselineWorkers as real) == 36.0;
    forall k | 0 <= k < |curves| {
      RunCurve(curves[k], Fractions[k]);
    }
    ten := TenPercentTakeaway(work, BaselineWorkers);
    ninety := NinetyPercentTakeawayAsWritten(work, BaselineWorkers);
    TakeawayValues();
  }

  /** One curve of the run against the reference line: it meets the line
      at 20 workers, lies above it before and on or under it after, falls
      strictly, and saves no more per step of 5 workers than the step
      before. */
  lemma RunCurve(curve: seq<real>, f: real)
    requires 0.0 <= f < 1.0
    requires IsCurve(curve, 720.0, BaselineWorkers, f, TeamSizes())
    ensures curve[3] == 36.0
    ensures forall i :: 0 <= i < 3 ==> curve[i] > 36.0
    ensures forall i :: 3 <= i < |curve| ==> curve[i] <= 36.0
    ensures forall i, j :: 0 <= i < j < |curve| ==> curve[j] < curve[i]
    ensures forall i :: 0 <= i < |curve| - 2 ==> curve[i] - curve[i + 1] >= curve[i + 1] - curve[i + 2]
  {
    var sizes := TeamSizes();
    assert TotalWork(BaselineWorkers, BaselineTime) as real == 720.0;
    BaselineIdentity(BaselineWorkers, BaselineTime, f);
    CurveStrictlyDecreasingIff(curve, 720.0, BaselineWorkers, f, sizes);
    CurveDiminishingReturns(curve, 720.0, BaselineWorkers, f, sizes, 5);
    forall i | 3 <= i < |sizes|
      ensures curve[i] <= 36.0
    {
      NoWorseThanBaseline(720.0, BaselineWorkers, f, sizes[i]);
    }
  }
}

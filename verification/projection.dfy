/**
 The completion-time projection of a project under a sequential bottleneck.

 A project needs `totalWork` worker-months. A fraction `f` of that work is
 sequential and runs at the throughput of the *baseline* team; the rest is
 shared out over the team actually assigned. The sequential term is divided
 by the baseline team size, not by the swept team size: this is the
 program's own formula, kept as it is (it is not the textbook form of
 Amdahl's law).

 Arithmetic is over `real`, so identities hold exactly; the program's
 floating-point results may differ from these in the last bits.
 */
module Projection {

  /** The one failure the formula can meet: a zero divisor. */
  datatype Error = DivisionByZero

  datatype Result<+T> = Ok(value: T) | Err(error: Error)

  /** Worker-months of the baseline project: its team times its duration. */
  function TotalWork(baselineWorkers: int, baselineTime: int): (w: int)
    ensures baselineWorkers != 0 ==> (w as real) / (baselineWorkers as real) == baselineTime as real
    ensures baselineWorkers > 0 && baselineTime > 0 ==> w > 0
  {
    var w := baselineWorkers * baselineTime;
    assert w as real == (baselineWorkers as real) * (baselineTime as real);
    w
  }

  /** Months spent on the sequential share, at the baseline team's pace.
      It has no team-size parameter: adding workers never shortens it. */
  function SequentialTime(totalWork: real, baselineWorkers: int, f: real): (t: real)
    requires baselineWorkers != 0
    ensures t * (baselineWorkers as real) == f * totalWork
  {
    (f * totalWork) / (baselineWorkers as real)
  }

  /** Months spent on the parallel share, split over `workers`. */
  function ParallelTime(totalWork: real, f: real, workers: int): (t: real)
    requires workers != 0
    ensures t * (workers as real) == totalWork * (1.0 - f)
  {
    (totalWork * (1.0 - f)) / (workers as real)
  }

  /** Projected completion time of the project with `workers` on it. */
  function TotalTime(totalWork: real, baselineWorkers: int, f: real, workers: int): (t: real)
    requires baselineWorkers != 0 && workers != 0
    ensures t * (baselineWorkers as real) * (workers as real)
            == totalWork * (f * (workers as real) + (1.0 - f) * (baselineWorkers as real))
  {
    var s := SequentialTime(totalWork, baselineWorkers, f);
    var p := ParallelTime(totalWork, f, workers);
    assert (s + p) * (baselineWorkers as real) * (workers as real)
        == (s * (baselineWorkers as real)) * (workers as real)
           + (p * (workers as real)) * (baselineWorkers as real);
    s + p
  }

  /** The formula as the program evaluates it. A zero divisor is an error.
      For the baseline team this is the division error the program raises.
      For a swept team size the program's array division would give an
      infinite or undefined float; `real` has no such values, so it is
      reported as the same error. A fraction outside [0,1] is not checked
      and still yields a time. */
  function ProjectTime(totalWork: real, baselineWorkers: int, f: real, workers: int): (r: Result<real>)
    ensures r.Err? <==> baselineWorkers == 0 || workers == 0
    ensures r.Ok? ==> r.value == TotalTime(totalWork, baselineWorkers, f, workers)
  {
    if baselineWorkers == 0 || workers == 0 then Err(DivisionByZero)
    else Ok(TotalTime(totalWork, baselineWorkers, f, workers))
  }

  /** With no sequential work there is no floor: the work is simply
      shared by the team. */
  lemma PurelyParallel(totalWork: real, baselineWorkers: int, workers: int)
    requires baselineWorkers != 0 && workers != 0
    ensures TotalTime(totalWork, baselineWorkers, 0.0, workers) == totalWork / (workers as real)
  {
  }

  /** With no sequential work, a large enough team brings the time under
      any positive bound. */
  lemma NoSequentialFloor(totalWork: real, baselineWorkers: int, bound: real)
    requires totalWork >= 0.0 && baselineWorkers != 0 && bound > 0.0
    ensures exists w: int :: w > 0 && TotalTime(totalWork, baselineWorkers, 0.0, w) < bound
  {
    var w := (totalWork / bound).Floor + 1;
    assert (w as real) > totalWork / bound;
    assert (w as real) * bound > totalWork by {
      assert ((w as real) - totalWork / bound) * bound > 0.0;
    }
    PurelyParallel(totalWork, baselineWorkers, w);
    var t := totalWork / (w as real);
    assert t * (w as real) == totalWork;
    assert t < bound by {
      assert (bound - t) * (w as real) > 0.0;
    }
    assert TotalTime(totalWork, baselineWorkers, 0.0, w) < bound;
  }

  /** With only sequential work, team size is irrelevant. */
  lemma FullySequential(totalWork: real, baselineWorkers: int, workers: int)
    requires baselineWorkers != 0 && workers != 0
    ensures TotalTime(totalWork, baselineWorkers, 1.0, workers) == totalWork / (baselineWorkers as real)
  {
  }

  /** At the baseline team size every fraction gives the baseline duration:
      each curve meets the reference line there. */
  lemma BaselineIdentity(baselineWorkers: int, baselineTime: int, f: real)
    requires baselineWorkers != 0
    ensures TotalTime(TotalWork(baselineWorkers, baselineTime) as real, baselineWorkers, f, baselineWorkers)
            == baselineTime as real
  {
  }

  /** More workers never lengthen the project, for a fraction in [0,1]. */
  lemma NonIncreasingInWorkers(totalWork: real, baselineWorkers: int, f: real, w1: int, w2: int)
    requires totalWork >= 0.0 && baselineWorkers != 0
    requires 0 < w1 <= w2 && 0.0 <= f <= 1.0
    ensures TotalTime(totalWork, baselineWorkers, f, w2) <= TotalTime(totalWork, baselineWorkers, f, w1)
  {
    SmallerShareOfMore(totalWork * (1.0 - f), w1 as real, w2 as real);
  }

  /** Strictly fewer months with strictly more workers exactly when some
      work is parallel. */
  lemma StrictlyDecreasingIff(totalWork: real, baselineWorkers: int, f: real, w1: int, w2: int)
    requires totalWork > 0.0 && baselineWorkers != 0
    requires 0 < w1 < w2 && 0.0 <= f <= 1.0
    ensures TotalTime(totalWork, baselineWorkers, f, w2) < TotalTime(totalWork, baselineWorkers, f, w1)
            <==> f < 1.0
  {
    var p := totalWork * (1.0 - f);
    if f < 1.0 {
      assert p > 0.0;
      ParallelShrinksStrictly(p, w1, w2);
    } else {
      FullySequential(totalWork, baselineWorkers, w1);
      FullySequential(totalWork, baselineWorkers, w2);
    }
  }

  /** Diminishing returns: over consecutive intervals of team size, the
      time saved per added worker never grows. The curve is convex in the
      team size. */
  lemma DiminishingReturns(totalWork: real, baselineWorkers: int, f: real, w1: int, w2: int, w3: int)
    requires totalWork >= 0.0 && baselineWorkers != 0 && f <= 1.0
    requires 0 < w1 < w2 < w3
    ensures (TotalTime(totalWork, baselineWorkers, f, w1) - TotalTime(totalWork, baselineWorkers, f, w2))
              * ((w3 - w2) as real)
            >= (TotalTime(totalWork, baselineWorkers, f, w2) - TotalTime(totalWork, baselineWorkers, f, w3))
              * ((w2 - w1) as real)
  {
    var p := totalWork * (1.0 - f);
    assert p >= 0.0;
    assert TotalTime(totalWork, baselineWorkers, f, w1) - TotalTime(totalWork, baselineWorkers, f, w2)
           == p / (w1 as real) - p / (w2 as real);
    assert TotalTime(totalWork, baselineWorkers, f, w2) - TotalTime(totalWork, baselineWorkers, f, w3)
           == p / (w2 as real) - p / (w3 as real);
    ConvexQuotient(p, w1 as real, w2 as real, w3 as real);
  }

  /** Diminishing returns over evenly spaced team sizes: adding `step`
      workers to `w + step` saves no more than adding them to `w`. */
  lemma EvenStepsDiminish(totalWork: real, baselineWorkers: int, f: real, w: int, step: int)
    requires totalWork >= 0.0 && baselineWorkers != 0 && f <= 1.0 && 0 < w && 0 < step
    ensures TotalTime(totalWork, baselineWorkers, f, w) - TotalTime(totalWork, baselineWorkers, f, w + step)
            >= TotalTime(totalWork, baselineWorkers, f, w + step)
               - TotalTime(totalWork, baselineWorkers, f, w + 2 * step)
  {
    DiminishingReturns(totalWork, baselineWorkers, f, w, w + step, w + 2 * step);
    var d1 := TotalTime(totalWork, baselineWorkers, f, w) - TotalTime(totalWork, baselineWorkers, f, w + step);
    var d2 := TotalTime(totalWork, baselineWorkers, f, w + step)
              - TotalTime(totalWork, baselineWorkers, f, w + 2 * step);
    CancelGap(d1, d2, ((w + 2 * step) - (w + step)) as real, ((w + step) - w) as real);
  }

  /** Savings compared over equal positive gaps compare as the savings. */
  lemma CancelGap(d1: real, d2: real, g1: real, g2: real)
    requires d1 * g1 >= d2 * g2 && g1 == g2 && g1 > 0.0
    ensures d1 >= d2
  {
    assert (d1 - d2) * g1 == d1 * g1 - d2 * g1;
    NonNegativeFactor(d1 - d2, g1);
  }

  /** The sequential share is a floor under the completion time, and the
      time is positive for a positive project and team. */
  lemma SequentialFloor(totalWork: real, baselineWorkers: int, f: real, workers: int)
    requires totalWork >= 0.0 && baselineWorkers != 0 && workers > 0 && f <= 1.0
    ensures TotalTime(totalWork, baselineWorkers, f, workers)
            >= SequentialTime(totalWork, baselineWorkers, f)
    ensures totalWork > 0.0 && baselineWorkers > 0 && 0.0 <= f
            ==> TotalTime(totalWork, baselineWorkers, f, workers) > 0.0
  {
  }

  /** Past the baseline team the curve stays on or under the baseline
      duration `totalWork / baselineWorkers`. */
  lemma NoWorseThanBaseline(totalWork: real, baselineWorkers: int, f: real, workers: int)
    requires totalWork >= 0.0 && 0 < baselineWorkers <= workers && 0.0 <= f <= 1.0
    ensures TotalTime(totalWork, baselineWorkers, f, workers) <= totalWork / (baselineWorkers as real)
  {
    NonIncreasingInWorkers(totalWork, baselineWorkers, f, baselineWorkers, workers);
    var t := TotalTime(totalWork, baselineWorkers, f, baselineWorkers);
    var b := baselineWorkers as real;
    assert t * b * b == totalWork * b;
    assert t == totalWork / b by {
      assert (t * b - totalWork) * b == 0.0;
    }
  }

  /** Positive work over a strictly larger team takes strictly less time. */
  lemma ParallelShrinksStrictly(work: real, w1: int, w2: int)
    requires work > 0.0 && 0 < w1 < w2
    ensures work / (w2 as real) < work / (w1 as real)
  {
  }

  /** Work shared over a team is convex in the team size. */
  lemma ConvexQuotient(p: real, a: real, b: real, c: real)
    requires p >= 0.0 && 0.0 < a < b < c
    ensures (p / a - p / b) * (c - b) >= (p / b - p / c) * (b - a)
  {
    // Scaled by b, the first side is t1 (b - a) (c - b) and the second
    // t3 (b - a) (c - b), and t1 >= t3.
    var t1, t2, t3 := p / a, p / b, p / c;
    var k := (b - a) * (c - b);
    PositiveProduct(b - a, c - b);
    SmallerShareOfMore(p, a, c);
    NonNegativeProduct(t1 - t3, k);
    ScaledSaving(t1, t2, a, b, c - b);
    ScaledSaving(t3, t2, c, b, b - a);
    assert ((t1 - t2) * (c - b) - (t2 - t3) * (b - a)) * b == (t1 - t3) * k;
    NonNegativeFactor((t1 - t2) * (c - b) - (t2 - t3) * (b - a), b);
  }

  /** Two shares of the same work, x over a and y over b, differ by x's
      share of the gap, scaled by b. */
  lemma ScaledSaving(x: real, y: real, a: real, b: real, g: real)
    requires x * a == y * b
    ensures (x - y) * g * b == x * (b - a) * g
  {
    assert (x - y) * b == x * (b - a);
  }

  /** Non-negative work over a larger divisor gives no more. */
  lemma SmallerShareOfMore(m: real, u: real, v: real)
    requires m >= 0.0 && 0.0 < u <= v
    ensures m / v <= m / u
  {
    assert (m / u) * u == m == (m / v) * v;
    assert (m / v) * u <= (m / v) * v;
  }

  /** Sign rules for products, stated once for the proofs above. */
  lemma NonNegativeProduct(x: real, y: real)
    requires x >= 0.0 && y >= 0.0
    ensures x * y >= 0.0
  {
  }

  lemma PositiveProduct(x: real, y: real)
    requires x > 0.0 && y > 0.0
    ensures x * y > 0.0
  {
  }

  lemma NonNegativeFactor(x: real, y: real)
    requires x * y >= 0.0 && y > 0.0
    ensures x >= 0.0
  {
  }
}

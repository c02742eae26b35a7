/**
 * The power iteration over a damped chain, with its tolerance exit: how fast consecutive iterates approach
 * each other, when the exit must be taken, and how far the answer can be from the true fixed point.
 */
module PowerIteration {
  import opened Sums
  import opened Chains

  datatype Chain<!T> = Chain(states: set<T>, kernel: (T, T) -> real, teleport: T -> real, damping: real) {
    ghost predicate Valid() {
      Stochastic(states, kernel) && Distribution(states, teleport) && 0.0 <= damping <= 1.0
    }

    ghost function Next(f: Scores<T>): Scores<T> {
      Step(states, kernel, teleport, damping, f)
    }

    ghost function After(f: Scores<T>, k: nat): Scores<T> {
      if k == 0 then f else Next(After(f, k - 1))
    }

    /** Change made by the k-th step, counting from 1. */
    ghost function Delta(f: Scores<T>, k: nat): real
      requires 1 <= k
    {
      Distance(states, After(f, k), After(f, k - 1))
    }

    /** Scores left behind by at most fuel steps that stop after the first change below tolerance. */
    ghost function Run(f: Scores<T>, tolerance: real, fuel: nat): Scores<T> {
      if fuel == 0 then f
      else if Distance(states, Next(f), f) < tolerance then Next(f)
      else Run(Next(f), tolerance, fuel - 1)
    }

    /** Number of steps Run takes. */
    ghost function Steps(f: Scores<T>, tolerance: real, fuel: nat): (k: nat)
      ensures k <= fuel
    {
      if fuel == 0 then 0
      else if Distance(states, Next(f), f) < tolerance then 1
      else 1 + Steps(Next(f), tolerance, fuel - 1)
    }

    ghost predicate Fixed(p: Scores<T>) {
      forall v {:trigger Next(p)(v)} :: v in states ==> Next(p)(v) == p(v)
    }
  }

  ghost function Power(d: real, k: nat): real {
    if k == 0 then 1.0 else d * Power(d, k - 1)
  }

  lemma {:induction false} AfterShift<T>(c: Chain<T>, f: Scores<T>, k: nat)
    ensures c.After(c.Next(f), k) == c.After(f, k + 1)
  {
    if k != 0 {
      AfterShift(c, f, k - 1);
    }
  }

  /** Every iterate of a distribution is a distribution; from the first step on, teleport shares are lower bounds. */
  lemma {:induction false} AfterIsDistribution<T>(c: Chain<T>, f: Scores<T>, k: nat)
    requires c.Valid() && Distribution(c.states, f)
    ensures Distribution(c.states, c.After(f, k))
    ensures 1 <= k ==> forall v :: v in c.states ==> (1.0 - c.damping) * c.teleport(v) <= c.After(f, k)(v)
  {
    if k != 0 {
      AfterIsDistribution(c, f, k - 1);
      StepIsDistribution(c.states, c.kernel, c.teleport, c.damping, c.After(f, k - 1));
    }
  }

  lemma ScaleBound(d: real, x: real, y: real)
    requires 0.0 <= d && x <= y
    ensures d * x <= d * y
  {
    ProductIsNonNegative(d, y - x);
    assert d * (y - x) == d * y - d * x;
  }

  lemma Associate(a: real, b: real, c: real)
    ensures a * (b * c) == (a * b) * c
  {
  }

  lemma GeometricStep(d: real, p: real, p': real, start: real, before: real, now: real)
    requires 0.0 <= d && p' == d * p
    requires before <= p * start && now <= d * before
    ensures now <= p' * start
  {
    ScaleBound(d, before, p * start);
    Associate(d, p, start);
    assert p' * start == (d * p) * start;
  }

  /** k steps contract by the k-th power of the damping. */
  lemma {:induction false} AfterContracts<T>(c: Chain<T>, f: Scores<T>, g: Scores<T>, k: nat)
    requires c.Valid()
    ensures Distance(c.states, c.After(f, k), c.After(g, k)) <= Power(c.damping, k) * Distance(c.states, f, g)
  {
    hide Distance, Step, Stochastic, Distribution;
    if k != 0 {
      AfterContracts(c, f, g, k - 1);
      StepContracts(c.states, c.kernel, c.teleport, c.damping, c.After(f, k - 1), c.After(g, k - 1));
      GeometricStep(c.damping, Power(c.damping, k - 1), Power(c.damping, k), Distance(c.states, f, g),
                    Distance(c.states, c.After(f, k - 1), c.After(g, k - 1)),
                    Distance(c.states, c.After(f, k), c.After(g, k)));
    }
  }

  lemma {:induction false} PowerIsNonNegative(d: real, k: nat)
    requires 0.0 <= d
    ensures 0.0 <= Power(d, k)
  {
    if k != 0 {
      PowerIsNonNegative(d, k - 1);
      ProductIsNonNegative(d, Power(d, k - 1));
    }
  }

  /** The k-th change is at most twice the (k-1)-st power of the damping. */
  lemma DeltaBound<T>(c: Chain<T>, f: Scores<T>, k: nat)
    requires c.Valid() && Distribution(c.states, f) && 1 <= k
    ensures c.Delta(f, k) <= 2.0 * Power(c.damping, k - 1)
  {
    hide Step, Distance, Distribution, Stochastic, Power;
    AfterShift(c, f, k - 1);
    AfterContracts(c, c.Next(f), f, k - 1);
    assert c.After(f, k) == c.After(c.Next(f), k - 1);
    StepIsDistribution(c.states, c.kernel, c.teleport, c.damping, f);
    DistributionsAreClose(c.states, c.Next(f), f);
    PowerIsNonNegative(c.damping, k - 1);
    AtMostTwice(Power(c.damping, k - 1), Distance(c.states, c.Next(f), f), c.Delta(f, k));
  }

  lemma AtMostTwice(p: real, x: real, delta: real)
    requires 0.0 <= p && x <= 2.0 && delta <= p * x
    ensures delta <= 2.0 * p
  {
    ScaleBound(p, x, 2.0);
  }

  /** Run is the iterate number Steps, and Steps is the first step whose change is below tolerance, if there is one. */
  lemma {:induction false} RunStopsAtFirstSmallChange<T>(c: Chain<T>, f: Scores<T>, tolerance: real, fuel: nat)
    ensures c.Run(f, tolerance, fuel) == c.After(f, c.Steps(f, tolerance, fuel))
    ensures forall j: nat :: 1 <= j < c.Steps(f, tolerance, fuel) ==> tolerance <= c.Delta(f, j)
    ensures c.Steps(f, tolerance, fuel) < fuel ==>
              1 <= c.Steps(f, tolerance, fuel) && c.Delta(f, c.Steps(f, tolerance, fuel)) < tolerance
  {
    if fuel == 0 {
    } else if Distance(c.states, c.Next(f), f) < tolerance {
      assert c.After(f, 1) == c.Next(c.After(f, 0));
      assert c.Delta(f, 1) < tolerance;
    } else {
      var g := c.Next(f);
      var rest := c.Steps(g, tolerance, fuel - 1);
      assert c.Steps(f, tolerance, fuel) == 1 + rest;
      RunStopsAtFirstSmallChange(c, g, tolerance, fuel - 1);
      AfterShift(c, f, rest);
      forall j: nat | 1 <= j <= rest + 1
        ensures c.Delta(f, j) == if j == 1 then Distance(c.states, g, f) else c.Delta(g, j - 1)
      {
        if j == 1 {
          assert c.After(f, 1) == c.Next(c.After(f, 0));
        } else {
          AfterShift(c, f, j - 1);
          AfterShift(c, f, j - 2);
        }
      }
    }
  }

  /** Once the geometric bound is below tolerance the exit has been taken. */
  lemma ExitIsForced<T>(c: Chain<T>, f: Scores<T>, tolerance: real, fuel: nat, k: nat)
    requires c.Valid() && Distribution(c.states, f) && 1 <= k
    requires 2.0 * Power(c.damping, k - 1) < tolerance
    ensures c.Steps(f, tolerance, fuel) <= k
  {
    RunStopsAtFirstSmallChange(c, f, tolerance, fuel);
    DeltaBound(c, f, k);
  }

  /** After a change of size delta, any fixed point is at most d / (1 - d) * delta away. */
  lemma FixedPointIsNear<T>(c: Chain<T>, f: Scores<T>, p: Scores<T>)
    requires c.Valid() && c.Fixed(p)
    ensures (1.0 - c.damping) * Distance(c.states, c.Next(f), p) <= c.damping * Distance(c.states, c.Next(f), f)
  {
    var d, next := c.damping, c.Next(f);
    StepContracts(c.states, c.kernel, c.teleport, d, f, p);
    forall v | v in c.states
      ensures c.Next(p)(v) == p(v)
    {
    }
    DistanceCongruence(c.states, next, c.Next(p), next, p);
    DistanceTriangle(c.states, f, next, p);
    DistanceSymmetric(c.states, f, next);
    ScaleBound(d, Distance(c.states, f, p), Distance(c.states, next, f) + Distance(c.states, next, p));
  }

  /** The same, for the scores Run returns on a tolerance exit. */
  lemma ToleranceExitIsNearFixedPoint<T>(c: Chain<T>, f: Scores<T>, p: Scores<T>, tolerance: real, fuel: nat)
    requires c.Valid() && c.Fixed(p)
    requires c.Steps(f, tolerance, fuel) < fuel
    ensures (1.0 - c.damping) * Distance(c.states, c.Run(f, tolerance, fuel), p) <= c.damping * tolerance
  {
    hide Step, Distance, Stochastic, Distribution;
    RunStopsAtFirstSmallChange(c, f, tolerance, fuel);
    var k := c.Steps(f, tolerance, fuel);
    var before, run := c.After(f, k - 1), c.Run(f, tolerance, fuel);
    assert run == c.After(f, k) == c.Next(before);
    FixedPointIsNear(c, before, p);
    WithinTolerance(c.damping, (1.0 - c.damping) * Distance(c.states, run, p), Distance(c.states, run, before), tolerance);
  }

  lemma WithinTolerance(d: real, x: real, delta: real, tolerance: real)
    requires 0.0 <= d && x <= d * delta && delta <= tolerance
    ensures x <= d * tolerance
  {
    ScaleBound(d, delta, tolerance);
  }

  lemma PositiveProduct(a: real, x: real)
    requires 0.0 < a && 0.0 < x
    ensures 0.0 < a * x
    ensures (1.0 - a) * x < x
  {
  }

  /** Iterates of a distribution approach a fixed distribution geometrically. */
  lemma {:induction false} IteratesApproachFixedPoint<T>(c: Chain<T>, f: Scores<T>, p: Scores<T>, k: nat)
    requires c.Valid() && c.Fixed(p)
    requires Distribution(c.states, f) && Distribution(c.states, p)
    ensures Distance(c.states, c.After(f, k), p) <= 2.0 * Power(c.damping, k)
  {
    hide Distance, Step, Stochastic, Distribution;
    if k == 0 {
      DistributionsAreClose(c.states, f, p);
    } else {
      IteratesApproachFixedPoint(c, f, p, k - 1);
      var before := c.After(f, k - 1);
      StepContracts(c.states, c.kernel, c.teleport, c.damping, before, p);
      forall v | v in c.states
        ensures c.Next(p)(v) == p(v)
      {
      }
      DistanceCongruence(c.states, c.Next(before), c.Next(p), c.Next(before), p);
      GeometricStep(c.damping, Power(c.damping, k - 1), Power(c.damping, k), 2.0,
                    Distance(c.states, before, p), Distance(c.states, c.Next(before), p));
    }
  }

  /** With damping below one there is at most one fixed point. */
  lemma FixedPointIsUnique<T>(c: Chain<T>, p: Scores<T>, q: Scores<T>)
    requires c.Valid() && c.damping < 1.0
    requires c.Fixed(p) && c.Fixed(q)
    ensures forall v :: v in c.states ==> p(v) == q(v)
  {
    var gap := Distance(c.states, p, q);
    StepContracts(c.states, c.kernel, c.teleport, c.damping, p, q);
    forall v | v in c.states
      ensures c.Next(p)(v) == p(v) && c.Next(q)(v) == q(v)
    {
    }
    DistanceCongruence(c.states, c.Next(p), c.Next(q), p, q);
    if gap > 0.0 {
      PositiveProduct(1.0 - c.damping, gap);
    }
    DistanceZero(c.states, p, q);
  }

  /** Every later iterate stays within delta / (1 - d) of the current one, fixed point or not. */
  lemma {:induction false} LaterIteratesStayNear<T>(c: Chain<T>, f: Scores<T>, k: nat)
    requires c.Valid()
    ensures (1.0 - c.damping) * Distance(c.states, c.After(f, k), f) <= Distance(c.states, c.Next(f), f)
  {
    hide Distance, Step, Stochastic, Distribution;
    if k == 0 {
      DistanceSymmetric(c.states, c.Next(f), f);
      DistanceToSelf(c.states, f);
    } else {
      LaterIteratesStayNear(c, f, k - 1);
      OneStepFurther(c, f, c.After(f, k - 1));
      GeometricTail(c.damping, 1.0 - c.damping, Distance(c.states, c.After(f, k), f),
                    Distance(c.states, c.After(f, k - 1), f), Distance(c.states, c.Next(f), f));
    }
  }

  lemma OneStepFurther<T>(c: Chain<T>, f: Scores<T>, g: Scores<T>)
    requires c.Valid()
    ensures Distance(c.states, c.Next(g), f) <= c.damping * Distance(c.states, g, f) + Distance(c.states, c.Next(f), f)
  {
    StepContracts(c.states, c.kernel, c.teleport, c.damping, g, f);
    DistanceTriangle(c.states, c.Next(g), c.Next(f), f);
  }

  lemma GeometricTail(d: real, e: real, now: real, before: real, delta: real)
    requires 0.0 <= d && 0.0 <= e && d + e == 1.0
    requires now <= d * before + delta
    requires e * before <= delta
    ensures e * now <= delta
  {
    calc {
      e * now;
    <= { ScaleBound(e, now, d * before + delta); }
      e * (d * before + delta);
    == { Distribute(e, d * before, delta); }
      e * (d * before) + e * delta;
    == { SwapFactors(e, d, before); }
      d * (e * before) + e * delta;
    <= { ScaleBound(d, e * before, delta); }
      d * delta + e * delta;
    == { WeightedSame(d, e, delta); }
      delta;
    }
  }

  lemma SwapFactors(a: real, b: real, c: real)
    ensures a * (b * c) == b * (a * c)
  {
  }

  lemma WeightedSame(d: real, e: real, x: real)
    requires d + e == 1.0
    ensures d * x + e * x == x
  {
    assert (d + e) * x == d * x + e * x;
  }
}

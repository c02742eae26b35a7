/**
 * Damped random walks on a finite set of states: one step, what it conserves, and by how much it contracts
 * the L1 distance. Nothing here knows about graphs; the kernel is any table of transition probabilities.
 */
module Chains {
  import opened Sums

  type Scores<!T> = T -> real

  ghost predicate Distribution<T>(states: set<T>, f: Scores<T>) {
    && (forall v :: v in states ==> 0.0 <= f(v))
    && Sum(states, f) == 1.0
  }

  /** From every state the walk goes somewhere with probability exactly one. */
  ghost predicate Stochastic<T>(states: set<T>, kernel: (T, T) -> real) {
    forall u {:trigger Row(kernel, u)} :: u in states ==> Distribution(states, Row(kernel, u))
  }

  function Flow<T>(kernel: (T, T) -> real, f: Scores<T>): (T, T) -> real {
    (u, v) => f(u) * kernel(u, v)
  }

  /** Mass reaching v in one move when every state u holds f(u). */
  ghost function Arriving<T>(states: set<T>, kernel: (T, T) -> real, f: Scores<T>, v: T): real {
    Sum(states, Column(Flow(kernel, f), v))
  }

  /** One damped step: teleport with probability 1 - d, otherwise move along the kernel. */
  ghost function Step<T>(states: set<T>, kernel: (T, T) -> real, t: Scores<T>, d: real, f: Scores<T>): Scores<T> {
    v => (1.0 - d) * t(v) + d * Arriving(states, kernel, f, v)
  }

  function Scaled<T>(c: real, f: Scores<T>): Scores<T> {
    v => c * f(v)
  }

  function Difference<T>(f: Scores<T>, g: Scores<T>): Scores<T> {
    v => Abs(f(v) - g(v))
  }

  ghost function Distance<T>(states: set<T>, f: Scores<T>, g: Scores<T>): real {
    Sum(states, Difference(f, g))
  }

  /** Whatever the states hold, it all arrives somewhere. */
  lemma NothingIsLost<T>(states: set<T>, kernel: (T, T) -> real, f: Scores<T>, arriving: Scores<T>)
    requires Stochastic(states, kernel)
    requires forall v :: v in states ==> arriving(v) == Arriving(states, kernel, f, v)
    ensures Sum(states, arriving) == Sum(states, f)
  {
    forall u | u in states
      ensures f(u) == Sum(states, Row(Flow(kernel, f), u))
    {
      SumScale(states, f(u), Row(kernel, u), Row(Flow(kernel, f), u));
    }
    SumByRowsOrColumns(states, states, Flow(kernel, f), f, arriving);
  }

  /** A step conserves total mass for any scores at all. */
  lemma StepConservesMass<T>(states: set<T>, kernel: (T, T) -> real, t: Scores<T>, d: real, f: Scores<T>)
    requires Stochastic(states, kernel) && Distribution(states, t)
    ensures Sum(states, Step(states, kernel, t, d, f)) == (1.0 - d) + d * Sum(states, f)
  {
    var arriving := v => Arriving(states, kernel, f, v);
    NothingIsLost(states, kernel, f, arriving);
    SumLinear(states, 1.0 - d, t, d, arriving, Step(states, kernel, t, d, f));
  }

  lemma ProductIsNonNegative(a: real, b: real)
    requires 0.0 <= a && 0.0 <= b
    ensures 0.0 <= a * b
  {
  }

  lemma ArrivingIsNonNegative<T>(states: set<T>, kernel: (T, T) -> real, f: Scores<T>, v: T)
    requires Stochastic(states, kernel) && v in states
    requires forall u :: u in states ==> 0.0 <= f(u)
    ensures 0.0 <= Arriving(states, kernel, f, v)
  {
    forall u | u in states
      ensures 0.0 <= Column(Flow(kernel, f), v)(u)
    {
      assert 0.0 <= Row(kernel, u)(v);
      ProductIsNonNegative(f(u), kernel(u, v));
    }
    SumNonNegative(states, Column(Flow(kernel, f), v));
  }

  /** A step maps distributions to distributions and leaves every state its teleport share. */
  lemma StepIsDistribution<T>(states: set<T>, kernel: (T, T) -> real, t: Scores<T>, d: real, f: Scores<T>)
    requires 0.0 <= d <= 1.0
    requires Stochastic(states, kernel) && Distribution(states, t) && Distribution(states, f)
    ensures Distribution(states, Step(states, kernel, t, d, f))
    ensures forall v :: v in states ==> (1.0 - d) * t(v) <= Step(states, kernel, t, d, f)(v)
  {
    StepConservesMass(states, kernel, t, d, f);
    forall v | v in states
      ensures 0.0 <= (1.0 - d) * t(v) <= Step(states, kernel, t, d, f)(v)
    {
      ArrivingIsNonNegative(states, kernel, f, v);
      ProductIsNonNegative(1.0 - d, t(v));
      ProductIsNonNegative(d, Arriving(states, kernel, f, v));
    }
  }

  lemma ScaledGap(a: real, b: real, k: real)
    requires 0.0 <= k
    ensures Abs(a * k - b * k) == Abs(a - b) * k
  {
    assert a * k - b * k == (a - b) * k;
    if a < b {
      ProductIsNonNegative(b - a, k);
      assert (b - a) * k == -((a - b) * k);
    } else {
      ProductIsNonNegative(a - b, k);
    }
  }

  lemma DampedGap(base: real, d: real, x: real, y: real, bound: real)
    requires 0.0 <= d && Abs(x - y) <= bound
    ensures Abs((base + d * x) - (base + d * y)) <= d * bound
  {
    ScaledGap(x, y, d);
    ProductIsNonNegative(d, bound - Abs(x - y));
    assert d * (bound - Abs(x - y)) == d * bound - d * Abs(x - y);
  }

  lemma RowIsNonNegative<T>(states: set<T>, kernel: (T, T) -> real, u: T, v: T)
    requires Stochastic(states, kernel) && u in states && v in states
    ensures 0.0 <= kernel(u, v)
  {
    assert 0.0 <= Row(kernel, u)(v);
  }

  /** At each state the two arriving masses differ by at most what the pointwise differences bring there. */
  lemma ArrivingDiffersBy<T>(states: set<T>, kernel: (T, T) -> real, f: Scores<T>, g: Scores<T>, v: T)
    requires Stochastic(states, kernel) && v in states
    ensures Abs(Arriving(states, kernel, f, v) - Arriving(states, kernel, g, v))
         <= Arriving(states, kernel, Difference(f, g), v)
  {
    var a, b := Column(Flow(kernel, f), v), Column(Flow(kernel, g), v);
    var c := Column(Flow(kernel, Difference(f, g)), v);
    var gap := u => a(u) - b(u);
    hide Sum, Stochastic;
    SumLinear(states, 1.0, a, -1.0, b, gap);
    forall u | u in states
      ensures Abs(gap(u)) <= c(u)
    {
      RowIsNonNegative(states, kernel, u, v);
      ScaledGap(f(u), g(u), kernel(u, v));
    }
    SumAbs(states, gap, c);
  }

  lemma StepDiffersBy<T>(states: set<T>, kernel: (T, T) -> real, t: Scores<T>, d: real, f: Scores<T>, g: Scores<T>, v: T)
    requires 0.0 <= d && v in states
    requires Stochastic(states, kernel)
    ensures Difference(Step(states, kernel, t, d, f), Step(states, kernel, t, d, g))(v)
         <= d * Arriving(states, kernel, Difference(f, g), v)
  {
    hide Step, Arriving, Stochastic, Abs;
    ArrivingDiffersBy(states, kernel, f, g, v);
    var base, x, y := (1.0 - d) * t(v), Arriving(states, kernel, f, v), Arriving(states, kernel, g, v);
    DampedGap(base, d, x, y, Arriving(states, kernel, Difference(f, g), v));
    StepAt(states, kernel, t, d, f, v, base, x);
    StepAt(states, kernel, t, d, g, v, base, y);
  }

  lemma StepAt<T>(states: set<T>, kernel: (T, T) -> real, t: Scores<T>, d: real, f: Scores<T>, v: T, base: real, x: real)
    requires base == (1.0 - d) * t(v) && x == Arriving(states, kernel, f, v)
    ensures Step(states, kernel, t, d, f)(v) == base + d * x
  {
  }

  lemma StepDistance<T>(states: set<T>, kernel: (T, T) -> real, t: Scores<T>, d: real, f: Scores<T>, g: Scores<T>,
                        arriving: Scores<T>)
    requires 0.0 <= d
    requires Stochastic(states, kernel)
    requires forall v :: v in states ==> arriving(v) == Arriving(states, kernel, Difference(f, g), v)
    ensures Distance(states, Step(states, kernel, t, d, f), Step(states, kernel, t, d, g))
         <= Sum(states, Scaled(d, arriving))
  {
    hide Sum, Stochastic, Abs, Step, Arriving;
    var a, b := Step(states, kernel, t, d, f), Step(states, kernel, t, d, g);
    forall v | v in states
      ensures Difference(a, b)(v) <= Scaled(d, arriving)(v)
    {
      StepDiffersBy(states, kernel, t, d, f, g, v);
    }
    SumMonotone(states, Difference(a, b), Scaled(d, arriving));
  }

  lemma ScaledArrivals<T>(states: set<T>, kernel: (T, T) -> real, d: real, f: Scores<T>, arriving: Scores<T>)
    requires Stochastic(states, kernel)
    requires forall v :: v in states ==> arriving(v) == Arriving(states, kernel, f, v)
    ensures Sum(states, Scaled(d, arriving)) == d * Sum(states, f)
  {
    SumScale(states, d, arriving, Scaled(d, arriving));
    NothingIsLost(states, kernel, f, arriving);
  }

  /** One step brings any two score assignments closer by the factor d. */
  lemma StepContracts<T>(states: set<T>, kernel: (T, T) -> real, t: Scores<T>, d: real, f: Scores<T>, g: Scores<T>)
    requires 0.0 <= d
    requires Stochastic(states, kernel)
    ensures Distance(states, Step(states, kernel, t, d, f), Step(states, kernel, t, d, g))
         <= d * Distance(states, f, g)
  {
    var arriving := v => Arriving(states, kernel, Difference(f, g), v);
    StepDistance(states, kernel, t, d, f, g, arriving);
    ScaledArrivals(states, kernel, d, Difference(f, g), arriving);
  }

  /** Distance is a pseudometric: the triangle inequality. */
  lemma DistanceTriangle<T>(states: set<T>, f: Scores<T>, g: Scores<T>, h: Scores<T>)
    ensures Distance(states, f, h) <= Distance(states, f, g) + Distance(states, g, h)
  {
    var both := v => Abs(f(v) - g(v)) + Abs(g(v) - h(v));
    SumLinear(states, 1.0, Difference(f, g), 1.0, Difference(g, h), both);
    SumMonotone(states, Difference(f, h), both);
  }

  lemma DistanceSymmetric<T>(states: set<T>, f: Scores<T>, g: Scores<T>)
    ensures Distance(states, f, g) == Distance(states, g, f) >= 0.0
  {
    SumCongruence(states, Difference(f, g), Difference(g, f));
    SumNonNegative(states, Difference(f, g));
  }

  /** Two distributions are never further apart than two. */
  lemma DistributionsAreClose<T>(states: set<T>, f: Scores<T>, g: Scores<T>)
    requires Distribution(states, f) && Distribution(states, g)
    ensures Distance(states, f, g) <= 2.0
  {
    var both := v => 1.0 * f(v) + 1.0 * g(v);
    SumLinear(states, 1.0, f, 1.0, g, both);
    SumMonotone(states, Difference(f, g), both);
  }

  lemma DistanceCongruence<T>(states: set<T>, f: Scores<T>, g: Scores<T>, f': Scores<T>, g': Scores<T>)
    requires forall v :: v in states ==> f(v) == f'(v) && g(v) == g'(v)
    ensures Distance(states, f, g) == Distance(states, f', g')
  {
    SumCongruence(states, Difference(f, g), Difference(f', g'));
  }

  lemma DistanceToSelf<T>(states: set<T>, f: Scores<T>)
    ensures Distance(states, f, f) == 0.0
  {
    SumConstant(states, 0.0, Difference(f, f));
  }

  lemma DistanceZero<T>(states: set<T>, f: Scores<T>, g: Scores<T>)
    requires Distance(states, f, g) <= 0.0
    ensures forall v :: v in states ==> f(v) == g(v)
  {
    SumNonNegative(states, Difference(f, g));
    forall v | v in states
      ensures f(v) == g(v)
    {
      assert Difference(f, g)(v) <= 0.0;
    }
  }
}

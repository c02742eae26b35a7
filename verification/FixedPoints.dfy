/**
 * A damped chain has a fixed distribution. The linear system that a fixed point solves is solved by eliminating one
 * state after the other, which works over any ordered field and so needs no limit of iterates.
 */
module FixedPoints {
  import opened Chains
  import opened PowerIteration
  import opened Sums

  /** Weights are non-negative and every row adds up to at most d. */
  ghost predicate Substochastic<T(!new)>(states: set<T>, a: (T, T) -> real, d: real) {
    && (forall u, v {:trigger a(u, v)} :: u in states && v in states ==> 0.0 <= a(u, v))
    && (forall u :: u in states ==> Sum(states, Row(a, u)) <= d)
  }

  ghost predicate Solves<T(!new)>(states: set<T>, a: (T, T) -> real, b: Scores<T>, p: Scores<T>) {
    forall v :: v in states ==> 0.0 <= p(v) && p(v) == b(v) + Arriving(states, a, p, v)
  }

  /** What remains of a row after eliminating x; w is the inverse of 1 - a(x, x). */
  function Eliminated<T(==)>(a: (T, T) -> real, x: T, w: real): (T, T) -> real {
    (u, v) => a(u, v) + a(u, x) * (w * a(x, v))
  }

  function EliminatedBase<T(==)>(a: (T, T) -> real, b: Scores<T>, x: T, w: real): Scores<T> {
    v => b(v) + b(x) * (w * a(x, v))
  }

  function With<T(==)>(p: Scores<T>, x: T, y: real): Scores<T> {
    v => if v == x then y else p(v)
  }

  lemma ProductSign(x: real, y: real)
    requires 0.0 <= x && 0.0 <= y
    ensures 0.0 <= x * y
  {
  }

  lemma ScaleMonotone(x: real, y: real, z: real)
    requires 0.0 <= x && y <= z
    ensures x * y <= x * z
  {
    ProductSign(x, z - y);
    assert x * (z - y) == x * z - x * y;
  }

  /** A row holds its own diagonal entry and the rest. */
  lemma RowSplit<T(!new)>(states: set<T>, a: (T, T) -> real, d: real, u: T, x: T)
    requires Substochastic(states, a, d) && u in states && x in states
    ensures 0.0 <= a(u, x) && 0.0 <= Sum(states - {x}, Row(a, u))
    ensures a(u, x) + Sum(states - {x}, Row(a, u)) <= d
  {
    SumSplit(states, x, Row(a, u));
    SumNonNegative(states - {x}, Row(a, u));
  }

  /** What flows from x back into the rest is at most d times what did not stay at x. */
  lemma Redistributed(axx: real, rest: real, d: real, w: real)
    requires 0.0 <= axx && 0.0 <= rest && axx + rest <= d < 1.0 && w * (1.0 - axx) == 1.0 && 0.0 <= w
    ensures w * rest <= 1.0
  {
    ScaleMonotone(w, rest, 1.0 - axx);
  }

  lemma EliminatedIsSubstochastic<T(!new)>(states: set<T>, a: (T, T) -> real, d: real, x: T, w: real)
    requires Substochastic(states, a, d) && d < 1.0 && x in states
    requires w * (1.0 - a(x, x)) == 1.0 && 0.0 <= w
    ensures Substochastic(states - {x}, Eliminated(a, x, w), d)
  {
    var rest := states - {x};
    EliminatedIsNonNegative(states, a, d, x, w);
    AwayIsSmall(states, a, d, x, w);
    hide Sum, Row, Eliminated;
    forall u | u in rest
      ensures Sum(rest, Row(Eliminated(a, x, w), u)) <= d
    {
      EliminatedRowIsSmall(states, a, d, x, w, u, w * Sum(rest, Row(a, x)));
    }
  }

  lemma EliminatedIsNonNegative<T(!new)>(states: set<T>, a: (T, T) -> real, d: real, x: T, w: real)
    requires Substochastic(states, a, d) && x in states && 0.0 <= w
    ensures forall u, v {:trigger Eliminated(a, x, w)(u, v)} :: u in states && v in states ==> 0.0 <= Eliminated(a, x, w)(u, v)
  {
    hide Sum;
    forall u, v | u in states && v in states
      ensures 0.0 <= Eliminated(a, x, w)(u, v)
    {
      ProductSign(w, a(x, v));
      ProductSign(a(u, x), w * a(x, v));
    }
  }

  /** What returns by way of x is no more than what went there. */
  lemma AwayIsSmall<T(!new)>(states: set<T>, a: (T, T) -> real, d: real, x: T, w: real)
    requires Substochastic(states, a, d) && d < 1.0 && x in states
    requires w * (1.0 - a(x, x)) == 1.0 && 0.0 <= w
    ensures w * Sum(states - {x}, Row(a, x)) <= 1.0
  {
    RowSplit(states, a, d, x, x);
    Redistributed(a(x, x), Sum(states - {x}, Row(a, x)), d, w);
  }

  lemma EliminatedRowIsSmall<T(!new)>(states: set<T>, a: (T, T) -> real, d: real, x: T, w: real, u: T, away: real)
    requires Substochastic(states, a, d) && x in states && u in states
    requires away == w * Sum(states - {x}, Row(a, x)) <= 1.0
    ensures Sum(states - {x}, Row(Eliminated(a, x, w), u)) <= d
  {
    hide Sum, Substochastic, Row, Eliminated;
    var rest := states - {x};
    RowSplit(states, a, d, u, x);
    EliminatedRow(rest, a, x, w, u, away);
    Detour(Sum(rest, Row(a, u)), a(u, x), away, a(u, x) * away, d, Sum(rest, Row(Eliminated(a, x, w), u)));
  }

  lemma Detour(direct: real, back: real, away: real, detour: real, d: real, total: real)
    requires 0.0 <= back && away <= 1.0 && back + direct <= d && detour == back * away && total == direct + detour
    ensures total <= d
  {
    ScaleMonotone(back, away, 1.0);
  }

  lemma EliminatedRow<T(!new)>(rest: set<T>, a: (T, T) -> real, x: T, w: real, u: T, away: real)
    requires away == w * Sum(rest, Row(a, x))
    ensures Sum(rest, Row(Eliminated(a, x, w), u)) == Sum(rest, Row(a, u)) + a(u, x) * away
  {
    hide Sum;
    var back := v => w * a(x, v);
    SumScale(rest, w, Row(a, x), back);
    SumLinear(rest, 1.0, Row(a, u), a(u, x), back, Row(Eliminated(a, x, w), u));
  }

  /** What arrives at v in the eliminated system: directly, and by way of x. */
  lemma EliminatedArrivals<T(!new)>(rest: set<T>, a: (T, T) -> real, x: T, w: real, p: Scores<T>, v: T, r: real)
    requires r == w * a(x, v)
    ensures Arriving(rest, Eliminated(a, x, w), p, v) == Arriving(rest, a, p, v) + r * Arriving(rest, a, p, x)
  {
    hide Sum;
    forall u | u in rest
      ensures Column(Flow(Eliminated(a, x, w), p), v)(u)
           == 1.0 * Column(Flow(a, p), v)(u) + r * Column(Flow(a, p), x)(u)
    {
      assert Eliminated(a, x, w)(u, v) == a(u, v) + a(u, x) * r;
      Expand(p(u), a(u, v), a(u, x), r);
    }
    SumLinear(rest, 1.0, Column(Flow(a, p), v), r, Column(Flow(a, p), x), Column(Flow(Eliminated(a, x, w), p), v));
  }

  lemma Expand(p: real, direct: real, back: real, r: real)
    ensures p * (direct + back * r) == p * direct + r * (p * back)
  {
  }

  /** Putting x back. */
  lemma ArrivalsWith<T(!new)>(states: set<T>, a: (T, T) -> real, p: Scores<T>, x: T, y: real, v: T)
    requires x in states
    ensures Arriving(states, a, With(p, x, y), v) == y * a(x, v) + Arriving(states - {x}, a, p, v)
  {
    hide Sum;
    SumSplit(states, x, Column(Flow(a, With(p, x, y)), v));
    assert Column(Flow(a, With(p, x, y)), v)(x) == y * a(x, v);
    SumCongruence(states - {x}, Column(Flow(a, With(p, x, y)), v), Column(Flow(a, p), v));
  }

  lemma ArrivingIsNonNegativeOn<T(!new)>(rest: set<T>, a: (T, T) -> real, p: Scores<T>, v: T)
    requires forall u :: u in rest ==> 0.0 <= p(u) && 0.0 <= a(u, v)
    ensures 0.0 <= Arriving(rest, a, p, v)
  {
    forall u | u in rest
      ensures 0.0 <= Column(Flow(a, p), v)(u)
    {
      ProductSign(p(u), a(u, v));
    }
    SumNonNegative(rest, Column(Flow(a, p), v));
  }

  /** Back substitution for another state, and for x itself. */
  lemma SubstituteBack(bv: real, bx: real, axv: real, w: real, av: real, ax: real)
    ensures (bv + bx * (w * axv)) + (av + (w * axv) * ax) == bv + ((w * (bx + ax)) * axv + av)
  {
  }

  lemma SubstituteSelf(bx: real, ax: real, axx: real, w: real)
    requires w * (1.0 - axx) == 1.0
    ensures w * (bx + ax) == bx + ((w * (bx + ax)) * axx + ax)
  {
    var s := bx + ax;
    assert (w * s) * (1.0 - axx) == s * (w * (1.0 - axx)) == s;
    assert (w * s) * (1.0 - axx) == w * s - (w * s) * axx;
  }

  lemma {:induction false} Solve<T(!new)>(states: set<T>, a: (T, T) -> real, b: Scores<T>, d: real) returns (p: Scores<T>)
    requires Substochastic(states, a, d) && d < 1.0 && forall v :: v in states ==> 0.0 <= b(v)
    ensures Solves(states, a, b, p)
    decreases states
  {
    hide Substochastic, Sum;
    if states == {} {
      p := b;
    } else {
      var x :| x in states;
      var rest := states - {x};
      DiagonalIsSmall(states, a, d, x);
      var w := 1.0 / (1.0 - a(x, x));
      assert w * (1.0 - a(x, x)) == 1.0 && 0.0 <= w;
      EliminatedIsSubstochastic(states, a, d, x, w);
      EliminatedBaseIsNonNegative(states, a, b, d, x, w);
      var q := Solve(rest, Eliminated(a, x, w), EliminatedBase(a, b, x, w), d);
      var y := w * (b(x) + Arriving(rest, a, q, x));
      p := With(q, x, y);
      PutBack(states, a, b, d, x, w, q, y);
    }
  }

  lemma DiagonalIsSmall<T(!new)>(states: set<T>, a: (T, T) -> real, d: real, x: T)
    requires Substochastic(states, a, d) && x in states
    ensures 0.0 <= a(x, x) <= d
  {
    RowSplit(states, a, d, x, x);
  }

  lemma EliminatedBaseIsNonNegative<T(!new)>(states: set<T>, a: (T, T) -> real, b: Scores<T>, d: real, x: T, w: real)
    requires Substochastic(states, a, d) && x in states && 0.0 <= w && forall v :: v in states ==> 0.0 <= b(v)
    ensures forall v :: v in states - {x} ==> 0.0 <= EliminatedBase(a, b, x, w)(v)
  {
    forall v | v in states - {x}
      ensures 0.0 <= EliminatedBase(a, b, x, w)(v)
    {
      ProductSign(w, a(x, v));
      ProductSign(b(x), w * a(x, v));
    }
  }

  lemma PutBack<T(!new)>(states: set<T>, a: (T, T) -> real, b: Scores<T>, d: real, x: T, w: real, q: Scores<T>,
                         y: real)
    requires Substochastic(states, a, d) && x in states && forall v :: v in states ==> 0.0 <= b(v)
    requires w * (1.0 - a(x, x)) == 1.0 && 0.0 <= w
    requires Solves(states - {x}, Eliminated(a, x, w), EliminatedBase(a, b, x, w), q)
    requires y == w * (b(x) + Arriving(states - {x}, a, q, x))
    ensures Solves(states, a, b, With(q, x, y))
  {
    hide Sum;
    var rest := states - {x};
    var ax := Arriving(rest, a, q, x);
    var p := With(q, x, y);
    ArrivingIsNonNegativeOn(rest, a, q, x);
    ProductSign(w, b(x) + ax);
    forall v | v in states
      ensures 0.0 <= p(v) && p(v) == b(v) + Arriving(states, a, p, v)
    {
      ArrivalsWith(states, a, q, x, y, v);
      if v == x {
        SubstituteSelf(b(x), ax, a(x, x), w);
      } else {
        EliminatedArrivals(rest, a, x, w, q, v, w * a(x, v));
        SubstituteBack(b(v), b(x), a(x, v), w, Arriving(rest, a, q, v), ax);
      }
    }
  }

  /** A damped chain has a fixed distribution; by FixedPointIsUnique it is the only fixed point there is. */
  lemma FixedDistributionExists<T(!new)>(c: Chain<T>) returns (p: Scores<T>)
    requires c.Valid() && c.damping < 1.0
    ensures c.Fixed(p) && Distribution(c.states, p)
  {
    var d := c.damping;
    var a := (u, v) => d * c.kernel(u, v);
    var b := v => (1.0 - d) * c.teleport(v);
    DampedIsSubstochastic(c, a);
    forall v | v in c.states
      ensures 0.0 <= b(v)
    {
      ProductSign(1.0 - d, c.teleport(v));
    }
    p := Solve(c.states, a, b, d);
    forall v | v in c.states
      ensures c.Next(p)(v) == p(v)
    {
      FixedAt(c, a, p, v, b(v));
    }
    FixedSumsToOne(c, p);
  }

  lemma DampedIsSubstochastic<T(!new)>(c: Chain<T>, a: (T, T) -> real)
    requires c.Valid() && forall u, v {:trigger a(u, v)} :: a(u, v) == c.damping * c.kernel(u, v)
    ensures Substochastic(c.states, a, c.damping)
  {
    forall u, v | u in c.states && v in c.states
      ensures 0.0 <= a(u, v)
    {
      RowIsNonNegative(c.states, c.kernel, u, v);
      ProductSign(c.damping, c.kernel(u, v));
    }
    forall u | u in c.states
      ensures Sum(c.states, Row(a, u)) <= c.damping
    {
      SumScale(c.states, c.damping, Row(c.kernel, u), Row(a, u));
    }
  }

  lemma FixedAt<T(!new)>(c: Chain<T>, a: (T, T) -> real, p: Scores<T>, v: T, base: real)
    requires forall u, v {:trigger a(u, v)} :: a(u, v) == c.damping * c.kernel(u, v)
    requires base == (1.0 - c.damping) * c.teleport(v) && p(v) == base + Arriving(c.states, a, p, v)
    ensures c.Next(p)(v) == p(v)
  {
    hide Arriving, Step;
    var x := Arriving(c.states, c.kernel, p, v);
    DampedArrivals(c.states, c.kernel, c.damping, a, p, v, c.damping * x);
    StepAt(c.states, c.kernel, c.teleport, c.damping, p, v, base, x);
  }

  lemma DampedArrivals<T(!new)>(states: set<T>, kernel: (T, T) -> real, d: real, a: (T, T) -> real, p: Scores<T>, v: T,
                                damped: real)
    requires forall u, v {:trigger a(u, v)} :: a(u, v) == d * kernel(u, v)
    requires damped == d * Arriving(states, kernel, p, v)
    ensures Arriving(states, a, p, v) == damped
  {
    forall u | u in states
      ensures Column(Flow(a, p), v)(u) == d * Column(Flow(kernel, p), v)(u)
    {
      Expand(p(u), 0.0, kernel(u, v), d);
    }
    SumScale(states, d, Column(Flow(kernel, p), v), Column(Flow(a, p), v));
  }

  lemma FixedSumsToOne<T(!new)>(c: Chain<T>, p: Scores<T>)
    requires c.Valid() && c.damping < 1.0 && forall v :: v in c.states ==> c.Next(p)(v) == p(v)
    ensures Sum(c.states, p) == 1.0
  {
    StepConservesMass(c.states, c.kernel, c.teleport, c.damping, p);
    SumCongruence(c.states, c.Next(p), p);
    OnlyOne(c.damping, Sum(c.states, p));
  }

  lemma OnlyOne(d: real, total: real)
    requires d < 1.0 && total == (1.0 - d) + d * total
    ensures total == 1.0
  {
    Parts(d, 1.0 - d, total, d * total, (1.0 - d) * total);
    Cancel(d, 1.0 - d, total, d * total, (1.0 - d) * total);
  }

  lemma Parts(d: real, e: real, x: real, dx: real, ex: real)
    requires e == 1.0 - d && dx == d * x && ex == e * x
    ensures ex == x - dx
  {
  }

  lemma Cancel(d: real, e: real, x: real, dx: real, ex: real)
    requires d < 1.0 && e == 1.0 - d && x == e + dx && ex == x - dx && ex == e * x
    ensures x == 1.0
  {
    CancelFactor(e, x, ex);
  }

  lemma LessOne(e: real, x: real)
    ensures e * (x - 1.0) == e * x - e
    ensures e * (1.0 - x) == e - e * x
  {
  }

  lemma CancelFactor(e: real, x: real, ex: real)
    requires 0.0 < e && ex == e * x && ex == e
    ensures x == 1.0
  {
    if x > 1.0 {
      PositiveProduct(e, x - 1.0);
      LessOne(e, x);
    } else if x < 1.0 {
      PositiveProduct(e, 1.0 - x);
      LessOne(e, x);
    }
  }
}

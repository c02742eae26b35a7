/** Sums of reals over finite sets, independent of the order in which a loop visits the set. */
module Sums {

  ghost function Sum<T>(s: set<T>, f: T -> real): real {
    if s == {} then 0.0 else
      var x :| x in s;
      f(x) + Sum(s - {x}, f)
  }

  function Abs(x: real): (r: real)
    ensures r >= 0.0 && r >= x && r >= -x
  {
    if x < 0.0 then -x else x
  }

  lemma SumEmpty<T>(f: T -> real)
    ensures Sum({}, f) == 0.0
  {
  }

  /** Any element may be taken out first. */
  lemma {:induction false} SumSplit<T>(s: set<T>, x: T, f: T -> real)
    requires x in s
    ensures Sum(s, f) == f(x) + Sum(s - {x}, f)
  {
    var y :| y in s && Sum(s, f) == f(y) + Sum(s - {y}, f);
    if x != y {
      SumSplit(s - {y}, x, f);
      SumSplit(s - {x}, y, f);
      assert s - {y} - {x} == s - {x} - {y};
    }
  }

  lemma {:induction false} SumCongruence<T>(s: set<T>, f: T -> real, g: T -> real)
    requires forall x :: x in s ==> f(x) == g(x)
    ensures Sum(s, f) == Sum(s, g)
  {
    if s != {} {
      var x :| x in s;
      SumSplit(s, x, f);
      SumSplit(s, x, g);
      SumCongruence(s - {x}, f, g);
    }
  }

  lemma {:induction false} SumMonotone<T>(s: set<T>, f: T -> real, g: T -> real)
    requires forall x :: x in s ==> f(x) <= g(x)
    ensures Sum(s, f) <= Sum(s, g)
  {
    if s != {} {
      var x :| x in s;
      SumSplit(s, x, f);
      SumSplit(s, x, g);
      SumMonotone(s - {x}, f, g);
    }
  }

  lemma {:induction false} SumNonNegative<T>(s: set<T>, f: T -> real)
    requires forall x :: x in s ==> 0.0 <= f(x)
    ensures 0.0 <= Sum(s, f)
    ensures forall x :: x in s ==> f(x) <= Sum(s, f)
  {
    forall x | x in s
      ensures f(x) <= Sum(s, f)
    {
      SumSplit(s, x, f);
      SumNonNegative(s - {x}, f);
    }
  }

  /** A sum is linear: h = c * f + d * g pointwise carries over to the sums. */
  lemma {:induction false} SumLinear<T>(s: set<T>, c: real, f: T -> real, d: real, g: T -> real, h: T -> real)
    requires forall x :: x in s ==> h(x) == c * f(x) + d * g(x)
    ensures Sum(s, h) == c * Sum(s, f) + d * Sum(s, g)
  {
    hide Sum;
    if s == {} {
      SumEmpty(f);
      SumEmpty(g);
      SumEmpty(h);
    } else {
      var x :| x in s;
      SumSplit(s, x, f);
      SumSplit(s, x, g);
      SumSplit(s, x, h);
      SumLinear(s - {x}, c, f, d, g, h);
      AddTerms(c, f(x), Sum(s - {x}, f), d, g(x), Sum(s - {x}, g));
    }
  }

  lemma AddTerms(c: real, x: real, xs: real, d: real, y: real, ys: real)
    ensures (c * x + d * y) + (c * xs + d * ys) == c * (x + xs) + d * (y + ys)
  {
    Distribute(c, x, xs);
    Distribute(d, y, ys);
  }

  lemma Distribute(c: real, x: real, y: real)
    ensures c * (x + y) == c * x + c * y
  {
  }

  lemma {:induction false} SumScale<T>(s: set<T>, c: real, f: T -> real, h: T -> real)
    requires forall x :: x in s ==> h(x) == c * f(x)
    ensures Sum(s, h) == c * Sum(s, f)
  {
    SumLinear(s, c, f, 0.0, f, h);
  }

  lemma SumCombination<T>(s: set<T>, d: real, f: T -> real, c: real, g: T -> real, h: T -> real)
    requires forall x :: x in s ==> d * f(x) == c * g(x) + h(x)
    ensures d * Sum(s, f) == c * Sum(s, g) + Sum(s, h)
  {
    var scaled := x => d * f(x);
    SumScale(s, d, f, scaled);
    SumLinear(s, c, g, 1.0, h, scaled);
  }

  lemma {:induction false} SumConstant<T>(s: set<T>, c: real, f: T -> real)
    requires forall x :: x in s ==> f(x) == c
    ensures Sum(s, f) == c * |s| as real
  {
    if s != {} {
      var x :| x in s;
      SumSplit(s, x, f);
      SumConstant(s - {x}, c, f);
      Distribute(c, 1.0, |s - {x}| as real);
    }
  }

  /** Terms that vanish outside sub do not contribute. */
  lemma {:induction false} SumSupport<T>(s: set<T>, sub: set<T>, f: T -> real)
    requires sub <= s
    requires forall x :: x in s - sub ==> f(x) == 0.0
    ensures Sum(s, f) == Sum(sub, f)
  {
    if s != sub {
      var x :| x in s && x !in sub;
      SumSplit(s, x, f);
      SumSupport(s - {x}, sub, f);
    }
  }

  /** The triangle inequality for finite sums. */
  lemma {:induction false} SumAbs<T>(s: set<T>, f: T -> real, g: T -> real)
    requires forall x :: x in s ==> Abs(f(x)) <= g(x)
    ensures Abs(Sum(s, f)) <= Sum(s, g)
  {
    if s != {} {
      var x :| x in s;
      SumSplit(s, x, f);
      SumSplit(s, x, g);
      SumAbs(s - {x}, f, g);
    }
  }

  function Row<T, U>(f: (T, U) -> real, u: T): U -> real {
    v => f(u, v)
  }

  function Column<T, U>(f: (T, U) -> real, v: U): T -> real {
    u => f(u, v)
  }

  /** Adding up a table by rows or by columns gives the same total. */
  lemma {:induction false} SumByRowsOrColumns<T, U>(a: set<T>, b: set<U>, f: (T, U) -> real, row: T -> real, column: U -> real)
    requires forall u :: u in a ==> row(u) == Sum(b, Row(f, u))
    requires forall v :: v in b ==> column(v) == Sum(a, Column(f, v))
    ensures Sum(a, row) == Sum(b, column)
  {
    hide Sum;
    if a == {} {
      SumEmpty(row);
      forall v | v in b
        ensures column(v) == 0.0
      {
        SumEmpty(Column(f, v));
      }
      SumConstant(b, 0.0, column);
    } else {
      var x :| x in a;
      var rest := v => Sum(a - {x}, Column(f, v));
      SumSplit(a, x, row);
      SumByRowsOrColumns(a - {x}, b, f, row, rest);
      forall v | v in b
        ensures column(v) == 1.0 * Row(f, x)(v) + 1.0 * rest(v)
      {
        SumSplit(a, x, Column(f, v));
      }
      SumLinear(b, 1.0, Row(f, x), 1.0, rest, column);
    }
  }
}

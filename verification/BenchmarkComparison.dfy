/** `compareBenchmark` in exact arithmetic: returns, drawdown and relative-risk statistics of an account
    against a price index over matched sessions. */
module BenchmarkComparison {
  import opened Prelude

  // ---------- sums ----------

  function Sum(xs: seq<real>): real {
    if xs == [] then 0.0 else xs[0] + Sum(xs[1..])
  }

  function Mean(xs: seq<real>): real
    requires xs != []
  {
    Over(Sum(xs), |xs|)
  }

  function Dot(xs: seq<real>, ys: seq<real>): real
    requires |xs| == |ys|
  {
    if xs == [] then 0.0 else Times(xs[0], ys[0]) + Dot(xs[1..], ys[1..])
  }

  function Less(x: real, t: real, y: real): real {
    x - t * y
  }

  /** xs - t * ys, term by term. */
  function Minus(xs: seq<real>, t: real, ys: seq<real>): (r: seq<real>)
    requires |xs| == |ys|
    ensures |r| == |xs|
  {
    seq(|xs|, i requires 0 <= i < |xs| => Less(xs[i], t, ys[i]))
  }

  function Centered(xs: seq<real>, m: real): (r: seq<real>)
    ensures |r| == |xs|
  {
    seq(|xs|, i requires 0 <= i < |xs| => xs[i] - m)
  }

  function Over(x: real, n: int): real
    requires n > 0
  {
    x / n as real
  }

  /** Sample covariance: the n - 1 denominator. */
  function Covariance(xs: seq<real>, ys: seq<real>): real
    requires |xs| == |ys| >= 2
  {
    Over(Dot(Centered(xs, Mean(xs)), Centered(ys, Mean(ys))), |xs| - 1)
  }

  function Variance(xs: seq<real>): real
    requires |xs| >= 2
  {
    Covariance(xs, xs)
  }

  predicate Positive(levels: seq<real>) {
    forall i | 0 <= i < |levels| :: levels[i] > 0.0
  }

  function Returns(levels: seq<real>): (r: seq<real>)
    requires Positive(levels)
    ensures |r| == if levels == [] then 0 else |levels| - 1
  {
    seq(if levels == [] then 0 else |levels| - 1,
        i requires 0 <= i && i + 1 < |levels| => levels[i + 1] / levels[i] - 1.0)
  }

  // ---------- drawdown ----------

  function Fall(levels: seq<real>, i: nat, j: nat): real
    requires i < |levels| && j < |levels| && levels[i] > 0.0
  {
    1.0 - levels[j] / levels[i]
  }

  lemma HigherPeakDeeper(x: real, low: real, high: real)
    requires x > 0.0 && 0.0 < low <= high
    ensures 1.0 - x / low <= 1.0 - x / high
  {
    var p, q := x / low, x / high;
    assert p * low == x && q * high == x;
    assert q > 0.0;
    Monotone(low, high, q);
    CancelFactor(q, p, low);
  }

  lemma CancelFactor(a: real, b: real, c: real)
    requires a * c <= b * c && c > 0.0
    ensures a <= b
  {
    if a > b {
      Scaled(b, a, c);
    }
  }

  lemma Scaled(a: real, b: real, c: real)
    requires a < b && c > 0.0
    ensures a * c < b * c
  {
  }

  /** The running peak finds the largest fall from any level to any later one. */
  method Drawdown(levels: seq<real>) returns (worst: real)
    requires Positive(levels)
    ensures forall i, j | 0 <= i <= j < |levels| :: Fall(levels, i, j) <= worst
    ensures if levels == [] then worst == 0.0 else exists i, j :: 0 <= i <= j < |levels| && worst == Fall(levels, i, j)
    ensures 0.0 <= worst < 1.0
  {
    worst := 0.0;
    if levels == [] {
      return;
    }
    var peak := levels[0];
    ghost var top, from', to' := 0, 0, 0;
    for n := 0 to |levels|
      invariant 0 <= top < |levels| && peak == levels[top] > 0.0 && (n > 0 ==> top < n) && (n == 0 ==> top == 0)
      invariant forall i | 0 <= i < n :: levels[i] <= peak
      invariant forall i, j | 0 <= i <= j < n :: Fall(levels, i, j) <= worst
      invariant 0 <= from' <= to' < |levels| && worst == Fall(levels, from', to')
      invariant 0.0 <= worst < 1.0
    {
      var x := levels[n];
      if x > peak {
        peak, top := x, n;
      }
      var fall := 1.0 - x / peak;
      assert x / peak > 0.0;
      forall i | 0 <= i <= n ensures Fall(levels, i, n) <= fall {
        HigherPeakDeeper(x, levels[i], peak);
      }
      if fall > worst {
        worst, from', to' := fall, top, n;
      }
    }
  }

  /** With a worst fall w, no level is ever below 1 - w times an earlier one. */
  lemma WorstFallKeeps(levels: seq<real>, worst: real, i: nat, j: nat)
    requires Positive(levels) && i <= j < |levels|
    requires forall i, j | 0 <= i <= j < |levels| :: Fall(levels, i, j) <= worst
    ensures levels[j] >= Times(1.0 - worst, levels[i])
  {
    var ratio := levels[j] / levels[i];
    assert Fall(levels, i, j) == 1.0 - ratio && ratio * levels[i] == levels[j];
    Monotone(1.0 - worst, ratio, levels[i]);
  }

  // ---------- algebra of sums ----------

  lemma {:induction false} DotSelf(xs: seq<real>)
    ensures Dot(xs, xs) >= 0.0
    decreases |xs|
  {
    hide Times;
    if xs != [] {
      DotSelf(xs[1..]);
      Square(xs[0]);
    }
  }

  lemma {:induction false} DotPositive(xs: seq<real>, i: nat)
    requires i < |xs| && xs[i] != 0.0
    ensures Dot(xs, xs) > 0.0
    decreases |xs|
  {
    hide Times;
    Square(xs[0]);
    DotSelf(xs[1..]);
    if i > 0 {
      DotPositive(xs[1..], i - 1);
    }
  }

  lemma Square(x: real)
    ensures Times(x, x) >= 0.0
    ensures x != 0.0 ==> Times(x, x) > 0.0
  {
    hide Times;
    if x == 0.0 {
      TimesZero(x, x);
    } else {
      SquarePositive(x);
    }
  }

  lemma SquarePositive(x: real)
    requires x != 0.0
    ensures Times(x, x) > 0.0
  {
    if x > 0.0 {
      PositiveProduct(x, x, Times(x, x));
    } else {
      PositiveProduct(-x, -x, Times(x, x));
    }
  }

  lemma PositiveProduct(x: real, y: real, product: real)
    requires x > 0.0 && y > 0.0 && product == x * y
    ensures product > 0.0
  {
  }

  lemma {:induction false} DotZero(xs: seq<real>, ys: seq<real>)
    requires |xs| == |ys| && Dot(ys, ys) == 0.0
    ensures Dot(xs, ys) == 0.0
    decreases |xs|
  {
    hide Times;
    if xs != [] {
      if ys[0] != 0.0 {
        DotPositive(ys, 0);
      }
      TimesZero(ys[0], ys[0]);
      DotZero(xs[1..], ys[1..]);
      TimesZero(xs[0], ys[0]);
    }
  }

  lemma TimesZero(x: real, y: real)
    requires y == 0.0
    ensures Times(x, y) == 0.0 && x * y == 0.0
  {
  }

  lemma MinusTail(xs: seq<real>, t: real, ys: seq<real>)
    requires |xs| == |ys| > 0
    ensures Minus(xs, t, ys)[0] == xs[0] - t * ys[0]
    ensures Minus(xs, t, ys)[1..] == Minus(xs[1..], t, ys[1..])
  {
    hide Less;
    assert Minus(xs, t, ys)[1..] == Minus(xs[1..], t, ys[1..]);
    assert Minus(xs, t, ys)[0] == Less(xs[0], t, ys[0]);
    LessIs(xs[0], t, ys[0]);
  }

  lemma LessIs(x: real, t: real, y: real)
    ensures Less(x, t, y) == x - t * y
  {
  }

  /** The square of x - t*y, expanded. */
  lemma {:induction false} DotMinus(xs: seq<real>, t: real, ys: seq<real>)
    requires |xs| == |ys|
    ensures Dot(Minus(xs, t, ys), Minus(xs, t, ys))
         == Dot(xs, xs) - 2.0 * t * Dot(xs, ys) + t * t * Dot(ys, ys)
    decreases |xs|
  {
    hide Minus, Times;
    if xs != [] {
      DotMinus(xs[1..], t, ys[1..]);
      MinusTail(xs, t, ys);
      var d := Minus(xs, t, ys);
      assert Dot(d, d) == Times(d[0], d[0]) + Dot(d[1..], d[1..]);
      SquareOfDifference(xs[0], t, ys[0], d[0]);
      Spread(2.0 * t, Dot(xs, ys), Times(xs[0], ys[0]), Dot(xs[1..], ys[1..]));
      Spread(t * t, Dot(ys, ys), Times(ys[0], ys[0]), Dot(ys[1..], ys[1..]));
    }
  }

  lemma SquareOfDifference(x: real, t: real, y: real, d: real)
    requires d == x - t * y
    ensures Times(d, d) == Times(x, x) - 2.0 * t * Times(x, y) + t * t * Times(y, y)
  {
    var u := t * y;
    assert (x - u) * (x - u) == x * x - 2.0 * (x * u) + u * u;
    assert x * u == t * (x * y);
    assert u * u == t * t * (y * y);
  }

  lemma Spread(t: real, d: real, a: real, b: real)
    requires d == a + b
    ensures t * d == t * a + t * b
  {
  }

  /** Cauchy-Schwarz. */
  lemma CauchySchwarz(xs: seq<real>, ys: seq<real>)
    requires |xs| == |ys|
    ensures Dot(xs, ys) * Dot(xs, ys) <= Dot(xs, xs) * Dot(ys, ys)
  {
    hide Dot, Minus;
    DotSelf(xs);
    DotSelf(ys);
    if Dot(ys, ys) == 0.0 {
      DotZero(xs, ys);
      TimesZero(Dot(xs, ys), Dot(xs, ys));
      TimesZero(Dot(xs, xs), Dot(ys, ys));
    } else {
      var t := Dot(xs, ys) / Dot(ys, ys);
      DotMinus(xs, t, ys);
      DotSelf(Minus(xs, t, ys));
      Discriminant(Dot(xs, xs), Dot(xs, ys), Dot(ys, ys), t);
    }
  }

  lemma Discriminant(xx: real, xy: real, yy: real, t: real)
    requires yy > 0.0 && t * yy == xy && xx - 2.0 * t * xy + t * t * yy >= 0.0
    ensures xy * xy <= xx * yy
  {
    assert t * t * yy == t * xy;
    assert (xx - t * xy) * yy >= 0.0;
    assert (xx - t * xy) * yy == xx * yy - xy * (t * yy);
  }

  // ---------- covariance ----------

  /** In exact arithmetic the squared covariance is at most the product of the variances. */
  lemma CovarianceBounded(xs: seq<real>, ys: seq<real>)
    requires |xs| == |ys| >= 2
    ensures Covariance(xs, ys) * Covariance(xs, ys) <= Variance(xs) * Variance(ys)
    ensures Variance(xs) >= 0.0 && Variance(ys) >= 0.0
  {
    hide Dot, Centered, Mean, Over;
    var a, b := Centered(xs, Mean(xs)), Centered(ys, Mean(ys));
    CauchySchwarz(a, b);
    DotSelf(a);
    DotSelf(b);
    Divided(Dot(a, b), Dot(a, a), Dot(b, b), |xs| - 1, Covariance(xs, ys), Variance(xs), Variance(ys));
  }

  lemma Divided(xy: real, xx: real, yy: real, n: int, c: real, a: real, b: real)
    requires n > 0 && xy * xy <= xx * yy && xx >= 0.0 && yy >= 0.0
    requires c == Over(xy, n) && a == Over(xx, n) && b == Over(yy, n)
    ensures c * c <= a * b && a >= 0.0 && b >= 0.0
  {
    var k := 1.0 / n as real;
    assert c == xy * k && a == xx * k && b == yy * k;
    assert k * k > 0.0;
    assert (xy * k) * (xy * k) == xy * xy * (k * k);
    assert (xx * k) * (yy * k) == xx * yy * (k * k);
    Monotone(xy * xy, xx * yy, k * k);
  }

  lemma Monotone(a: real, b: real, c: real)
    requires a <= b && c > 0.0
    ensures a * c <= b * c
  {
  }

  function Clamp(x: real): real {
    var capped := if 1.0 < x then 1.0 else x;
    if -1.0 > capped then -1.0 else capped
  }

  /** The clamp of the correlation never changes the value: with the exact root of the product of the
      variances, the ratio already lies between -1 and 1. */
  lemma ClampInert(xs: seq<real>, ys: seq<real>, root: real)
    requires |xs| == |ys| >= 2
    requires root > 0.0 && root * root == Variance(xs) * Variance(ys)
    ensures -1.0 <= Covariance(xs, ys) / root <= 1.0
    ensures Clamp(Covariance(xs, ys) / root) == Covariance(xs, ys) / root
  {
    CovarianceBounded(xs, ys);
    hide Covariance;
    RatioBounded(Covariance(xs, ys), root);
  }

  lemma RatioBounded(c: real, root: real)
    requires root > 0.0 && c * c <= root * root
    ensures -1.0 <= c / root <= 1.0
  {
    AtMostRoot(c, root);
    AtMostRoot(-c, root);
    var ratio := c / root;
    assert ratio * root == c;
    CancelFactor(ratio, 1.0, root);
    CancelFactor(-ratio, 1.0, root);
  }

  lemma AtMostRoot(c: real, root: real)
    requires root > 0.0 && c * c <= root * root
    ensures c <= root
  {
    if c > root {
      Monotone(root, c, root);
      Scaled(root, c, c);
    }
  }

  lemma CenteredMinus(xs: seq<real>, t: real, ys: seq<real>, m: real, k: real, c: real)
    requires |xs| == |ys| && c == m - t * k
    ensures Centered(Minus(xs, t, ys), c) == Minus(Centered(xs, m), t, Centered(ys, k))
  {
    forall i | 0 <= i < |xs|
      ensures Centered(Minus(xs, t, ys), c)[i] == Minus(Centered(xs, m), t, Centered(ys, k))[i]
    {
      assert t * (ys[i] - k) == t * ys[i] - t * k;
    }
  }

  lemma {:induction false} SumMinusScaled(xs: seq<real>, t: real, ys: seq<real>)
    requires |xs| == |ys|
    ensures Sum(Minus(xs, t, ys)) == Sum(xs) - t * Sum(ys)
    decreases |xs|
  {
    hide Minus;
    if xs != [] {
      SumMinusScaled(xs[1..], t, ys[1..]);
      MinusTail(xs, t, ys);
      assert t * (ys[0] + Sum(ys[1..])) == t * ys[0] + t * Sum(ys[1..]);
    }
  }

  lemma MeanMinus(xs: seq<real>, t: real, ys: seq<real>)
    requires |xs| == |ys| >= 1
    ensures Mean(Minus(xs, t, ys)) == Mean(xs) - t * Mean(ys)
  {
    hide Sum, Minus, Over;
    SumMinusScaled(xs, t, ys);
    MeanSplit(Sum(xs), Sum(ys), t, |xs|, Mean(ys), Sum(Minus(xs, t, ys)));
  }

  lemma MeanSplit(a: real, b: real, t: real, n: int, m: real, d: real)
    requires n > 0 && m == Over(b, n) && d == a - t * b
    ensures Over(d, n) == Over(a, n) - t * m
  {
    var k := 1.0 / n as real;
    assert Over(a, n) == a * k && m == b * k && Over(d, n) == (a - t * b) * k;
    assert t * (b * k) == t * b * k;
  }

  /** The variance of xs - t*ys. */
  lemma VarianceOfDifference(xs: seq<real>, t: real, ys: seq<real>)
    requires |xs| == |ys| >= 2
    ensures Variance(Minus(xs, t, ys)) == Variance(xs) - 2.0 * t * Covariance(xs, ys) + t * t * Variance(ys)
  {
    hide Mean, Centered, Minus, Dot, Over;
    MeanMinus(xs, t, ys);
    var a, b, m := Centered(xs, Mean(xs)), Centered(ys, Mean(ys)), Minus(xs, t, ys);
    CenteredMinus(xs, t, ys, Mean(xs), Mean(ys), Mean(m));
    DotMinus(a, t, b);
    Split(Dot(a, a), Dot(a, b), Dot(b, b), t, |xs| - 1, Variance(xs), Covariance(xs, ys), Variance(ys),
          Dot(Minus(a, t, b), Minus(a, t, b)));
  }

  lemma Split(xx: real, xy: real, yy: real, t: real, n: int, a: real, c: real, b: real, d: real)
    requires n > 0 && a == Over(xx, n) && c == Over(xy, n) && b == Over(yy, n)
    requires d == xx - 2.0 * t * xy + t * t * yy
    ensures Over(d, n) == a - 2.0 * t * c + t * t * b
  {
    var k := 1.0 / n as real;
    assert a == xx * k && c == xy * k && b == yy * k;
    assert Over(d, n) == (xx - 2.0 * t * xy + t * t * yy) * k;
    assert 2.0 * t * (xy * k) == 2.0 * t * xy * k && t * t * (yy * k) == t * t * yy * k;
  }

  /** The tracking variance is the account's variance plus the index's less twice their covariance. */
  lemma TrackingVariance(xs: seq<real>, ys: seq<real>)
    requires |xs| == |ys| >= 2
    ensures Variance(Minus(xs, 1.0, ys)) == Variance(xs) + Variance(ys) - 2.0 * Covariance(xs, ys)
  {
    hide Variance, Covariance, Minus;
    VarianceOfDifference(xs, 1.0, ys);
  }

  /** The reported beta is the slope that leaves the least variance unexplained. */
  lemma BetaIsLeastSquares(xs: seq<real>, ys: seq<real>, t: real)
    requires |xs| == |ys| >= 2 && Variance(ys) > 0.0
    ensures var beta := Covariance(xs, ys) / Variance(ys);
      Variance(Minus(xs, beta, ys)) <= Variance(Minus(xs, t, ys))
  {
    hide Covariance, Variance, Minus;
    var beta := Covariance(xs, ys) / Variance(ys);
    VarianceOfDifference(xs, beta, ys);
    VarianceOfDifference(xs, t, ys);
    LeastAtVertex(Variance(xs), Covariance(xs, ys), Variance(ys), beta, t);
  }

  lemma LeastAtVertex(a: real, c: real, b: real, beta: real, t: real)
    requires b > 0.0 && beta * b == c
    ensures a - 2.0 * beta * c + beta * beta * b <= a - 2.0 * t * c + t * t * b
  {
    var d := t - beta;
    Square(d);
    Monotone(0.0, d * d, b);
    assert d * d * b == t * t * b - 2.0 * t * (beta * b) + beta * (beta * b);
    assert beta * beta * b == beta * (beta * b);
  }

  // ---------- without mean or divisor ----------

  /** The products of the differences of one pair to all pairs of two series. */
  function Against(x: real, y: real, xs: seq<real>, ys: seq<real>): real
    requires |xs| == |ys|
  {
    if xs == [] then 0.0 else Times(x - xs[0], y - ys[0]) + Against(x, y, xs[1..], ys[1..])
  }

  /** And those of all pairs of us and vs. */
  function PairSum(us: seq<real>, vs: seq<real>, xs: seq<real>, ys: seq<real>): real
    requires |us| == |vs| && |xs| == |ys|
  {
    if us == [] then 0.0 else Against(us[0], vs[0], xs, ys) + PairSum(us[1..], vs[1..], xs, ys)
  }

  /** m balances the series: what lies above it and what lies below cancel. */
  ghost predicate IsMean(m: real, xs: seq<real>) {
    Sum(Centered(xs, m)) == 0.0
  }

  /** c is the sample covariance, told from the differences between the terms alone. */
  ghost predicate IsCovariance(c: real, xs: seq<real>, ys: seq<real>)
    requires |xs| == |ys|
  {
    Times(2.0 * (|xs| * (|xs| - 1)) as real, c) == PairSum(xs, ys, xs, ys)
  }

  lemma ProductOfDifferences(x: real, y: real, a: real, b: real)
    ensures Times(x - a, y - b) == Times(x, y) - Times(x, b) - Times(y, a) + Times(a, b)
  {
  }

  lemma Distribute(t: real, a: real, b: real, c: real)
    requires c == a + b
    ensures Times(t, c) == Times(t, a) + Times(t, b)
  {
  }

  lemma {:induction false} AgainstIs(x: real, y: real, xs: seq<real>, ys: seq<real>)
    requires |xs| == |ys|
    ensures Against(x, y, xs, ys)
         == Times(|xs| as real, Times(x, y)) - Times(x, Sum(ys)) - Times(y, Sum(xs)) + Dot(xs, ys)
    decreases |xs|
  {
    hide Times;
    if xs == [] {
      Zeros(Times(x, y), x, y);
    } else {
      AgainstIs(x, y, xs[1..], ys[1..]);
      ProductOfDifferences(x, y, xs[0], ys[0]);
      Distribute(x, ys[0], Sum(ys[1..]), Sum(ys));
      Distribute(y, xs[0], Sum(xs[1..]), Sum(xs));
      OneMore(|xs| - 1, Times(x, y));
    }
  }

  lemma Zeros(a: real, b: real, c: real)
    ensures Times(0.0, a) == 0.0 && Times(b, 0.0) == 0.0 && Times(c, 0.0) == 0.0
  {
  }

  lemma OneMore(n: nat, a: real)
    ensures Times((n + 1) as real, a) == Times(n as real, a) + a
  {
  }

  lemma {:induction false} PairSumIs(us: seq<real>, vs: seq<real>, xs: seq<real>, ys: seq<real>)
    requires |us| == |vs| && |xs| == |ys|
    ensures PairSum(us, vs, xs, ys)
         == Times(|xs| as real, Dot(us, vs)) - Times(Sum(ys), Sum(us)) - Times(Sum(xs), Sum(vs))
            + Times(|us| as real, Dot(xs, ys))
    decreases |us|
  {
    hide Times;
    if us == [] {
      Zeros(Dot(xs, ys), Sum(ys), Sum(xs));
      Zeros(0.0, |xs| as real, 0.0);
    } else {
      PairSumIs(us[1..], vs[1..], xs, ys);
      AgainstIs(us[0], vs[0], xs, ys);
      Distribute(|xs| as real, Times(us[0], vs[0]), Dot(us[1..], vs[1..]), Dot(us, vs));
      Distribute(Sum(ys), us[0], Sum(us[1..]), Sum(us));
      Distribute(Sum(xs), vs[0], Sum(vs[1..]), Sum(vs));
      Swap(us[0], Sum(ys));
      Swap(vs[0], Sum(xs));
      OneMore(|us| - 1, Dot(xs, ys));
    }
  }

  lemma Swap(a: real, b: real)
    ensures Times(a, b) == Times(b, a)
  {
  }

  lemma CenteredTail(xs: seq<real>, m: real)
    requires xs != []
    ensures Centered(xs, m)[0] == xs[0] - m && Centered(xs, m)[1..] == Centered(xs[1..], m)
  {
  }

  lemma {:induction false} SumCentered(xs: seq<real>, m: real)
    ensures Sum(Centered(xs, m)) == Sum(xs) - Times(|xs| as real, m)
    decreases |xs|
  {
    hide Times, Centered;
    if xs == [] {
      Zeros(m, 0.0, 0.0);
    } else {
      SumCentered(xs[1..], m);
      CenteredTail(xs, m);
      OneMore(|xs| - 1, m);
    }
  }

  lemma {:induction false} DotCentered(xs: seq<real>, m: real, ys: seq<real>, k: real)
    requires |xs| == |ys|
    ensures Dot(Centered(xs, m), Centered(ys, k))
         == Dot(xs, ys) - Times(k, Sum(xs)) - Times(m, Sum(ys)) + Times(|xs| as real, Times(m, k))
    decreases |xs|
  {
    hide Times, Centered;
    if xs == [] {
      Zeros(Times(m, k), k, m);
    } else {
      DotCentered(xs[1..], m, ys[1..], k);
      CenteredTail(xs, m);
      CenteredTail(ys, k);
      ProductOfDifferences(xs[0], ys[0], m, k);
      Distribute(k, xs[0], Sum(xs[1..]), Sum(xs));
      Distribute(m, ys[0], Sum(ys[1..]), Sum(ys));
      Swap(xs[0], k);
      Swap(ys[0], m);
      OneMore(|xs| - 1, Times(m, k));
    }
  }

  /** The mean balances its series. */
  lemma MeanBalances(xs: seq<real>)
    requires xs != []
    ensures IsMean(Mean(xs), xs)
  {
    SumCentered(xs, Mean(xs));
    hide Centered, Sum;
    Restores(Sum(xs), |xs|);
  }

  lemma Restores(x: real, n: nat)
    requires n > 0
    ensures Times(n as real, Over(x, n)) == x
  {
  }

  /** 2 n (n - 1) times the covariance is the sum, over all ordered pairs of sessions, of the product of the two
      series' differences between them. */
  lemma CovarianceExact(xs: seq<real>, ys: seq<real>)
    requires |xs| == |ys| >= 2
    ensures IsCovariance(Covariance(xs, ys), xs, ys)
  {
    var n := |xs|;
    var m, k := Mean(xs), Mean(ys);
    DotCentered(xs, m, ys, k);
    PairSumIs(xs, ys, xs, ys);
    hide Sum, Dot, Centered, PairSum;
    var d := Dot(Centered(xs, m), Centered(ys, k));
    Restores(Sum(xs), n);
    Restores(Sum(ys), n);
    Restores(d, n - 1);
    CenteredMoment(n as real, Dot(xs, ys), Sum(xs), Sum(ys), m, k, d);
    TwoFactors(n, Covariance(xs, ys), d);
  }

  lemma CenteredMoment(n: real, xy: real, sx: real, sy: real, m: real, k: real, d: real)
    requires Times(n, m) == sx && Times(n, k) == sy
    requires d == xy - Times(k, sx) - Times(m, sy) + Times(n, Times(m, k))
    ensures Times(2.0 * n, d) == Times(n, xy) - Times(sy, sx) - Times(sx, sy) + Times(n, xy)
  {
    assert n * (k * sx) == sy * sx && n * (m * sy) == sx * sy;
    assert n * (n * (m * k)) == (n * m) * (n * k);
    assert 2.0 * n * d == 2.0 * (n * xy) - 2.0 * (n * (k * sx)) - 2.0 * (n * (m * sy)) + 2.0 * (n * (n * (m * k)));
  }

  lemma TwoFactors(n: nat, c: real, d: real)
    requires n >= 2 && Times((n - 1) as real, c) == d
    ensures Times(2.0 * (n * (n - 1)) as real, c) == Times(2.0 * n as real, d)
  {
    assert (n * (n - 1)) as real == n as real * (n - 1) as real;
    assert 2.0 * (n as real * (n - 1) as real) * c == 2.0 * n as real * ((n - 1) as real * c);
  }

  // ---------- compounding ----------

  function Compound(rs: seq<real>): real {
    if rs == [] then 1.0 else (1.0 + rs[0]) * Compound(rs[1..])
  }

  lemma ReturnsTail(levels: seq<real>)
    requires |levels| > 1 && Positive(levels)
    ensures Positive(levels[1..])
    ensures Returns(levels) == [levels[1] / levels[0] - 1.0] + Returns(levels[1..])
  {
  }

  /** The daily returns compound to the reported total return. */
  lemma {:induction false} ReturnsCompound(levels: seq<real>)
    requires levels != [] && Positive(levels)
    ensures Compound(Returns(levels)) == levels[|levels| - 1] / levels[0]
    decreases |levels|
  {
    if |levels| > 1 {
      ReturnsTail(levels);
      hide Returns;
      var rest := levels[1..];
      ReturnsCompound(rest);
      assert ([levels[1] / levels[0] - 1.0] + Returns(rest))[1..] == Returns(rest);
      Chain(levels[0], levels[1], levels[|levels| - 1]);
    } else {
      assert levels[0] / levels[0] == 1.0;
    }
  }

  lemma Chain(a: real, b: real, c: real)
    requires a > 0.0 && b > 0.0
    ensures (1.0 + (b / a - 1.0)) * (c / b) == c / a
  {
    var p, q, r := b / a, c / b, c / a;
    assert p * a == b && q * b == c && r * a == c;
    assert (p * q) * a == q * (p * a);
    CancelFactor(p * q, r, a);
    CancelFactor(r, p * q, a);
  }

  // ---------- the comparison ----------

  /** One session of the report, for the chosen index; a missing mark or close is None. */
  datatype ComparedDay = ComparedDay(date: int, equity: Option<real>, close: Option<real>)

  datatype Figures = Figures(accountReturn: real, benchmarkReturn: real, excessReturn: real,
                             relativeWealthReturn: real, accountDrawdown: real, benchmarkDrawdown: real)

  datatype Risk = Risk(trackingError: real, informationRatio: Option<real>, beta: Option<real>,
                       correlation: Option<real>)

  /** The range is complete exactly when it has figures. */
  datatype Comparison = Comparison(intervals: nat, missingAccountDates: seq<int>, missingBenchmarkDates: seq<int>,
                                   figures: Option<Figures>, risk: Option<Risk>)

  const MIN_INTERVALS: nat := 20
  const SESSIONS_PER_YEAR: real := 252.0
  const TINY: real := 0.000000000000000000000001

  function Selected(days: seq<ComparedDay>, lookback: nat): seq<ComparedDay> {
    if |days| <= lookback + 1 then days else days[|days| - lookback - 1..]
  }

  /** The selected sessions are the last ones, as many as there are up to the lookback and its base. */
  lemma SelectedIsTail(days: seq<ComparedDay>, lookback: nat)
    ensures var r := Selected(days, lookback); |r| == Min(|days|, lookback + 1) && r == days[|days| - |r|..]
    ensures forall d | d in Selected(days, lookback) :: d in days
  {
  }

  lemma Recorded(days: seq<ComparedDay>)
    ensures forall i | 0 <= i < |days| :: Marks(days)[i] == days[i].equity && Closes(days)[i] == days[i].close
  {
  }

  lemma BothWhole(days: seq<ComparedDay>)
    ensures Whole(Marks(days)) && Whole(Closes(days))
       <==> forall i | 0 <= i < |days| :: days[i].equity.Some? && days[i].close.Some?
  {
    var a, b := Marks(days), Closes(days);
    assert forall i | 0 <= i < |days| :: a[i] == days[i].equity && b[i] == days[i].close;
    if Whole(a) && Whole(b) {
      forall i | 0 <= i < |days| ensures days[i].equity.Some? && days[i].close.Some? {
        assert a[i].Some? && b[i].Some?;
      }
    }
  }

  predicate PositiveWhereRecorded(days: seq<ComparedDay>) {
    forall d | d in days :: (d.equity.Some? ==> d.equity.value > 0.0) && (d.close.Some? ==> d.close.value > 0.0)
  }

  function Marks(days: seq<ComparedDay>): (r: seq<Option<real>>)
    ensures |r| == |days|
  {
    seq(|days|, i requires 0 <= i < |days| => days[i].equity)
  }

  function Closes(days: seq<ComparedDay>): (r: seq<Option<real>>)
    ensures |r| == |days|
  {
    seq(|days|, i requires 0 <= i < |days| => days[i].close)
  }

  predicate Whole(values: seq<Option<real>>) {
    forall i | 0 <= i < |values| :: values[i].Some?
  }

  function Levels(values: seq<Option<real>>): (r: seq<real>)
    requires Whole(values)
    ensures |r| == |values| && forall i | 0 <= i < |r| :: r[i] == values[i].value
  {
    seq(|values|, i requires 0 <= i < |values| => values[i].value)
  }

  /** The dates without a value; there are none exactly when the range is whole. */
  function Missing(days: seq<ComparedDay>, values: seq<Option<real>>): (r: seq<int>)
    requires |days| == |values|
    ensures r == [] <==> Whole(values)
    ensures |r| <= |days|
  {
    if days == [] then
      []
    else
      var n := |days| - 1;
      Missing(days[..n], values[..n]) + if values[n].None? then [days[n].date] else []
  }

  /** Where the values are missing, in order. */
  function Gaps(values: seq<Option<real>>): (at: seq<nat>)
    ensures forall i | 0 <= i < |at| :: at[i] < |values|
  {
    if values == [] then []
    else
      var n := |values| - 1;
      Gaps(values[..n]) + if values[n].None? then [n] else []
  }

  lemma {:induction false} GapsExact(values: seq<Option<real>>)
    ensures forall i, j | 0 <= i < j < |Gaps(values)| :: Gaps(values)[i] < Gaps(values)[j]
    ensures forall i: nat :: i in Gaps(values) <==> i < |values| && values[i].None?
    decreases |values|
  {
    if values != [] {
      GapsExact(values[..|values| - 1]);
    }
  }

  lemma {:induction false} MissingAtGaps(days: seq<ComparedDay>, values: seq<Option<real>>)
    requires |days| == |values|
    ensures |Missing(days, values)| == |Gaps(values)|
    ensures forall i | 0 <= i < |Gaps(values)| :: Missing(days, values)[i] == days[Gaps(values)[i]].date
    decreases |days|
  {
    if days != [] {
      var n := |days| - 1;
      MissingAtGaps(days[..n], values[..n]);
      assert values == values[..n] + [values[n]];
    }
  }

  ghost predicate ListsExactly(dates: seq<int>, days: seq<ComparedDay>, values: seq<Option<real>>)
    requires |days| == |values|
  {
    exists at: seq<nat> ::
      && |at| == |dates| && (forall i, j | 0 <= i < j < |at| :: at[i] < at[j])
      && (forall i: nat :: i in at <==> i < |values| && values[i].None?)
      && (forall i | 0 <= i < |at| :: at[i] < |days| && dates[i] == days[at[i]].date)
  }

  /** The missing dates are those of exactly the sessions without a value, in session order. */
  lemma MissingExact(days: seq<ComparedDay>, values: seq<Option<real>>)
    requires |days| == |values|
    ensures ListsExactly(Missing(days, values), days, values)
  {
    hide Missing, Gaps;
    GapsExact(values);
    MissingAtGaps(days, values);
    var at := Gaps(values);
    assert |at| == |Missing(days, values)|;
  }

  ghost predicate Deepest(levels: seq<real>, worst: real)
    requires Positive(levels)
  {
    && (forall i, j | 0 <= i <= j < |levels| :: Fall(levels, i, j) <= worst)
    && (exists i, j :: 0 <= i <= j < |levels| && worst == Fall(levels, i, j))
  }

  /** What the return figures mean for an account a and an index b. */
  ghost predicate FiguresHold(a: seq<real>, b: seq<real>, f: Figures)
    requires Positive(a) && Positive(b)
  {
    && 1.0 + f.accountReturn == Compound(Returns(a)) && 1.0 + f.benchmarkReturn == Compound(Returns(b))
    && f.excessReturn == f.accountReturn - f.benchmarkReturn
    && Times(1.0 + f.relativeWealthReturn, 1.0 + f.benchmarkReturn) == 1.0 + f.accountReturn
    && Deepest(a, f.accountDrawdown) && Deepest(b, f.benchmarkDrawdown)
  }

  predicate ExactRoot(sqrt: real -> real, x: real) {
    sqrt(x) >= 0.0 && sqrt(x) * sqrt(x) == x
  }

  function TrackingVarianceOf(xs: seq<real>, ys: seq<real>): real
    requires |xs| == |ys| >= 2
  {
    Variance(xs) + Variance(ys) - 2.0 * Covariance(xs, ys)
  }

  /** What the relative-risk statistics mean for account returns xs and index returns ys. */
  ghost predicate RiskHolds(xs: seq<real>, ys: seq<real>, sqrt: real -> real, r: Risk)
    requires |xs| == |ys| >= 2
  {
    && MomentsHold(xs, ys)
    && TrackingHolds(xs, ys, sqrt, r)
    && BetaHolds(xs, ys, r)
    && CorrelationHolds(xs, ys, sqrt, r)
  }

  /** Means, variances and the covariance are what they are called. */
  ghost predicate MomentsHold(xs: seq<real>, ys: seq<real>)
    requires |xs| == |ys| >= 2
  {
    && IsMean(Mean(xs), xs) && IsMean(Mean(ys), ys)
    && IsCovariance(Variance(xs), xs, xs) && IsCovariance(Variance(ys), ys, ys)
    && IsCovariance(Covariance(xs, ys), xs, ys)
  }

  lemma MomentsExact(xs: seq<real>, ys: seq<real>)
    requires |xs| == |ys| >= 2
    ensures MomentsHold(xs, ys)
  {
    hide IsMean, IsCovariance;
    MeanBalances(xs);
    MeanBalances(ys);
    CovarianceExact(xs, xs);
    CovarianceExact(ys, ys);
    CovarianceExact(xs, ys);
  }

  ghost predicate TrackingHolds(xs: seq<real>, ys: seq<real>, sqrt: real -> real, r: Risk)
    requires |xs| == |ys| >= 2
  {
    var v := TrackingVarianceOf(xs, ys);
    && r.trackingError == sqrt(v * 252.0)
    && (r.informationRatio.Some? <==> v > TINY)
    && (r.informationRatio.Some? ==>
          Times(r.informationRatio.value, sqrt(v)) == Times(Mean(xs) - Mean(ys), sqrt(252.0)))
  }

  ghost predicate BetaHolds(xs: seq<real>, ys: seq<real>, r: Risk)
    requires |xs| == |ys| >= 2
  {
    && (r.beta.Some? <==> Variance(ys) > TINY)
    && (r.beta.Some? ==>
          forall t: real :: Variance(Minus(xs, r.beta.value, ys)) <= Variance(Minus(xs, t, ys)))
  }

  ghost predicate CorrelationHolds(xs: seq<real>, ys: seq<real>, sqrt: real -> real, r: Risk)
    requires |xs| == |ys| >= 2
  {
    && (r.correlation.Some? <==> Variance(xs) > TINY && Variance(ys) > TINY)
    && (r.correlation.Some? ==>
          var product := Times(Variance(xs), Variance(ys));
          && -1.0 <= r.correlation.value <= 1.0
          && (ExactRoot(sqrt, product) ==> Times(r.correlation.value, sqrt(product)) == Covariance(xs, ys)))
  }

  lemma Quotient(x: real, y: real)
    requires y != 0.0
    ensures Times(x / y, y) == x
  {
  }

  method Returned(levels: seq<real>) returns (total: real)
    requires levels != [] && Positive(levels)
    ensures 1.0 + total == Compound(Returns(levels)) > 0.0
  {
    total := levels[|levels| - 1] / levels[0] - 1.0;
    ReturnsCompound(levels);
  }

  method CompareReturns(a: seq<real>, b: seq<real>) returns (f: Figures)
    requires a != [] && b != [] && Positive(a) && Positive(b)
    ensures FiguresHold(a, b, f)
  {
    hide Returns, Compound, Fall, Times;
    var accountReturn := Returned(a);
    var benchmarkReturn := Returned(b);
    var relative := (1.0 + accountReturn) / (1.0 + benchmarkReturn) - 1.0;
    Quotient(1.0 + accountReturn, 1.0 + benchmarkReturn);
    var accountDrawdown := Drawdown(a);
    var benchmarkDrawdown := Drawdown(b);
    f := Figures(accountReturn, benchmarkReturn, accountReturn - benchmarkReturn, relative,
                 accountDrawdown, benchmarkDrawdown);
  }

  method TrackingStatistics(xs: seq<real>, ys: seq<real>, sqrt: real -> real)
    returns (trackingError: real, informationRatio: Option<real>)
    requires |xs| == |ys| >= 2
    requires forall x | x > 0.0 :: sqrt(x) > 0.0
    ensures TrackingHolds(xs, ys, sqrt, Risk(trackingError, informationRatio, None, None))
  {
    hide Variance, Covariance, Minus, Mean, Times;
    var active := Minus(xs, 1.0, ys);
    TrackingVariance(xs, ys);
    MeanMinus(xs, 1.0, ys);
    var dv := Variance(active);
    trackingError := sqrt(dv * SESSIONS_PER_YEAR);
    informationRatio := None;
    if dv > TINY {
      var ratio := Mean(active) / sqrt(dv) * sqrt(SESSIONS_PER_YEAR);
      Rescaled(Mean(active), sqrt(dv), sqrt(SESSIONS_PER_YEAR), ratio);
      informationRatio := Some(ratio);
    }
  }

  lemma Rescaled(m: real, root: real, k: real, ratio: real)
    requires root > 0.0 && ratio == m / root * k
    ensures Times(ratio, root) == Times(m, k)
  {
    var q := m / root;
    assert q * root == m;
    assert (q * k) * root == (q * root) * k;
  }

  method BetaStatistic(xs: seq<real>, ys: seq<real>) returns (beta: Option<real>)
    requires |xs| == |ys| >= 2
    ensures BetaHolds(xs, ys, Risk(0.0, None, beta, None))
  {
    hide Variance, Covariance, Minus;
    beta := None;
    if Variance(ys) > TINY {
      var slope := Covariance(xs, ys) / Variance(ys);
      forall t: real ensures Variance(Minus(xs, slope, ys)) <= Variance(Minus(xs, t, ys)) {
        BetaIsLeastSquares(xs, ys, t);
      }
      beta := Some(slope);
    }
  }

  method CorrelationStatistic(xs: seq<real>, ys: seq<real>, sqrt: real -> real) returns (correlation: Option<real>)
    requires |xs| == |ys| >= 2
    requires forall x | x > 0.0 :: sqrt(x) > 0.0
    ensures CorrelationHolds(xs, ys, sqrt, Risk(0.0, None, None, correlation))
  {
    hide Variance, Covariance, Times, ExactRoot;
    correlation := None;
    if Variance(xs) > TINY && Variance(ys) > TINY {
      ProductPositive(Variance(xs), Variance(ys));
      var root := sqrt(Times(Variance(xs), Variance(ys)));
      correlation := Some(Clamp(Covariance(xs, ys) / root));
      CorrelationExact(xs, ys, sqrt, root);
    }
  }

  lemma CorrelationExact(xs: seq<real>, ys: seq<real>, sqrt: real -> real, root: real)
    requires |xs| == |ys| >= 2
    requires root > 0.0 && root == sqrt(Times(Variance(xs), Variance(ys)))
    ensures ExactRoot(sqrt, Times(Variance(xs), Variance(ys))) ==>
              Times(Clamp(Covariance(xs, ys) / root), root) == Covariance(xs, ys)
  {
    hide Variance, Covariance;
    if ExactRoot(sqrt, Times(Variance(xs), Variance(ys))) {
      ClampInert(xs, ys, root);
      Quotient(Covariance(xs, ys), root);
    }
  }

  lemma ProductPositive(x: real, y: real)
    requires x > 0.0 && y > 0.0
    ensures Times(x, y) > 0.0
  {
  }

  method CompareRisk(xs: seq<real>, ys: seq<real>, sqrt: real -> real) returns (r: Risk)
    requires |xs| == |ys| >= 2
    requires forall x | x > 0.0 :: sqrt(x) > 0.0
    ensures RiskHolds(xs, ys, sqrt, r)
  {
    hide Variance, Covariance, Minus, Mean, TrackingVarianceOf, ExactRoot, Times, MomentsHold;
    MomentsExact(xs, ys);
    var trackingError, informationRatio := TrackingStatistics(xs, ys, sqrt);
    var beta := BetaStatistic(xs, ys);
    var correlation := CorrelationStatistic(xs, ys, sqrt);
    r := Risk(trackingError, informationRatio, beta, correlation);
  }

  /** The comparison over the last `lookback` intervals. Every figure is withheld unless each selected
      session has both a mark and a close; the statistics also need twenty intervals. */
  method CompareBenchmark(days: seq<ComparedDay>, lookback: nat, sqrt: real -> real) returns (c: Comparison)
    requires PositiveWhereRecorded(days)
    requires forall x | x > 0.0 :: sqrt(x) > 0.0
    ensures var chosen := Selected(days, lookback);
      var a, b := Marks(chosen), Closes(chosen);
      && |chosen| == Min(|days|, lookback + 1) && chosen == days[|days| - |chosen|..]
      && (forall i | 0 <= i < |chosen| :: a[i] == chosen[i].equity && b[i] == chosen[i].close)
      && c.intervals == (if chosen == [] then 0 else |chosen| - 1) <= lookback
      && ListsExactly(c.missingAccountDates, chosen, a) && ListsExactly(c.missingBenchmarkDates, chosen, b)
      && (c.figures.Some? <==>
            c.intervals > 0 && forall i | 0 <= i < |chosen| :: chosen[i].equity.Some? && chosen[i].close.Some?)
      && (c.risk.Some? <==> c.figures.Some? && c.intervals >= 20)
      && (c.figures.Some? ==>
            (Positive(Levels(a)) && Positive(Levels(b)) && FiguresHold(Levels(a), Levels(b), c.figures.value)))
      && (c.risk.Some? ==> RiskHolds(Returns(Levels(a)), Returns(Levels(b)), sqrt, c.risk.value))
  {
    hide FiguresHold, RiskHolds, Missing, ListsExactly, Selected, Marks, Closes, Whole, PositiveWhereRecorded;
    var chosen := Selected(days, lookback);
    SelectedIsTail(days, lookback);
    BothWhole(chosen);
    Recorded(chosen);
    var a, b := Marks(chosen), Closes(chosen);
    var intervals := if chosen == [] then 0 else |chosen| - 1;
    var missingA, missingB := Missing(chosen, a), Missing(chosen, b);
    MissingExact(chosen, a);
    MissingExact(chosen, b);
    c := Comparison(intervals, missingA, missingB, None, None);
    if intervals > 0 && missingA == [] && missingB == [] {
      PositiveLevels(days, chosen);
      var figures := CompareReturns(Levels(a), Levels(b));
      c := c.(figures := Some(figures));
      if intervals >= MIN_INTERVALS {
        var risk := CompareRisk(Returns(Levels(a)), Returns(Levels(b)), sqrt);
        c := c.(risk := Some(risk));
      }
    }
  }

  lemma PositiveLevels(days: seq<ComparedDay>, chosen: seq<ComparedDay>)
    requires PositiveWhereRecorded(days) && (forall d | d in chosen :: d in days)
    requires Whole(Marks(chosen)) && Whole(Closes(chosen))
    ensures Positive(Levels(Marks(chosen))) && Positive(Levels(Closes(chosen)))
  {
    forall i | 0 <= i < |chosen| ensures chosen[i] in days {
      assert chosen[i] in chosen;
    }
  }
}

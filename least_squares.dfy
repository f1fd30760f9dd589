/**
 * The degree-1 least-squares fit that `np.polyfit(days, loads, 1)` computes
 * for a load history sampled on days 0, 1, ..., n - 1. The fit is written in
 * closed form over the moments of the history: with Sy = sum of y_i,
 * Siy = sum of i * y_i, S1 = sum of i and S2 = sum of i * i (all over i < n),
 * the slope is
 *     (n * Siy - S1 * Sy) / (n * S2 - S1 * S1)
 * and the intercept is (Sy - slope * S1) / n. The denominator is
 * n * n * (n * n - 1) / 12, positive once there are two samples. The fit is
 * tied to its meaning by the normal equations: its residuals sum to zero and
 * are orthogonal to the day index, and no other line has that property.
 */
module LeastSquares {

  /** The moments of a history: count, sum of days, sum of squared days, sum of loads, sum of day * load. */
  datatype Moments = Moments(n: real, s1: real, s2: real, sy: real, siy: real)

  /** The moments after one more sample y, taken on day p.n. */
  function Step(p: Moments, y: real): Moments
  {
    Moments(p.n + 1.0, p.s1 + p.n, p.s2 + p.n * p.n, p.sy + y, p.siy + p.n * y)
  }

  /** The moments of the first k samples; day i is the count of the samples before it. */
  function MomentsOf(ys: seq<real>, k: nat): Moments
    requires k <= |ys|
  {
    if k == 0 then Moments(0.0, 0.0, 0.0, 0.0, 0.0) else Step(MomentsOf(ys, k - 1), ys[k - 1])
  }

  /** n times the spread of the days about their mean: the denominator of the slope. */
  function Spread(m: Moments): real
  {
    m.n * m.s2 - m.s1 * m.s1
  }

  /** n times the covariance of day and load: the numerator of the slope. */
  function Covariance(m: Moments): real
  {
    m.n * m.siy - m.s1 * m.sy
  }

  /** The slope of the fit, for moments with a positive spread. */
  function SlopeOf(m: Moments): real
    requires Spread(m) > 0.0
  {
    Covariance(m) / Spread(m)
  }

  /** The intercept of the fit, for moments with a positive spread. */
  function InterceptOf(m: Moments): real
    requires m.n > 0.0 && Spread(m) > 0.0
  {
    (m.sy - SlopeOf(m) * m.s1) / m.n
  }

  /** The day sums of moments whose count is a whole number of days. */
  predicate DaySums(m: Moments)
  {
    2.0 * m.s1 == m.n * (m.n - 1.0) && 6.0 * m.s2 == (m.n - 1.0) * m.n * (2.0 * m.n - 1.0)
  }

  /** The count and the day sums of k samples in closed form. */
  lemma {:induction false} MomentsClosed(ys: seq<real>, k: nat)
    requires k <= |ys|
    ensures MomentsOf(ys, k).n == k as real
    ensures DaySums(MomentsOf(ys, k))
  {
    if k > 0 {
      MomentsClosed(ys, k - 1);
      StepDaySums(MomentsOf(ys, k - 1), ys[k - 1]);
    }
  }

  lemma StepDaySums(p: Moments, y: real)
    requires DaySums(p)
    ensures Step(p, y).n == p.n + 1.0
    ensures DaySums(Step(p, y))
  {
    var k := p.n;
    assert 2.0 * (p.s1 + k) == (k + 1.0) * (k + 1.0 - 1.0);
    assert 6.0 * (p.s2 + k * k) == (k + 1.0 - 1.0) * (k + 1.0) * (2.0 * (k + 1.0) - 1.0);
  }

  /** The denominator in closed form. */
  lemma SpreadClosed(n: real, s1: real, s2: real)
    requires 2.0 * s1 == n * (n - 1.0)
    requires 6.0 * s2 == (n - 1.0) * n * (2.0 * n - 1.0)
    ensures 12.0 * (n * s2 - s1 * s1) == n * n * (n - 1.0) * (n + 1.0)
  {
    assert 12.0 * (n * s2 - s1 * s1) == 2.0 * n * (6.0 * s2) - 3.0 * (2.0 * s1) * (2.0 * s1);
  }

  lemma PositiveQuartic(n: real, d: real)
    requires n >= 2.0
    requires 12.0 * d == n * n * (n - 1.0) * (n + 1.0)
    ensures d > 0.0
  {
    assert n * n > 0.0;
    assert (n - 1.0) * (n + 1.0) > 0.0;
    assert n * n * (n - 1.0) * (n + 1.0) == (n * n) * ((n - 1.0) * (n + 1.0));
  }

  /** With two samples or more the denominator is positive. */
  lemma {:induction false} SpreadPositive(ys: seq<real>)
    requires |ys| >= 2
    ensures MomentsOf(ys, |ys|).n == |ys| as real
    ensures Spread(MomentsOf(ys, |ys|)) > 0.0
  {
    var m := MomentsOf(ys, |ys|);
    MomentsClosed(ys, |ys|);
    SpreadClosed(m.n, m.s1, m.s2);
    PositiveQuartic(m.n, Spread(m));
  }

  /** The fitted slope (`slope, _ = np.polyfit(days, loads, 1)`). */
  function Slope(ys: seq<real>): real
    requires |ys| >= 2
  {
    SpreadPositive(ys);
    SlopeOf(MomentsOf(ys, |ys|))
  }

  /** The fitted intercept. */
  function Intercept(ys: seq<real>): real
    requires |ys| >= 2
  {
    SpreadPositive(ys);
    InterceptOf(MomentsOf(ys, |ys|))
  }

  /** The residual of load y on day i against the line a * i + b. */
  function Residual(y: real, a: real, b: real, i: real): real
  {
    y - (a * i + b)
  }

  /** The residual weighted by its day. */
  function DayResidual(y: real, a: real, b: real, i: real): real
  {
    i * Residual(y, a, b, i)
  }

  /** Sum over the first k days of the residuals y_i - (a * i + b). */
  function ResidualSum(ys: seq<real>, a: real, b: real, k: nat): real
    requires k <= |ys|
  {
    if k == 0 then 0.0 else ResidualSum(ys, a, b, k - 1) + Residual(ys[k - 1], a, b, (k - 1) as real)
  }

  /** Sum over the first k days of i * (y_i - (a * i + b)). */
  function ResidualMoment(ys: seq<real>, a: real, b: real, k: nat): real
    requires k <= |ys|
  {
    if k == 0 then 0.0 else ResidualMoment(ys, a, b, k - 1) + DayResidual(ys[k - 1], a, b, (k - 1) as real)
  }

  /** The residual sums of a line a * i + b against moments m. */
  predicate ResidualsAre(m: Moments, a: real, b: real, r: real, q: real)
  {
    r == m.sy - a * m.s1 - b * m.n && q == m.siy - a * m.s2 - b * m.s1
  }

  /** The residual sums expressed through the moments. */
  lemma {:induction false} ResidualSums(ys: seq<real>, a: real, b: real, k: nat)
    requires k <= |ys|
    ensures ResidualsAre(MomentsOf(ys, k), a, b, ResidualSum(ys, a, b, k), ResidualMoment(ys, a, b, k))
  {
    if k > 0 {
      ResidualSums(ys, a, b, k - 1);
      MomentsClosed(ys, k - 1);
      ResidualStep(MomentsOf(ys, k - 1), ys[k - 1], a, b, ResidualSum(ys, a, b, k - 1), ResidualMoment(ys, a, b, k - 1));
    }
  }

  lemma ResidualStep(p: Moments, y: real, a: real, b: real, r: real, q: real)
    requires ResidualsAre(p, a, b, r, q)
    ensures ResidualsAre(Step(p, y), a, b, r + Residual(y, a, b, p.n), q + DayResidual(y, a, b, p.n))
  {
    ResidualAlgebra(a, b, p.n, y, p.s1, p.s2, p.sy, p.siy, r, q);
  }

  lemma ResidualAlgebra(a: real, b: real, i: real, y: real, s1: real, s2: real, sy: real, siy: real, r: real, q: real)
    requires r == sy - a * s1 - b * i
    requires q == siy - a * s2 - b * s1
    ensures r + (y - (a * i + b)) == (sy + y) - a * (s1 + i) - b * (i + 1.0)
    ensures q + i * (y - (a * i + b)) == (siy + i * y) - a * (s2 + i * i) - b * (s1 + i)
  {
    assert a * (s1 + i) == a * s1 + a * i;
    assert i * (y - (a * i + b)) == i * y - a * (i * i) - b * i;
    assert a * (s2 + i * i) == a * s2 + a * (i * i);
  }

  /** The slope and intercept solve the normal equations of the moments. */
  lemma FitSolves(m: Moments)
    requires m.n > 0.0 && Spread(m) > 0.0
    ensures ResidualsAre(m, SlopeOf(m), InterceptOf(m), 0.0, 0.0)
  {
    var a, b, d := SlopeOf(m), InterceptOf(m), Spread(m);
    DivMul(Covariance(m), d);
    DivMul(m.sy - a * m.s1, m.n);
    SecondEquation(m.n, a, b, m.s1, m.s2, m.sy, m.siy);
  }

  lemma DivMul(x: real, d: real)
    requires d != 0.0
    ensures x / d * d == x
  {
  }

  lemma SecondEquation(n: real, a: real, b: real, s1: real, s2: real, sy: real, siy: real)
    requires n != 0.0
    requires a * (n * s2 - s1 * s1) == n * siy - s1 * sy
    requires b * n == sy - a * s1
    ensures siy - a * s2 - b * s1 == 0.0
  {
    assert n * (siy - a * s2 - b * s1) == (n * siy - s1 * sy) - a * (n * s2 - s1 * s1) + (sy - a * s1 - b * n) * s1;
    assert n * (siy - a * s2 - b * s1) == 0.0;
  }

  /**
   * Only one line solves the normal equations of moments with a positive
   * spread: the fitted one.
   */
  lemma FitOnly(m: Moments, a: real, b: real)
    requires m.n > 0.0 && Spread(m) > 0.0
    requires ResidualsAre(m, a, b, 0.0, 0.0)
    ensures a == SlopeOf(m) && b == InterceptOf(m)
  {
    SolveLine(m.n, m.s1, m.s2, m.sy, m.siy, a, b);
  }

  lemma SolveLine(n: real, s1: real, s2: real, sy: real, siy: real, a: real, b: real)
    requires n > 0.0 && n * s2 - s1 * s1 > 0.0
    requires sy - a * s1 - b * n == 0.0
    requires siy - a * s2 - b * s1 == 0.0
    ensures a == (n * siy - s1 * sy) / (n * s2 - s1 * s1)
    ensures b == (sy - (n * siy - s1 * sy) / (n * s2 - s1 * s1) * s1) / n
  {
    EliminateIntercept(n, a, b, s1, s2, sy, siy);
    MulDiv(a, n * s2 - s1 * s1);
    assert sy - a * s1 == b * n;
    MulDiv(b, n);
  }

  lemma EliminateIntercept(n: real, a: real, b: real, s1: real, s2: real, sy: real, siy: real)
    requires sy - a * s1 - b * n == 0.0
    requires siy - a * s2 - b * s1 == 0.0
    ensures n * siy - s1 * sy == a * (n * s2 - s1 * s1)
  {
    assert n * siy - s1 * sy == n * (a * s2 + b * s1) - s1 * (a * s1 + b * n);
  }

  lemma MulDiv(x: real, d: real)
    requires d != 0.0
    ensures x * d / d == x
  {
  }

  /**
   * The fit satisfies the two normal equations of least squares: its
   * residuals sum to zero and are orthogonal to the day index.
   */
  lemma {:induction false} NormalEquations(ys: seq<real>)
    requires |ys| >= 2
    ensures ResidualSum(ys, Slope(ys), Intercept(ys), |ys|) == 0.0
    ensures ResidualMoment(ys, Slope(ys), Intercept(ys), |ys|) == 0.0
  {
    var m := MomentsOf(ys, |ys|);
    SpreadPositive(ys);
    FitSolves(m);
    ResidualSums(ys, SlopeOf(m), InterceptOf(m), |ys|);
    ResidualsDetermined(m, SlopeOf(m), InterceptOf(m), 0.0, 0.0,
      ResidualSum(ys, SlopeOf(m), InterceptOf(m), |ys|), ResidualMoment(ys, SlopeOf(m), InterceptOf(m), |ys|));
  }

  lemma ResidualsDetermined(m: Moments, a: real, b: real, r: real, q: real, r': real, q': real)
    requires ResidualsAre(m, a, b, r, q) && ResidualsAre(m, a, b, r', q')
    ensures r == r' && q == q'
  {
  }

  /**
   * Any line whose residuals sum to zero and are orthogonal to the day index
   * is the fitted line: the least-squares fit is unique.
   */
  lemma {:induction false} FitUnique(ys: seq<real>, a: real, b: real)
    requires |ys| >= 2
    requires ResidualSum(ys, a, b, |ys|) == 0.0
    requires ResidualMoment(ys, a, b, |ys|) == 0.0
    ensures a == Slope(ys) && b == Intercept(ys)
  {
    SpreadPositive(ys);
    ResidualSums(ys, a, b, |ys|);
    assert ResidualsAre(MomentsOf(ys, |ys|), a, b, 0.0, 0.0);
    FitOnly(MomentsOf(ys, |ys|), a, b);
  }

  /** The residuals of a history lying on the line a + d * i are all zero. */
  lemma {:induction false} LinearResiduals(ys: seq<real>, a: real, d: real, k: nat)
    requires k <= |ys|
    requires forall i :: 0 <= i < |ys| ==> ys[i] == a + d * i as real
    ensures ResidualSum(ys, d, a, k) == 0.0
    ensures ResidualMoment(ys, d, a, k) == 0.0
  {
    if k > 0 {
      LinearResiduals(ys, a, d, k - 1);
      assert ys[k - 1] == a + d * (k - 1) as real;
    }
  }

  /** A history on a straight line a + d * i is fitted with slope exactly d and intercept a. */
  lemma {:induction false} LinearSlope(ys: seq<real>, a: real, d: real)
    requires |ys| >= 2
    requires forall i :: 0 <= i < |ys| ==> ys[i] == a + d * i as real
    ensures Slope(ys) == d
    ensures Intercept(ys) == a
  {
    LinearResiduals(ys, a, d, |ys|);
    FitUnique(ys, d, a);
  }

  /** A constant history is fitted with slope 0. */
  lemma {:induction false} ConstantSlope(ys: seq<real>, c: real)
    requires |ys| >= 2
    requires forall i :: 0 <= i < |ys| ==> ys[i] == c
    ensures Slope(ys) == 0.0
  {
    forall i | 0 <= i < |ys| ensures ys[i] == c + 0.0 * i as real {
    }
    LinearSlope(ys, c, 0.0);
  }

  /** Every day's load moved by the same amount c. */
  function Shift(ys: seq<real>, c: real): (zs: seq<real>)
    ensures |zs| == |ys|
    ensures forall i :: 0 <= i < |ys| ==> zs[i] == ys[i] + c
  {
    seq(|ys|, i requires 0 <= i < |ys| => ys[i] + c)
  }

  /** The residuals of the shifted loads against the shifted line are those of the original. */
  lemma {:induction false} ShiftResiduals(ys: seq<real>, c: real, a: real, b: real, k: nat)
    requires k <= |ys|
    ensures ResidualSum(Shift(ys, c), a, b + c, k) == ResidualSum(ys, a, b, k)
    ensures ResidualMoment(Shift(ys, c), a, b + c, k) == ResidualMoment(ys, a, b, k)
  {
    if k > 0 {
      ShiftResiduals(ys, c, a, b, k - 1);
      assert Shift(ys, c)[k - 1] - (a * (k - 1) as real + (b + c)) == ys[k - 1] - (a * (k - 1) as real + b);
    }
  }

  /** Adding the same load to every day leaves the slope unchanged and raises the intercept by that load. */
  lemma {:induction false} ShiftSlope(ys: seq<real>, c: real)
    requires |ys| >= 2
    ensures Slope(Shift(ys, c)) == Slope(ys)
    ensures Intercept(Shift(ys, c)) == Intercept(ys) + c
  {
    NormalEquations(ys);
    ShiftResiduals(ys, c, Slope(ys), Intercept(ys), |ys|);
    FitUnique(Shift(ys, c), Slope(ys), Intercept(ys) + c);
  }

  /**
   * The sign of the slope is the sign of the covariance between day and
   * load: a positive slope means the backlog is building, a negative one
   * that it is clearing.
   */
  lemma {:induction false} SlopeSign(ys: seq<real>)
    requires |ys| >= 2
    ensures Slope(ys) > 0.0 <==> Covariance(MomentsOf(ys, |ys|)) > 0.0
    ensures Slope(ys) < 0.0 <==> Covariance(MomentsOf(ys, |ys|)) < 0.0
  {
    SpreadPositive(ys);
    var m := MomentsOf(ys, |ys|);
    QuotientSign(Covariance(m), Spread(m));
  }

  lemma QuotientSign(c: real, d: real)
    requires d > 0.0
    ensures c / d > 0.0 <==> c > 0.0
    ensures c / d < 0.0 <==> c < 0.0
  {
    assert c / d * d == c;
    if c / d > 0.0 {
      assert c > 0.0;
    }
    if c / d < 0.0 {
      assert c < 0.0;
    }
  }
}

/**
 * The short-history trend step: an ordinary least-squares line fitted to the points
 * (i, ys[i]) for i = 0 .. n-1 and evaluated one step past the data, at x = n.
 *
 * The fit is the solution of the two normal equations
 *     n  * a + Sx  * b == Sy
 *     Sx * a + Sxx * b == Sxy
 * whose determinant n * Sxx - Sx^2 is positive from two points on. With a single
 * point the determinant is 0 and the slope is taken as 0 (the minimum-norm answer a
 * least-squares solver gives), so the line is the constant through that point.
 */
module Trend {

  datatype Line = Line(intercept: real, slope: real) {
    /** The line's value at abscissa x. */
    function At(x: real): real {
      intercept + slope * x
    }
  }

  function Sq(r: real): real {
    r * r
  }

  /** The running sums n, Sx, Sxx, Sy, Sxy, Syy of a set of points (x, y). */
  datatype Moments = Moments(n: real, sx: real, sxx: real, sy: real, sxy: real, syy: real) {
    /** The sums after one more point (x, y). */
    function Add(x: real, y: real): Moments {
      Moments(n + 1.0, sx + x, sxx + x * x, sy + y, sxy + x * y, syy + y * y)
    }

    /** Determinant of the normal equations. */
    function Determinant(): real {
      n * sxx - sx * sx
    }
  }

  /** The sums over the first k points (i, ys[i]). */
  function MomentsOf(ys: seq<real>, k: nat): Moments
    requires k <= |ys|
  {
    if k == 0 then Moments(0.0, 0.0, 0.0, 0.0, 0.0, 0.0)
    else MomentsOf(ys, k - 1).Add((k - 1) as real, ys[k - 1])
  }

  /** Sum of squared residuals of line l over the first k points. */
  function PrefixSquaredError(ys: seq<real>, l: Line, k: nat): real
    requires k <= |ys|
  {
    if k == 0 then 0.0
    else PrefixSquaredError(ys, l, k - 1) + Sq(ys[k - 1] - l.At((k - 1) as real))
  }

  /** Sum of squared residuals of line l against all observations. */
  function SquaredError(ys: seq<real>, l: Line): real {
    PrefixSquaredError(ys, l, |ys|)
  }

  /**
   * The normal equations of the sums m solved by Cramer's rule; a zero determinant
   * gives slope 0 and the mean as intercept.
   */
  function Solve(m: Moments): Line
    requires m.n > 0.0
  {
    var d := m.Determinant();
    var slope := if d == 0.0 then 0.0 else (m.n * m.sxy - m.sx * m.sy) / d;
    Line((m.sy - slope * m.sx) / m.n, slope)
  }

  /**
   * The least-squares line through (i, ys[i]), i = 0 .. |ys|-1 (sklearn's
   * LinearRegression on x = 0 .. n-1): it solves both normal equations, and a single
   * point is fitted by the horizontal line through it.
   */
  function Fit(ys: seq<real>): (l: Line)
    requires |ys| > 0
    ensures SolvesNormalEquations(MomentsOf(ys, |ys|), l)
    ensures |ys| == 1 ==> l == Line(ys[0], 0.0)
  {
    MomentsCount(ys, |ys|);
    var m := MomentsOf(ys, |ys|);
    if |ys| == 1 then
      SinglePointMoments(ys);
      SolveSinglePoint(m);
      Solve(m)
    else
      DeterminantSign(ys);
      SolveSolves(m);
      Solve(m)
  }

  /** No line has a smaller sum of squared residuals on (i, ys[i]) than l. */
  ghost predicate IsLeastSquares(ys: seq<real>, l: Line) {
    forall other: Line :: SquaredError(ys, l) <= SquaredError(ys, other)
  }

  /**
   * The trend forecast at x = n, one past the last observation: the value there of a
   * least-squares line. From two points on that line is unique, so the forecast is
   * the value at n of every least-squares line; a single point forecasts itself.
   */
  function Forecast(ys: seq<real>): (r: real)
    requires |ys| > 0
    ensures exists l: Line :: IsLeastSquares(ys, l) && r == l.At(|ys| as real)
    ensures |ys| >= 2 ==> forall l: Line :: IsLeastSquares(ys, l) ==> r == l.At(|ys| as real)
    ensures |ys| == 1 ==> r == ys[0]
  {
    var f := Fit(ys);
    assert IsLeastSquares(ys, f) by {
      forall other: Line ensures SquaredError(ys, f) <= SquaredError(ys, other) {
        FitMinimizesSquaredError(ys, other);
      }
    }
    assert |ys| >= 2 ==> forall l: Line :: IsLeastSquares(ys, l) ==> l == f by {
      forall l: Line | |ys| >= 2 && IsLeastSquares(ys, l) ensures l == f {
        FitIsUniqueMinimizer(ys, l);
      }
    }
    f.At(|ys| as real)
  }

  // The index sums in closed form.

  /** The count of the first k points is k. */
  lemma {:induction false} MomentsCount(ys: seq<real>, k: nat)
    requires k <= |ys|
    ensures MomentsOf(ys, k).n == k as real
  {
    if k > 0 {
      MomentsCount(ys, k - 1);
    }
  }

  /** Sx and Sxx of the first k points in closed form. */
  lemma IndexSums(ys: seq<real>, k: nat)
    requires k <= |ys|
    ensures MomentsOf(ys, k).n == k as real
    ensures MomentsOf(ys, k).sx == (k as real) * (k as real - 1.0) / 2.0
    ensures MomentsOf(ys, k).sxx == (k as real - 1.0) * (k as real) * (2.0 * k as real - 1.0) / 6.0
  {
    MomentsCount(ys, k);
    IndexSum(ys, k);
    IndexSquareSum(ys, k);
  }

  lemma {:induction false} IndexSum(ys: seq<real>, k: nat)
    requires k <= |ys|
    ensures MomentsOf(ys, k).sx == (k as real) * (k as real - 1.0) / 2.0
  {
    if k > 0 {
      IndexSum(ys, k - 1);
      IndexSumStep((k - 1) as real);
    }
  }

  lemma {:induction false} IndexSquareSum(ys: seq<real>, k: nat)
    requires k <= |ys|
    ensures MomentsOf(ys, k).sxx == (k as real - 1.0) * (k as real) * (2.0 * k as real - 1.0) / 6.0
  {
    if k > 0 {
      IndexSquareSum(ys, k - 1);
      IndexSquareSumStep((k - 1) as real);
    }
  }

  lemma IndexSumStep(x: real)
    ensures x * (x - 1.0) / 2.0 + x == (x + 1.0) * x / 2.0
  {
  }

  lemma IndexSquareSumStep(x: real)
    ensures (x - 1.0) * x * (2.0 * x - 1.0) / 6.0 + x * x == x * (x + 1.0) * (2.0 * x + 1.0) / 6.0
  {
  }

  /** The determinant is n^2 (n^2 - 1) / 12: zero for one point, positive from two. */
  lemma DeterminantSign(ys: seq<real>)
    requires |ys| > 0
    ensures |ys| == 1 ==> MomentsOf(ys, |ys|).Determinant() == 0.0
    ensures |ys| >= 2 ==> MomentsOf(ys, |ys|).Determinant() > 0.0
  {
    IndexSums(ys, |ys|);
    var m := MomentsOf(ys, |ys|);
    var n := |ys| as real;
    assert m.Determinant() == n * n * (n * n - 1.0) / 12.0;
    if |ys| >= 2 {
      assert n * n - 1.0 > 0.0;
      assert n * n > 0.0;
    }
  }

  /** The sums of a single observation, at x = 0. */
  lemma SinglePointMoments(ys: seq<real>)
    requires |ys| == 1
    ensures MomentsOf(ys, 1) == Moments(1.0, 0.0, 0.0, ys[0], 0.0, ys[0] * ys[0])
  {
    var m0 := MomentsOf(ys, 0);
    assert m0 == Moments(0.0, 0.0, 0.0, 0.0, 0.0, 0.0);
    assert MomentsOf(ys, 1) == m0.Add(0.0, ys[0]);
  }

  // The squared error as a quadratic form in the line's coefficients.

  /** Syy - 2a Sy - 2b Sxy + n a^2 + 2ab Sx + b^2 Sxx on plain reals. */
  function QuadraticForm(n: real, sx: real, sxx: real, sy: real, sxy: real, syy: real, a: real, b: real): real {
    syy - 2.0 * a * sy - 2.0 * b * sxy + n * a * a + 2.0 * a * b * sx + b * b * sxx
  }

  /** The squared error of line l, given the sums m of the points. */
  function Quadratic(m: Moments, l: Line): real {
    QuadraticForm(m.n, m.sx, m.sxx, m.sy, m.sxy, m.syy, l.intercept, l.slope)
  }

  /** Adding the point (x, y) to the sums adds its squared residual to the quadratic. */
  lemma QuadraticStep(m: Moments, l: Line, x: real, y: real)
    ensures Quadratic(m.Add(x, y), l) == Quadratic(m, l) + Sq(y - l.At(x))
  {
  }

  /** Expanding the squares: the squared error is the quadratic form of the sums. */
  lemma {:induction false} SquaredErrorExpansion(ys: seq<real>, l: Line, k: nat)
    requires k <= |ys|
    ensures PrefixSquaredError(ys, l, k) == Quadratic(MomentsOf(ys, k), l)
  {
    if k > 0 {
      QuadraticStep(MomentsOf(ys, k - 1), l, (k - 1) as real, ys[k - 1]);
      SquaredErrorExpansion(ys, l, k - 1);
    }
  }

  /** Line l solves the normal equations of the sums m. */
  predicate SolvesNormalEquations(m: Moments, l: Line) {
    && m.n * l.intercept + m.sx * l.slope == m.sy
    && m.sx * l.intercept + m.sxx * l.slope == m.sxy
  }

  /** Cramer's rule for the normal equations, on plain reals; d is the determinant. */
  lemma CramerSolves(n: real, sx: real, sxx: real, sy: real, sxy: real, d: real, a: real, b: real)
    requires n > 0.0
    requires d == n * sxx - sx * sx && d != 0.0
    requires b == (n * sxy - sx * sy) / d
    requires a == (sy - b * sx) / n
    ensures n * a + sx * b == sy
    ensures sx * a + sxx * b == sxy
  {
    assert n * a == sy - b * sx;
    assert b * d == n * sxy - sx * sy;
    assert n * (sx * a + sxx * b) == sx * (sy - b * sx) + n * sxx * b;
    assert n * (sx * a + sxx * b) == sx * sy + b * d;
    assert n * (sx * a + sxx * b) == n * sxy;
  }

  /** With a non-zero determinant Solve answers the normal equations. */
  lemma SolveSolves(m: Moments)
    requires m.n > 0.0 && m.Determinant() != 0.0
    ensures SolvesNormalEquations(m, Solve(m))
  {
    var l := Solve(m);
    CramerSolves(m.n, m.sx, m.sxx, m.sy, m.sxy, m.Determinant(), l.intercept, l.slope);
  }

  /** The sums of a single point at x = 0 are solved by the constant line through it. */
  lemma SolveSinglePoint(m: Moments)
    requires m.n == 1.0 && m.sx == 0.0 && m.sxx == 0.0 && m.sxy == 0.0
    ensures Solve(m) == Line(m.sy, 0.0)
    ensures SolvesNormalEquations(m, Solve(m))
  {
    assert m.Determinant() == 0.0;
    assert m.sy / m.n == m.sy;
  }

  /** Moving from a solution (a, b) of the normal equations by (da, db) adds n da^2 + 2 da db Sx + db^2 Sxx. */
  lemma GapExpansion(n: real, sx: real, sxx: real, sy: real, sxy: real, syy: real,
                     a: real, b: real, da: real, db: real)
    requires n * a + sx * b == sy
    requires sx * a + sxx * b == sxy
    ensures QuadraticForm(n, sx, sxx, sy, sxy, syy, a + da, b + db)
         == QuadraticForm(n, sx, sxx, sy, sxy, syy, a, b) + (n * Sq(da) + 2.0 * da * db * sx + Sq(db) * sxx)
  {
    var q0 := QuadraticForm(n, sx, sxx, sy, sxy, syy, a, b);
    var q1 := QuadraticForm(n, sx, sxx, sy, sxy, syy, a + da, b + db);
    assert q1 - q0
        == da * (2.0 * n * a + 2.0 * sx * b - 2.0 * sy) + db * (2.0 * sx * a + 2.0 * sxx * b - 2.0 * sxy)
           + (n * da * da + 2.0 * da * db * sx + db * db * sxx);
  }

  /** Completing the square: n times the gap is a square plus the determinant times a square. */
  lemma GapSquares(n: real, sx: real, sxx: real, da: real, db: real)
    ensures n * (n * Sq(da) + 2.0 * da * db * sx + Sq(db) * sxx)
         == Sq(n * da + sx * db) + (n * sxx - sx * sx) * Sq(db)
  {
  }

  /** The gap is never negative once there is a point, since the determinant is then non-negative. */
  lemma NonNegativeGap(m: Moments, da: real, db: real)
    requires m.n > 0.0 && m.Determinant() >= 0.0
    ensures Gap(m, da, db) >= 0.0
  {
    NonNegativeGapReals(m.n, m.sx, m.sxx, da, db);
  }

  /** With a positive determinant only the zero move has zero gap. */
  lemma ZeroGap(m: Moments, da: real, db: real)
    requires m.n > 0.0 && m.Determinant() > 0.0
    requires Gap(m, da, db) <= 0.0
    ensures da == 0.0 && db == 0.0
  {
    ZeroGapReals(m.n, m.sx, m.sxx, da, db);
  }

  lemma NonNegativeGapReals(n: real, sx: real, sxx: real, da: real, db: real)
    requires n > 0.0 && n * sxx - sx * sx >= 0.0
    ensures n * Sq(da) + 2.0 * da * db * sx + Sq(db) * sxx >= 0.0
  {
    var g := n * Sq(da) + 2.0 * da * db * sx + Sq(db) * sxx;
    GapSquares(n, sx, sxx, da, db);
    SquareNonNegative(n * da + sx * db);
    SquareNonNegative(db);
    ProductNonNegative(n * sxx - sx * sx, Sq(db));
    PositiveFactor(n, g);
  }

  lemma ZeroGapReals(n: real, sx: real, sxx: real, da: real, db: real)
    requires n > 0.0 && n * sxx - sx * sx > 0.0
    requires n * Sq(da) + 2.0 * da * db * sx + Sq(db) * sxx <= 0.0
    ensures da == 0.0 && db == 0.0
  {
    var g := n * Sq(da) + 2.0 * da * db * sx + Sq(db) * sxx;
    var d := n * sxx - sx * sx;
    var u := n * da + sx * db;
    GapSquares(n, sx, sxx, da, db);
    SquareNonNegative(u);
    SquareNonNegative(db);
    ProductNonNegative(d, Sq(db));
    ProductNonPositive(n, g);
    BothZero(Sq(u), d * Sq(db), n * g);
    if db != 0.0 {
      SquarePositive(db);
      ProductPositive(d, Sq(db));
    }
    assert u == n * da;
    if da != 0.0 {
      SquarePositive(n * da);
    }
  }

  /** Two non-negative numbers with a non-positive sum are both zero. */
  lemma BothZero(p: real, q: real, t: real)
    requires p >= 0.0 && q >= 0.0 && t <= 0.0 && t == p + q
    ensures p == 0.0 && q == 0.0
  {
  }

  lemma SquareNonNegative(r: real)
    ensures Sq(r) >= 0.0
  {
    if r >= 0.0 {
      ProductIsNonNegative(r, r, Sq(r));
    } else {
      ProductIsNonNegative(-r, -r, Sq(r));
    }
  }

  lemma SquarePositive(r: real)
    requires r != 0.0
    ensures Sq(r) > 0.0
  {
    if r > 0.0 {
      ProductIsPositive(r, r, Sq(r));
    } else {
      ProductIsPositive(-r, -r, Sq(r));
    }
  }

  // Sign rules for a product p = x * y, stated with p named so that the solver
  // does not rewrite the product of a term with itself.

  lemma ProductIsNonNegative(x: real, y: real, p: real)
    requires x >= 0.0 && y >= 0.0 && p == x * y
    ensures p >= 0.0
  {
  }

  lemma ProductIsPositive(x: real, y: real, p: real)
    requires x > 0.0 && y > 0.0 && p == x * y
    ensures p > 0.0
  {
  }

  lemma ProductNonNegative(x: real, y: real)
    requires x >= 0.0 && y >= 0.0
    ensures x * y >= 0.0
  {
  }

  lemma ProductPositive(x: real, y: real)
    requires x > 0.0 && y > 0.0
    ensures x * y > 0.0
  {
  }

  lemma ProductNonPositive(x: real, y: real)
    requires x > 0.0 && y <= 0.0
    ensures x * y <= 0.0
  {
  }

  lemma PositiveFactor(n: real, g: real)
    requires n > 0.0 && n * g >= 0.0
    ensures g >= 0.0
  {
    assert g == (n * g) / n;
  }

  /** n da^2 + 2 da db Sx + db^2 Sxx: how much moving a line by (da, db) away from a solution costs. */
  function Gap(m: Moments, da: real, db: real): real {
    m.n * Sq(da) + 2.0 * da * db * m.sx + Sq(db) * m.sxx
  }

  /** Moving away from a solution f of the normal equations to l adds the gap to the quadratic. */
  lemma QuadraticGap(m: Moments, f: Line, l: Line)
    requires SolvesNormalEquations(m, f)
    ensures Quadratic(m, l) == Quadratic(m, f) + Gap(m, l.intercept - f.intercept, l.slope - f.slope)
  {
    assert l == Line(f.intercept + (l.intercept - f.intercept), f.slope + (l.slope - f.slope));
    GapExpansion(m.n, m.sx, m.sxx, m.sy, m.sxy, m.syy, f.intercept, f.slope,
                 l.intercept - f.intercept, l.slope - f.slope);
  }

  /** Any line's squared error exceeds a solution f's by the gap. */
  lemma SquaredErrorGap(ys: seq<real>, f: Line, l: Line)
    requires SolvesNormalEquations(MomentsOf(ys, |ys|), f)
    ensures SquaredError(ys, l)
         == SquaredError(ys, f) + Gap(MomentsOf(ys, |ys|), l.intercept - f.intercept, l.slope - f.slope)
  {
    SquaredErrorExpansion(ys, l, |ys|);
    SquaredErrorExpansion(ys, f, |ys|);
    QuadraticGap(MomentsOf(ys, |ys|), f, l);
  }

  /** A solution of the normal equations has the least squared error of all lines. */
  lemma SolutionMinimizes(ys: seq<real>, f: Line, l: Line)
    requires |ys| > 0
    requires SolvesNormalEquations(MomentsOf(ys, |ys|), f)
    ensures SquaredError(ys, f) <= SquaredError(ys, l)
  {
    var m := MomentsOf(ys, |ys|);
    SquaredErrorGap(ys, f, l);
    DeterminantSign(ys);
    MomentsCount(ys, |ys|);
    NonNegativeGap(m, l.intercept - f.intercept, l.slope - f.slope);
  }

  /** From two points on, a solution of the normal equations is the only line with least squared error. */
  lemma SolutionIsUnique(ys: seq<real>, f: Line, l: Line)
    requires |ys| >= 2
    requires SolvesNormalEquations(MomentsOf(ys, |ys|), f)
    requires SquaredError(ys, l) <= SquaredError(ys, f)
    ensures l == f
  {
    var m := MomentsOf(ys, |ys|);
    SquaredErrorGap(ys, f, l);
    DeterminantSign(ys);
    MomentsCount(ys, |ys|);
    ZeroGap(m, l.intercept - f.intercept, l.slope - f.slope);
  }

  /** The fitted line has the least squared error of all lines. */
  lemma FitMinimizesSquaredError(ys: seq<real>, l: Line)
    requires |ys| > 0
    ensures SquaredError(ys, Fit(ys)) <= SquaredError(ys, l)
  {
    SolutionMinimizes(ys, Fit(ys), l);
  }

  /** With two or more points no other line does as well: the minimiser is unique. */
  lemma FitIsUniqueMinimizer(ys: seq<real>, l: Line)
    requires |ys| >= 2
    requires SquaredError(ys, l) <= SquaredError(ys, Fit(ys))
    ensures l == Fit(ys)
  {
    SolutionIsUnique(ys, Fit(ys), l);
  }

  /** A line through every observation has zero squared error. */
  lemma {:induction false} ExactLineHasNoError(ys: seq<real>, l: Line, k: nat)
    requires k <= |ys|
    requires forall i :: 0 <= i < |ys| ==> ys[i] == l.At(i as real)
    ensures PrefixSquaredError(ys, l, k) == 0.0
  {
    if k > 0 {
      ExactLineHasNoError(ys, l, k - 1);
      assert ys[k - 1] == l.At((k - 1) as real);
    }
  }

  /** Squared errors are never negative. */
  lemma {:induction false} SquaredErrorNonNegative(ys: seq<real>, l: Line, k: nat)
    requires k <= |ys|
    ensures PrefixSquaredError(ys, l, k) >= 0.0
  {
    if k > 0 {
      SquaredErrorNonNegative(ys, l, k - 1);
      var r := ys[k - 1] - l.At((k - 1) as real);
      assert Sq(r) >= 0.0;
    }
  }

  /**
   * Data lying exactly on a line a + b i are fitted by that line and forecast its next
   * value a + b n. With a single observation the slope is undetermined and the fit
   * takes it as 0, so then only a constant (b = 0) series qualifies.
   */
  lemma ArithmeticSeriesForecast(ys: seq<real>, a: real, b: real)
    requires |ys| > 0
    requires forall i :: 0 <= i < |ys| ==> ys[i] == a + b * i as real
    requires |ys| >= 2 || b == 0.0
    ensures Fit(ys) == Line(a, b)
    ensures Forecast(ys) == a + b * |ys| as real
  {
    var l := Line(a, b);
    if |ys| >= 2 {
      ExactLineHasNoError(ys, l, |ys|);
      SquaredErrorNonNegative(ys, Fit(ys), |ys|);
      FitIsUniqueMinimizer(ys, l);
    } else {
      assert ys[0] == a + b * 0 as real;
    }
  }

  /** A constant series forecasts that constant, whatever its length. */
  lemma ConstantSeriesForecast(ys: seq<real>, c: real)
    requires |ys| > 0
    requires forall i :: 0 <= i < |ys| ==> ys[i] == c
    ensures Forecast(ys) == c
  {
    forall i | 0 <= i < |ys| ensures ys[i] == c + 0.0 * i as real { }
    ArithmeticSeriesForecast(ys, c, 0.0);
  }
}

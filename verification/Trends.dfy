/** Linear regression and its quality scores (analytics/trends.go), with float64 as `real`. */
module Trends {

  // ----- Sums

  function SumOf(s: seq<real>): real {
    if s == [] then 0.0 else SumOf(s[..|s| - 1]) + s[|s| - 1]
  }

  /** A product, named so that proofs can treat it as a whole. */
  function Mul(p: real, u: real): real { p * u }

  function Products(x: seq<real>, y: seq<real>): (p: seq<real>)
    requires |x| == |y|
    ensures |p| == |x| && forall k :: 0 <= k < |p| ==> p[k] == Mul(x[k], y[k])
  {
    seq(|x|, k requires 0 <= k < |x| => Mul(x[k], y[k]))
  }

  function Ones(n: nat): (p: seq<real>)
    ensures |p| == n && forall k :: 0 <= k < n ==> p[k] == 1.0
  {
    seq(n, k requires 0 <= k < n => 1.0)
  }

  lemma {:induction false} SumOfOnes(n: nat)
    ensures SumOf(Ones(n)) == n as real
  {
    if n > 0 {
      SumOfOnes(n - 1);
      assert Ones(n)[..n - 1] == Ones(n - 1);
    }
  }

  function Scaled(p: real, s: seq<real>): (r: seq<real>)
    ensures |r| == |s| && forall k :: 0 <= k < |r| ==> r[k] == Mul(p, s[k])
  {
    seq(|s|, k requires 0 <= k < |s| => Mul(p, s[k]))
  }

  lemma Distributes(p: real, u: real, v: real)
    ensures Mul(p, u + v) == Mul(p, u) + Mul(p, v)
  {
  }

  lemma {:induction false} SumScaled(p: real, s: seq<real>)
    ensures SumOf(Scaled(p, s)) == Mul(p, SumOf(s))
  {
    if s != [] {
      var n := |s| - 1;
      SumScaled(p, s[..n]);
      assert Scaled(p, s)[..n] == Scaled(p, s[..n]);
      Distributes(p, SumOf(s[..n]), s[n]);
    }
  }

  /** Sums respect differences of their terms. */
  lemma {:induction false} SumDifference(a: seq<real>, b: seq<real>, c: seq<real>, d: seq<real>)
    requires |a| == |b| == |c| == |d|
    requires forall k {:trigger a[k]} :: 0 <= k < |a| ==> a[k] == b[k] - c[k] - d[k]
    ensures SumOf(a) == SumOf(b) - SumOf(c) - SumOf(d)
  {
    if a != [] {
      var n := |a| - 1;
      SumDifference(a[..n], b[..n], c[..n], d[..n]);
    }
  }

  /** Sums respect sums of terms less multiples of terms. */
  lemma {:induction false} SumOfMove(moved: seq<real>, a: seq<real>, b: seq<real>,
                                     p: real, c: seq<real>, q: real, d: seq<real>)
    requires |moved| == |a| == |b| == |c| == |d|
    requires forall k {:trigger moved[k]} :: 0 <= k < |a| ==> moved[k] == a[k] + b[k] - Mul(p, c[k]) - Mul(q, d[k])
    ensures SumOf(moved) == SumOf(a) + SumOf(b) - Mul(p, SumOf(c)) - Mul(q, SumOf(d))
  {
    if moved != [] {
      var n := |a| - 1;
      SumOfMove(moved[..n], a[..n], b[..n], p, c[..n], q, d[..n]);
      Distributes(p, SumOf(c[..n]), c[n]);
      Distributes(q, SumOf(d[..n]), d[n]);
    }
  }

  // ----- Squares

  lemma PositiveProduct(p: real, q: real)
    requires p > 0.0 && q > 0.0
    ensures Mul(p, q) > 0.0
  {
  }

  lemma SquareSign(r: real)
    ensures Mul(r, r) >= 0.0 && (r != 0.0 ==> Mul(r, r) > 0.0) && (r == 0.0 ==> Mul(r, r) == 0.0)
  {
    if r > 0.0 {
      PositiveProduct(r, r);
    } else if r < 0.0 {
      PositiveProduct(-r, -r);
      assert Mul(r, r) == Mul(-r, -r);
    }
  }

  function Sq(r: real): (q: real)
    ensures q >= 0.0 && (r != 0.0 ==> q > 0.0) && (r == 0.0 ==> q == 0.0)
  {
    SquareSign(r);
    Mul(r, r)
  }

  function Squares(s: seq<real>): (r: seq<real>)
    ensures |r| == |s| && forall k :: 0 <= k < |r| ==> r[k] == Sq(s[k])
  {
    seq(|s|, k requires 0 <= k < |s| => Sq(s[k]))
  }

  lemma {:induction false} SumOfSquares(s: seq<real>)
    ensures SumOf(Squares(s)) >= 0.0
    ensures SumOf(Squares(s)) == 0.0 <==> forall k :: 0 <= k < |s| ==> s[k] == 0.0
  {
    if s != [] {
      var n := |s| - 1;
      SumOfSquares(s[..n]);
      assert Squares(s)[..n] == Squares(s[..n]);
      assert forall k :: 0 <= k < n ==> s[..n][k] == s[k];
    }
  }

  // ----- The regression

  datatype Line = Line(slope: real, intercept: real)

  function Denominator(n: real, sx: real, sxx: real): real {
    n * sxx - sx * sx
  }

  /** The line computed from the number of points and the four sums. */
  function LineOf(n: real, sx: real, sy: real, sxy: real, sxx: real): Line
    requires n > 0.0
  {
    var denominator := Denominator(n, sx, sxx);
    if denominator == 0.0 then Line(0.0, sy / n)
    else
      var slope := (n * sxy - sx * sy) / denominator;
      Line(slope, (sy - slope * sx) / n)
  }

  /** The line of `calculateLinearRegression`. */
  function Fit(x: seq<real>, y: seq<real>): Line {
    if |x| != |y| || |x| == 0 then Line(0.0, 0.0)
    else LineOf(|x| as real, SumOf(x), SumOf(y), SumOf(Products(x, y)), SumOf(Products(x, x)))
  }

  method CalculateLinearRegression(x: seq<real>, y: seq<real>) returns (line: Line)
    ensures line == Fit(x, y)
    ensures |x| == |y| && x != [] ==> forall l :: SquaredError(x, y, line) <= SquaredError(x, y, l)
  {
    if |x| != |y| || |x| == 0 {
      return Line(0.0, 0.0);
    }
    var n := |x| as real;
    var sumX, sumY, sumXY, sumX2 := Accumulate(x, y);
    line := LineOf(n, sumX, sumY, sumXY, sumX2);
    forall l
      ensures SquaredError(x, y, line) <= SquaredError(x, y, l)
    {
      FitIsOptimal(x, y, l);
    }
  }

  /** The loop of the regression. */
  method Accumulate(x: seq<real>, y: seq<real>) returns (sumX: real, sumY: real, sumXY: real, sumX2: real)
    requires |x| == |y|
    ensures sumX == SumOf(x) && sumY == SumOf(y) && sumXY == SumOf(Products(x, y)) && sumX2 == SumOf(Products(x, x))
  {
    ghost var xy, xx := Products(x, y), Products(x, x);
    sumX, sumY, sumXY, sumX2 := 0.0, 0.0, 0.0, 0.0;
    for i := 0 to |x|
      invariant sumX == SumOf(x[..i]) && sumY == SumOf(y[..i]) && sumXY == SumOf(xy[..i]) && sumX2 == SumOf(xx[..i])
    {
      Prefix(x, i);
      Prefix(y, i);
      Prefix(xy, i);
      Prefix(xx, i);
      sumX := sumX + x[i];
      sumY := sumY + y[i];
      sumXY := sumXY + Mul(x[i], y[i]);
      sumX2 := sumX2 + Mul(x[i], x[i]);
    }
    assert x[..|x|] == x && y[..|x|] == y && xy[..|x|] == xy && xx[..|x|] == xx;
  }

  lemma Prefix(s: seq<real>, i: nat)
    requires i < |s|
    ensures SumOf(s[..i + 1]) == SumOf(s[..i]) + s[i]
  {
    assert s[..i + 1][..i] == s[..i];
  }

  // ----- Residuals of a line

  function Height(l: Line, u: real): real { Mul(l.slope, u) + l.intercept }

  function Heights(l: Line, x: seq<real>): (r: seq<real>)
    ensures |r| == |x| && forall k :: 0 <= k < |r| ==> r[k] == Height(l, x[k])
  {
    seq(|x|, k requires 0 <= k < |x| => Height(l, x[k]))
  }

  function Residuals(x: seq<real>, y: seq<real>, l: Line): (r: seq<real>)
    requires |x| == |y|
    ensures |r| == |x| && forall k :: 0 <= k < |r| ==> r[k] == y[k] - Height(l, x[k])
  {
    seq(|x|, k requires 0 <= k < |x| => y[k] - Height(l, x[k]))
  }

  /** The squared error of a line on the points. */
  function SquaredError(x: seq<real>, y: seq<real>, l: Line): real
    requires |x| == |y|
  {
    SumOf(Squares(Residuals(x, y, l)))
  }

  lemma ResidualSum(x: seq<real>, y: seq<real>, l: Line)
    requires |x| == |y|
    ensures SumOf(Residuals(x, y, l)) == SumOf(y) - Mul(l.slope, SumOf(x)) - Mul(l.intercept, |x| as real)
  {
    var n := |x|;
    SumScaled(l.slope, x);
    SumScaled(l.intercept, Ones(n));
    SumOfOnes(n);
    SumDifference(Residuals(x, y, l), y, Scaled(l.slope, x), Scaled(l.intercept, Ones(n)));
  }

  lemma PointDot(u: real, v: real, l: Line)
    ensures Mul(u, v - Height(l, u)) == Mul(u, v) - Mul(l.slope, Mul(u, u)) - Mul(l.intercept, u)
  {
    assert u * (l.slope * u + l.intercept) == l.slope * (u * u) + l.intercept * u;
  }

  lemma ResidualDotAt(x: seq<real>, y: seq<real>, l: Line, k: nat)
    requires |x| == |y| && k < |x|
    ensures Products(x, Residuals(x, y, l))[k]
         == Products(x, y)[k] - Scaled(l.slope, Products(x, x))[k] - Scaled(l.intercept, x)[k]
  {
    PointDot(x[k], y[k], l);
  }

  lemma ResidualDot(x: seq<real>, y: seq<real>, l: Line)
    requires |x| == |y|
    ensures SumOf(Products(x, Residuals(x, y, l)))
         == SumOf(Products(x, y)) - Mul(l.slope, SumOf(Products(x, x))) - Mul(l.intercept, SumOf(x))
  {
    var a := Products(x, Residuals(x, y, l));
    var b, c, d := Products(x, y), Scaled(l.slope, Products(x, x)), Scaled(l.intercept, x);
    forall k | 0 <= k < |x|
      ensures a[k] == b[k] - c[k] - d[k]
    {
      ResidualDotAt(x, y, l, k);
    }
    SumScaled(l.slope, Products(x, x));
    SumScaled(l.intercept, x);
    SumDifference(a, b, c, d);
  }

  // ----- The normal equations

  lemma LineSum(n: real, sx: real, sy: real, sxy: real, sxx: real)
    requires n > 0.0
    ensures var l := LineOf(n, sx, sy, sxy, sxx); sy - Mul(l.slope, sx) - Mul(l.intercept, n) == 0.0
  {
  }

  lemma LineDot(n: real, sx: real, sy: real, sxy: real, sxx: real)
    requires n > 0.0 && Denominator(n, sx, sxx) != 0.0
    ensures var l := LineOf(n, sx, sy, sxy, sxx); sxy - Mul(l.slope, sxx) - Mul(l.intercept, sx) == 0.0
  {
    var l := LineOf(n, sx, sy, sxy, sxx);
    var s, i, d := l.slope, l.intercept, Denominator(n, sx, sxx);
    assert s * d == n * sxy - sx * sy;
    assert i * n == sy - s * sx;
    var z := sxy - s * sxx - i * sx;
    assert n * z == n * sxy - s * (n * sxx) - (i * n) * sx;
    assert (i * n) * sx == sy * sx - s * (sx * sx);
    assert s * d == s * (n * sxx) - s * (sx * sx);
    assert n * z == 0.0;
  }

  function Shifted(x: seq<real>, m: real): (r: seq<real>)
    ensures |r| == |x| && forall k :: 0 <= k < |r| ==> r[k] == x[k] - m
  {
    seq(|x|, k requires 0 <= k < |x| => x[k] - m)
  }

  lemma ShiftedSquare(u: real, m: real, l: Line)
    requires l == Line(2.0 * m, -Mul(m, m))
    ensures Sq(u - m) == Mul(u, u) - Height(l, u)
  {
    assert (u - m) * (u - m) == u * u - 2.0 * m * u + m * m;
  }

  /** The squared deviations are the residuals of the squares from a line. */
  lemma Deviations(x: seq<real>, m: real, l: Line)
    requires l == Line(2.0 * m, -Mul(m, m))
    ensures SumOf(Squares(Shifted(x, m)))
         == SumOf(Products(x, x)) - Mul(l.slope, SumOf(x)) - Mul(l.intercept, |x| as real)
  {
    forall k | 0 <= k < |x|
      ensures Squares(Shifted(x, m))[k] == Residuals(x, Products(x, x), l)[k]
    {
      ShiftedSquare(x[k], m, l);
    }
    assert Squares(Shifted(x, m)) == Residuals(x, Products(x, x), l);
    ResidualSum(x, Products(x, x), l);
  }

  lemma MeanDeviation(n: real, sx: real, sxx: real, m: real, l: Line)
    requires n > 0.0 && m == sx / n && l == Line(2.0 * m, -Mul(m, m))
    ensures Mul(n, sxx - Mul(l.slope, sx) - Mul(l.intercept, n)) == Denominator(n, sx, sxx)
  {
    assert m * n == sx;
    assert n * (2.0 * m * sx) == 2.0 * (sx * sx);
    assert n * (m * m * n) == (m * n) * (m * n);
    assert -(m * m) * n == -(m * m * n);
  }

  lemma ProductSign(n: real, z: real, w: real)
    requires n > 0.0 && w == Mul(n, z)
    ensures (z == 0.0 ==> w == 0.0) && (z > 0.0 ==> w > 0.0)
  {
  }

  lemma MeanOfConstant(n: real, c: real)
    requires n > 0.0
    ensures Mul(c, n) / n == c
  {
  }

  /** The denominator is the number of points times the sum of squared deviations. */
  lemma DenominatorDeviations(x: seq<real>, m: real)
    requires x != [] && m == SumOf(x) / |x| as real
    ensures Denominator(|x| as real, SumOf(x), SumOf(Products(x, x))) == Mul(|x| as real, SumOf(Squares(Shifted(x, m))))
  {
    var l, n, sx, sxx := Line(2.0 * m, -Mul(m, m)), |x| as real, SumOf(x), SumOf(Products(x, x));
    calc {
      Denominator(n, sx, sxx);
    == { MeanDeviation(n, sx, sxx, m, l); }
      Mul(n, sxx - Mul(l.slope, sx) - Mul(l.intercept, n));
    == { Deviations(x, m, l); }
      Mul(n, SumOf(Squares(Shifted(x, m))));
    }
  }

  /** The denominator vanishes exactly when all positions coincide. */
  lemma DenominatorZero(x: seq<real>)
    requires x != []
    ensures Denominator(|x| as real, SumOf(x), SumOf(Products(x, x))) == 0.0 <==>
              forall k :: 0 <= k < |x| ==> x[k] == x[0]
  {
    var n, m := |x| as real, SumOf(x) / |x| as real;
    var dev := Shifted(x, m);
    DenominatorDeviations(x, m);
    ProductSign(n, SumOf(Squares(dev)), Denominator(n, SumOf(x), SumOf(Products(x, x))));
    SumOfSquares(dev);
    if forall k :: 0 <= k < |x| ==> x[k] == x[0] {
      ConstantSum(x, x[0]);
      MeanOfConstant(n, x[0]);
    } else {
      var k :| 0 <= k < |x| && x[k] != x[0];
      assert dev[k] != 0.0 || dev[0] != 0.0;
    }
  }

  lemma ConstantSum(x: seq<real>, c: real)
    requires forall k :: 0 <= k < |x| ==> x[k] == c
    ensures SumOf(x) == Mul(c, |x| as real)
  {
    var n := |x|;
    SumScaled(c, Ones(n));
    SumOfOnes(n);
    assert x == Scaled(c, Ones(n));
  }

  /** The residuals of the fitted line sum to zero, also when weighted by position. */
  lemma NormalEquations(x: seq<real>, y: seq<real>)
    requires |x| == |y| && x != []
    ensures SumOf(Residuals(x, y, Fit(x, y))) == 0.0
    ensures SumOf(Products(x, Residuals(x, y, Fit(x, y)))) == 0.0
  {
    var l, n := Fit(x, y), |x| as real;
    var sx, sy, sxy, sxx := SumOf(x), SumOf(y), SumOf(Products(x, y)), SumOf(Products(x, x));
    var r := Residuals(x, y, l);
    ResidualSum(x, y, l);
    LineSum(n, sx, sy, sxy, sxx);
    if Denominator(n, sx, sxx) != 0.0 {
      ResidualDot(x, y, l);
      LineDot(n, sx, sy, sxy, sxx);
    } else {
      DenominatorZero(x);
      assert Products(x, r) == Scaled(x[0], r);
      SumScaled(x[0], r);
    }
  }

  function Plus(l: Line, m: Line): Line {
    Line(l.slope + m.slope, l.intercept + m.intercept)
  }

  lemma PointExpansion(u: real, v: real, l: Line, m: Line)
    ensures
      var r, h := v - Height(l, u), Height(m, u);
      Sq(v - Height(Plus(l, m), u)) == (Sq(r) + Sq(h)) - Mul(2.0 * m.slope, Mul(u, r)) - Mul(2.0 * m.intercept, r)
  {
    var r, h := v - Height(l, u), Height(m, u);
    assert (l.slope + m.slope) * u == l.slope * u + m.slope * u;
    assert v - Height(Plus(l, m), u) == r - h;
    assert (r - h) * (r - h) == r * r + h * h - 2.0 * (r * h);
    assert r * (m.slope * u) == m.slope * (u * r);
    assert r * h == m.slope * (u * r) + m.intercept * r;
  }

  /** Moving a line by `m` adds the squared heights of `m` to its error, less two multiples
      of the sums of its residuals. */
  lemma ErrorOfMoving(x: seq<real>, y: seq<real>, l: Line, m: Line)
    requires |x| == |y|
    ensures
      var r := Residuals(x, y, l);
      SquaredError(x, y, Plus(l, m)) == SquaredError(x, y, l) + SumOf(Squares(Heights(m, x)))
                                        - Mul(2.0 * m.slope, SumOf(Products(x, r))) - Mul(2.0 * m.intercept, SumOf(r))
  {
    var r, h := Residuals(x, y, l), Heights(m, x);
    var moved := Squares(Residuals(x, y, Plus(l, m)));
    forall k | 0 <= k < |x|
      ensures moved[k] == Squares(r)[k] + Squares(h)[k] - Mul(2.0 * m.slope, Products(x, r)[k])
                                                        - Mul(2.0 * m.intercept, r[k])
    {
      PointExpansion(x[k], y[k], l, m);
    }
    SumOfMove(moved, Squares(r), Squares(h), 2.0 * m.slope, Products(x, r), 2.0 * m.intercept, r);
  }

  lemma MulZero(p: real)
    ensures Mul(p, 0.0) == 0.0
  {
  }

  /** Moving the fitted line by `m` adds exactly the squared heights of `m` to its error. */
  lemma ErrorOfMove(x: seq<real>, y: seq<real>, m: Line)
    requires |x| == |y| && x != []
    ensures SquaredError(x, y, Plus(Fit(x, y), m)) == SquaredError(x, y, Fit(x, y)) + SumOf(Squares(Heights(m, x)))
  {
    ErrorOfMoving(x, y, Fit(x, y), m);
    NormalEquations(x, y);
    MulZero(2.0 * m.slope);
    MulZero(2.0 * m.intercept);
  }

  /** Least squares: no line has a smaller squared error than the fitted one, in the
      ordinary and in the zero-denominator branch; and when the positions do not all
      coincide, no other line has an equally small one. */
  lemma FitIsOptimal(x: seq<real>, y: seq<real>, l: Line)
    requires |x| == |y| && x != []
    ensures SquaredError(x, y, Fit(x, y)) <= SquaredError(x, y, l)
    ensures (exists k :: 0 <= k < |x| && x[k] != x[0]) && l != Fit(x, y) ==>
              SquaredError(x, y, Fit(x, y)) < SquaredError(x, y, l)
  {
    var f := Fit(x, y);
    var m := Line(l.slope - f.slope, l.intercept - f.intercept);
    assert Plus(f, m) == l;
    ErrorOfMove(x, y, m);
    SumOfSquares(Heights(m, x));
    if k :| 0 <= k < |x| && x[k] != x[0] {
      if l != f && Heights(m, x)[0] == 0.0 && Heights(m, x)[k] == 0.0 {
        TwoPointLine(m, x[0], x[k]);
        assert false;
      }
    }
  }

  lemma NonzeroProduct(a: real, b: real)
    requires a != 0.0 && b != 0.0
    ensures Mul(a, b) > 0.0 || Mul(a, b) < 0.0
  {
    var p, q := if a > 0.0 then a else -a, if b > 0.0 then b else -b;
    assert p * q > 0.0;
    assert Mul(a, b) == p * q || Mul(a, b) == -(p * q);
  }

  /** A line that vanishes at two positions is zero. */
  lemma TwoPointLine(m: Line, u: real, v: real)
    requires u != v && Height(m, u) == 0.0 && Height(m, v) == 0.0
    ensures m == Line(0.0, 0.0)
  {
    assert Mul(m.slope, u - v) == Mul(m.slope, u) - Mul(m.slope, v);
    if m.slope != 0.0 {
      NonzeroProduct(m.slope, u - v);
      assert false;
    }
    assert Mul(0.0, u) == 0.0;
  }

  // ----- Quality scores

  /** Squared deviations from the mean of all of `y`, over the first `n` values. */
  function TotalSquares(y: seq<real>, n: nat, mean: real): real
    requires n <= |y|
  {
    SumOf(Squares(Shifted(y[..n], mean)))
  }

  function R2(x: seq<real>, y: seq<real>, l: Line): real
    requires |x| <= |y|
  {
    if |x| == 0 then 0.0
    else
      var mean := SumOf(y) / |y| as real;
      var total := TotalSquares(y, |x|, mean);
      if total == 0.0 then 1.0 else 1.0 - SquaredError(x, y[..|x|], l) / total
  }

  method CalculateR2Score(x: seq<real>, y: seq<real>, slope: real, intercept: real) returns (r2: real)
    requires |x| <= |y|
    ensures r2 == R2(x, y, Line(slope, intercept))
  {
    if |x| == 0 {
      return 0.0;
    }
    var yMean := 0.0;
    for i := 0 to |y|
      invariant yMean == SumOf(y[..i])
    {
      Prefix(y, i);
      yMean := yMean + y[i];
    }
    assert y[..|y|] == y;
    yMean := yMean / |y| as real;
    var ssTotal, ssResidual := Errors(x, y, Line(slope, intercept), yMean);
    if ssTotal == 0.0 {
      return 1.0;
    }
    return 1.0 - ssResidual / ssTotal;
  }

  /** The second loop of the score. */
  method Errors(x: seq<real>, y: seq<real>, l: Line, mean: real) returns (ssTotal: real, ssResidual: real)
    requires |x| <= |y|
    ensures ssTotal == TotalSquares(y, |x|, mean) && ssResidual == SquaredError(x, y[..|x|], l)
  {
    ghost var t, r := Squares(Shifted(y[..|x|], mean)), Squares(Residuals(x, y[..|x|], l));
    ssTotal, ssResidual := 0.0, 0.0;
    for i := 0 to |x|
      invariant ssTotal == SumOf(t[..i]) && ssResidual == SumOf(r[..i])
    {
      Prefix(t, i);
      Prefix(r, i);
      var predicted := Height(l, x[i]);
      ssTotal := ssTotal + Sq(y[i] - mean);
      ssResidual := ssResidual + Sq(y[i] - predicted);
    }
    assert t[..|x|] == t && r[..|x|] == r;
  }

  function TrendStrength(r2: real): real {
    var least := if r2 < 1.0 then r2 else 1.0;
    if least > 0.0 then least else 0.0
  }

  function Confidence(points: nat, r2: real): real {
    var score := if points as real / 30.0 < 1.0 then points as real / 30.0 else 1.0;
    score * 0.4 + r2 * 0.6
  }

  lemma QuotientInUnit(a: real, b: real)
    requires 0.0 <= a <= b && b > 0.0
    ensures 0.0 <= a / b <= 1.0 && (a == 0.0 <==> a / b == 0.0)
  {
    assert b * (a / b) == a;
  }

  /** The fitted line's score lies in the unit interval, so clamping leaves it alone and
      the confidence stays in the unit interval; it is 1 exactly when every point lies
      on the line. */
  lemma FitQuality(x: seq<real>, y: seq<real>)
    requires |x| == |y|
    ensures var r2 := R2(x, y, Fit(x, y));
            && 0.0 <= r2 <= 1.0
            && TrendStrength(r2) == r2
            && 0.0 <= Confidence(|x|, r2) <= 1.0
            && (x != [] ==> (r2 == 1.0 <==> forall k :: 0 <= k < |x| ==> y[k] == Height(Fit(x, y), x[k])))
  {
    if x != [] {
      var l, mean := Fit(x, y), SumOf(y) / |y| as real;
      var flat := Line(0.0, mean);
      assert y[..|x|] == y;
      assert Residuals(x, y, flat) == Shifted(y, mean) by {
        assert forall k :: 0 <= k < |x| ==> Mul(0.0, x[k]) == 0.0;
      }
      FitIsOptimal(x, y, flat);
      SumOfSquares(Residuals(x, y, l));
      SumOfSquares(Shifted(y, mean));
      var total := TotalSquares(y, |x|, mean);
      if total > 0.0 {
        QuotientInUnit(SquaredError(x, y, l), total);
      }
    }
  }

  lemma ShareOfTotal(error: real, total: real)
    requires total != 0.0
    ensures Mul(1.0 - (1.0 - error / total), total) == error
  {
  }

  lemma ScoreIs(x: seq<real>, y: seq<real>, l: Line, mean: real, points: seq<real>)
    requires x != [] && |x| <= |y| && mean == SumOf(y) / |y| as real && points == y[..|x|]
    ensures var total, error := SumOf(Squares(Shifted(points, mean))), SumOf(Squares(Residuals(x, points, l)));
            R2(x, y, l) == if total == 0.0 then 1.0 else 1.0 - error / total
  {
  }

  /** The score of any line: what is missing to one, as a part of the squared deviations of the values from the mean of
      all, is the sum of its squared errors. */
  lemma ScoreMeaning(x: seq<real>, y: seq<real>, l: Line, mean: real, points: seq<real>)
    requires |x| <= |y| && Mul(mean, |y| as real) == SumOf(y) && points == y[..|x|]
    ensures var total, error := SumOf(Squares(Shifted(points, mean))), SumOf(Squares(Residuals(x, points, l)));
            if x == [] then R2(x, y, l) == 0.0
            else if total == 0.0 then R2(x, y, l) == 1.0
            else Mul(1.0 - R2(x, y, l), total) == error
  {
    if x != [] {
      var total, error := SumOf(Squares(Shifted(points, mean))), SumOf(Squares(Residuals(x, points, l)));
      MeanOfConstant(|y| as real, mean);
      ScoreIs(x, y, l, mean, points);
      if total != 0.0 {
        ShareOfTotal(error, total);
      }
    }
  }

  /** Strength is the score cut off to the unit interval; confidence weighs the score with six tenths and the number of
      points, of which thirty are enough, with four tenths. */
  lemma ScoresMeaning(points: nat, r2: real)
    ensures 0.0 <= r2 <= 1.0 ==> TrendStrength(r2) == r2
    ensures r2 < 0.0 ==> TrendStrength(r2) == 0.0
    ensures r2 > 1.0 ==> TrendStrength(r2) == 1.0
    ensures points >= 30 ==> Confidence(points, r2) == 0.4 + 0.6 * r2
    ensures points < 30 ==> Confidence(points, r2) == points as real / 75.0 + 0.6 * r2
  {
  }
}

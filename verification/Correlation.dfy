/** The fan and inlet-temperature correlation, over the reals. The square root is the library's: the
    method takes it as a function that meets its definition. */
module Correlation {
  import opened Wrappers

  type Series = seq<real>

  function Times(x: real, y: real): real {
    x * y
  }

  function Sum(s: Series): real {
    if s == [] then 0.0 else Sum(s[..|s| - 1]) + s[|s| - 1]
  }

  function Dot(a: Series, b: Series): real
    requires |a| == |b|
  {
    if a == [] then 0.0 else Dot(a[..|a| - 1], b[..|b| - 1]) + Times(a[|a| - 1], b[|b| - 1])
  }

  function Mean(s: Series): real
    requires |s| > 0
  {
    Sum(s) / |s| as real
  }

  function Deviations(s: Series): (d: Series)
    requires |s| > 0
    ensures |d| == |s| && forall i :: 0 <= i < |s| ==> d[i] == s[i] - Mean(s)
  {
    var m := Mean(s);
    seq(|s|, i requires 0 <= i < |s| => s[i] - m)
  }

  function Covariance(xs: Series, ys: Series): real
    requires |xs| == |ys| > 0
  {
    Dot(Deviations(xs), Deviations(ys))
  }

  function Spread(s: Series): real
    requires |s| > 0
  {
    Covariance(s, s)
  }

  /** The square of |r| from the three sums; None for a series without spread. */
  function Squared(cov: real, vx: real, vy: real): Option<real> {
    if vx <= 0.0 || vy <= 0.0 then None
    else
      PositiveProduct(vx, vy);
      Some(Times(cov, cov) / Times(vx, vy))
  }

  function SquaredCoefficient(xs: Series, ys: Series): Option<real>
    requires |xs| == |ys| > 0
  {
    Squared(Covariance(xs, ys), Spread(xs), Spread(ys))
  }

  // ---- products of reals ----------------------------------------------------------------------

  lemma PositiveProduct(a: real, b: real)
    requires a > 0.0 && b > 0.0
    ensures Times(a, b) > 0.0
  {
  }

  lemma SquarePositive(x: real)
    requires x != 0.0
    ensures Times(x, x) > 0.0
  {
    if x > 0.0 {
      PositiveProduct(x, x);
    } else {
      PositiveProduct(-x, -x);
      assert x * x == (-x) * (-x);
    }
  }

  lemma ZeroProduct(x: real)
    ensures Times(0.0, x) == 0.0 && Times(x, 0.0) == 0.0
  {
  }

  lemma SquareSign(x: real)
    ensures Times(x, x) >= 0.0 && (Times(x, x) == 0.0 <==> x == 0.0)
  {
    if x == 0.0 {
      ZeroProduct(x);
    } else {
      SquarePositive(x);
    }
  }

  lemma SignOfProduct(v: real, d: real)
    requires v > 0.0
    ensures Times(v, d) >= 0.0 ==> d >= 0.0
    ensures Times(v, d) == 0.0 <==> d == 0.0
    ensures Times(v, d) > 0.0 <==> d > 0.0
  {
    if d < 0.0 {
      PositiveProduct(v, -d);
      assert v * d == -(v * (-d));
    } else if d > 0.0 {
      PositiveProduct(v, d);
    } else {
      ZeroProduct(v);
    }
  }

  lemma Commute(x: real, y: real)
    ensures Times(x, y) == Times(y, x)
  {
  }

  lemma Associate(x: real, y: real, z: real)
    ensures Times(Times(x, y), z) == Times(x, Times(y, z))
  {
  }

  lemma Distribute(k: real, x: real, y: real)
    ensures Times(k, x + y) == Times(k, x) + Times(k, y) && Times(k, x - y) == Times(k, x) - Times(k, y)
  {
  }

  lemma Quotient(q: real, a: real, b: real)
    requires b > 0.0 && Times(q, b) == a
    ensures a / b == q
  {
  }

  lemma QuotientTimes(a: real, b: real)
    requires b > 0.0
    ensures Times(a / b, b) == a
  {
  }

  // ---- Cauchy-Schwarz -------------------------------------------------------------------------

  lemma {:induction false} DotSymmetric(a: Series, b: Series)
    requires |a| == |b|
    ensures Dot(a, b) == Dot(b, a)
  {
    if a != [] {
      DotSymmetric(a[..|a| - 1], b[..|b| - 1]);
      Commute(a[|a| - 1], b[|b| - 1]);
    }
  }

  /** A sum of squares is not negative, and is zero only for zeros. */
  lemma {:induction false} DotSelf(a: Series)
    ensures Dot(a, a) >= 0.0
    ensures Dot(a, a) == 0.0 <==> forall i :: 0 <= i < |a| ==> a[i] == 0.0
  {
    if a != [] {
      var n := |a| - 1;
      DotSelf(a[..n]);
      assert forall i :: 0 <= i < n ==> a[..n][i] == a[i];
      SquareSign(a[n]);
    }
  }

  function Residual(c: real, x: real, v: real, y: real): real {
    Times(c, x) - Times(v, y)
  }

  /** c times one series less v times the other. */
  function Combination(c: real, a: Series, v: real, b: Series): (r: Series)
    requires |a| == |b|
    ensures |r| == |a| && forall i :: 0 <= i < |a| ==> r[i] == Residual(c, a[i], v, b[i])
  {
    seq(|a|, i requires 0 <= i < |a| == |b| => Residual(c, a[i], v, b[i]))
  }

  /** The square of a difference of products, in the sums it is made of. */
  function Expanded(c: real, v: real, xx: real, xy: real, yy: real): real {
    Times(Times(c, c), xx) - 2.0 * Times(Times(c, v), xy) + Times(Times(v, v), yy)
  }

  lemma SquareOfResidual(c: real, x: real, v: real, y: real)
    ensures Times(Residual(c, x, v, y), Residual(c, x, v, y)) == Expanded(c, v, Times(x, x), Times(x, y), Times(y, y))
  {
    var p, q := c * x, v * y;
    assert (p - q) * (p - q) == p * p - 2.0 * (p * q) + q * q;
    assert p * p == (c * c) * (x * x);
    assert q * q == (v * v) * (y * y);
    assert p * q == (c * v) * (x * y);
  }

  lemma ExpandedAdds(c: real, v: real, aa: real, ab: real, bb: real, xx: real, xy: real, yy: real)
    ensures Expanded(c, v, aa, ab, bb) + Expanded(c, v, xx, xy, yy) == Expanded(c, v, aa + xx, ab + xy, bb + yy)
  {
    Distribute(Times(c, c), aa, xx);
    Distribute(Times(c, v), ab, xy);
    Distribute(Times(v, v), bb, yy);
  }

  lemma ExpandedZero(c: real, v: real)
    ensures Expanded(c, v, 0.0, 0.0, 0.0) == 0.0
  {
    ZeroProduct(Times(c, c));
    ZeroProduct(Times(c, v));
    ZeroProduct(Times(v, v));
  }

  lemma {:induction false} DotOfCombination(c: real, a: Series, v: real, b: Series)
    requires |a| == |b|
    ensures Dot(Combination(c, a, v, b), Combination(c, a, v, b)) == Expanded(c, v, Dot(a, a), Dot(a, b), Dot(b, b))
  {
    if a == [] {
      ExpandedZero(c, v);
    } else {
      var n := |a| - 1;
      var whole := Combination(c, a, v, b);
      assert whole[..n] == Combination(c, a[..n], v, b[..n]);
      DotOfCombination(c, a[..n], v, b[..n]);
      SquareOfResidual(c, a[n], v, b[n]);
      ExpandedAdds(c, v, Dot(a[..n], a[..n]), Dot(a[..n], b[..n]), Dot(b[..n], b[..n]),
                   Times(a[n], a[n]), Times(a[n], b[n]), Times(b[n], b[n]));
    }
  }

  lemma ExpandedFactors(cov: real, vx: real, vy: real)
    ensures Expanded(cov, vx, vx, cov, vy) == Times(vx, Times(vx, vy) - Times(cov, cov))
  {
    assert (cov * cov) * vx == vx * (cov * cov);
    assert (cov * vx) * cov == vx * (cov * cov);
    assert (vx * vx) * vy == vx * (vx * vy);
    assert vx * (vx * vy) - vx * (cov * cov) == vx * (vx * vy - cov * cov);
  }

  /** One series is everywhere the same multiple of the other. */
  predicate Collinear(a: Series, b: Series)
    requires |a| == |b|
  {
    forall i :: 0 <= i < |a| ==> Residual(Dot(a, b), a[i], Dot(a, a), b[i]) == 0.0
  }

  lemma {:induction false} DotZero(a: Series, b: Series)
    requires |a| == |b| && forall i :: 0 <= i < |a| ==> a[i] == 0.0
    ensures Dot(a, b) == 0.0
  {
    if a != [] {
      DotZero(a[..|a| - 1], b[..|b| - 1]);
      ZeroProduct(b[|b| - 1]);
    }
  }

  /** The square of a dot product is at most the product of the squares, with equality exactly for
      collinear series. */
  lemma CauchySchwarz(a: Series, b: Series)
    requires |a| == |b|
    ensures Times(Dot(a, b), Dot(a, b)) <= Times(Dot(a, a), Dot(b, b))
    ensures Dot(a, a) > 0.0 ==> (Times(Dot(a, b), Dot(a, b)) == Times(Dot(a, a), Dot(b, b)) <==> Collinear(a, b))
  {
    var cov, vx, vy := Dot(a, b), Dot(a, a), Dot(b, b);
    DotSelf(a);
    if vx > 0.0 {
      var d := Combination(cov, a, vx, b);
      DotOfCombination(cov, a, vx, b);
      ExpandedFactors(cov, vx, vy);
      DotSelf(d);
      SignOfProduct(vx, Times(vx, vy) - Times(cov, cov));
    } else {
      DotZero(a, b);
      ZeroProduct(cov);
      ZeroProduct(vy);
    }
  }

  lemma SquaredInUnitInterval(cov: real, vx: real, vy: real)
    requires vx > 0.0 && vy > 0.0 && Times(cov, cov) <= Times(vx, vy)
    ensures 0.0 <= Squared(cov, vx, vy).value <= 1.0
    ensures Squared(cov, vx, vy).value == 1.0 <==> Times(cov, cov) == Times(vx, vy)
  {
    PositiveProduct(vx, vy);
    SquareSign(cov);
    FractionInUnitInterval(Times(cov, cov), Times(vx, vy));
  }

  lemma FractionInUnitInterval(c: real, p: real)
    requires 0.0 <= c <= p && p > 0.0
    ensures 0.0 <= c / p <= 1.0 && (c / p == 1.0 <==> c == p)
  {
    var q := c / p;
    QuotientTimes(c, p);
    Commute(q, p);
    SignOfProduct(p, q);
    SignOfProduct(p, 1.0 - q);
    assert Times(p, 1.0 - q) == p - Times(p, q);
  }

  lemma RootInUnitInterval(r: real)
    requires Times(r, r) <= 1.0
    ensures r <= 1.0
  {
    if r > 0.0 {
      Distribute(r, r, 1.0);
      assert Times(r, 1.0) == r;
      SignOfProduct(r, r - 1.0);
    }
  }

  /** The squared coefficient lies in [0, 1], and is 1 exactly when the deviations are collinear. */
  lemma CoefficientInUnitInterval(xs: Series, ys: Series)
    requires |xs| == |ys| > 0 && SquaredCoefficient(xs, ys).Some?
    ensures 0.0 <= SquaredCoefficient(xs, ys).value <= 1.0
    ensures SquaredCoefficient(xs, ys).value == 1.0 <==> Collinear(Deviations(xs), Deviations(ys))
  {
    CauchySchwarz(Deviations(xs), Deviations(ys));
    SquaredInUnitInterval(Covariance(xs, ys), Spread(xs), Spread(ys));
  }

  /** So the reported coefficient, its nonnegative root, lies there too. */
  lemma ReportedInUnitInterval(xs: Series, ys: Series, r: real)
    requires |xs| == |ys| > 0 && SquaredCoefficient(xs, ys).Some?
    requires r >= 0.0 && Times(r, r) == SquaredCoefficient(xs, ys).value
    ensures 0.0 <= r <= 1.0
  {
    CoefficientInUnitInterval(xs, ys);
    RootInUnitInterval(r);
  }

  // ---- symmetry, shifts and scalings ----------------------------------------------------------

  lemma CoefficientIsSymmetric(xs: Series, ys: Series)
    requires |xs| == |ys| > 0
    ensures SquaredCoefficient(xs, ys) == SquaredCoefficient(ys, xs)
  {
    DotSymmetric(Deviations(xs), Deviations(ys));
    Commute(Spread(xs), Spread(ys));
  }

  function Shifted(s: Series, shift: real): (r: Series)
    ensures |r| == |s| && forall i :: 0 <= i < |s| ==> r[i] == s[i] + shift
  {
    seq(|s|, i requires 0 <= i < |s| => s[i] + shift)
  }

  function Scaled(s: Series, k: real): (r: Series)
    ensures |r| == |s| && forall i :: 0 <= i < |s| ==> r[i] == Times(k, s[i])
  {
    seq(|s|, i requires 0 <= i < |s| => Times(k, s[i]))
  }

  lemma {:induction false} SumShifted(s: Series, shift: real)
    ensures Sum(Shifted(s, shift)) == Sum(s) + Times(shift, |s| as real)
  {
    if s == [] {
      ZeroProduct(shift);
    } else {
      var n := |s| - 1;
      assert Shifted(s, shift)[..n] == Shifted(s[..n], shift);
      SumShifted(s[..n], shift);
      Distribute(shift, n as real, 1.0);
      assert Times(shift, 1.0) == shift;
    }
  }

  lemma {:induction false} SumScaled(s: Series, k: real)
    ensures Sum(Scaled(s, k)) == Times(k, Sum(s))
  {
    if s == [] {
      ZeroProduct(k);
    } else {
      var n := |s| - 1;
      assert Scaled(s, k)[..n] == Scaled(s[..n], k);
      SumScaled(s[..n], k);
      Distribute(k, Sum(s[..n]), s[n]);
    }
  }

  lemma {:induction false} DotScaled(a: Series, b: Series, k: real)
    requires |a| == |b|
    ensures Dot(Scaled(a, k), b) == Times(k, Dot(a, b))
  {
    if a == [] {
      ZeroProduct(k);
    } else {
      var n := |a| - 1;
      assert Scaled(a, k)[..n] == Scaled(a[..n], k);
      DotScaled(a[..n], b[..n], k);
      Associate(k, a[n], b[n]);
      Distribute(k, Dot(a[..n], b[..n]), Times(a[n], b[n]));
    }
  }

  lemma DivideShifted(a: real, shift: real, n: real)
    requires n > 0.0
    ensures (a + Times(shift, n)) / n == a / n + shift
  {
    QuotientTimes(a, n);
    Commute(n, a / n + shift);
    Commute(n, a / n);
    Commute(n, shift);
    Distribute(n, a / n, shift);
    Quotient(a / n + shift, a + Times(shift, n), n);
  }

  lemma DivideScaled(k: real, a: real, n: real)
    requires n > 0.0
    ensures Times(k, a) / n == Times(k, a / n)
  {
    QuotientTimes(a, n);
    Associate(k, a / n, n);
    Quotient(Times(k, a / n), Times(k, a), n);
  }

  lemma DeviationsShifted(s: Series, shift: real)
    requires |s| > 0
    ensures Deviations(Shifted(s, shift)) == Deviations(s)
  {
    SumShifted(s, shift);
    DivideShifted(Sum(s), shift, |s| as real);
    assert Mean(Shifted(s, shift)) == Mean(s) + shift;
  }

  lemma DeviationsScaled(s: Series, k: real)
    requires |s| > 0
    ensures Deviations(Scaled(s, k)) == Scaled(Deviations(s), k)
  {
    SumScaled(s, k);
    DivideScaled(k, Sum(s), |s| as real);
    assert Mean(Scaled(s, k)) == Times(k, Mean(s));
    forall i | 0 <= i < |s| ensures Times(k, s[i]) - Times(k, Mean(s)) == Times(k, s[i] - Mean(s)) {
      Distribute(k, s[i], Mean(s));
    }
  }

  /** Shifting either series changes nothing. */
  lemma CoefficientIgnoresShift(xs: Series, ys: Series, shift: real)
    requires |xs| == |ys| > 0
    ensures SquaredCoefficient(Shifted(xs, shift), ys) == SquaredCoefficient(xs, ys)
    ensures SquaredCoefficient(xs, Shifted(ys, shift)) == SquaredCoefficient(xs, ys)
  {
    DeviationsShifted(xs, shift);
    DeviationsShifted(ys, shift);
  }

  lemma SquaredScales(k: real, cov: real, vx: real, vy: real)
    requires k != 0.0
    ensures Squared(Times(k, cov), Times(Times(k, k), vx), vy) == Squared(cov, vx, vy)
  {
    var m := Times(k, k);
    SquarePositive(k);
    SignOfProduct(m, vx);
    if vx > 0.0 && vy > 0.0 {
      PositiveProduct(vx, vy);
      PositiveProduct(m, Times(vx, vy));
      SquareOfProduct(k, cov);
      Associate(m, vx, vy);
      SameFraction(m, Times(cov, cov), Times(vx, vy));
    }
  }

  lemma SquareOfProduct(k: real, x: real)
    ensures Times(Times(k, x), Times(k, x)) == Times(Times(k, k), Times(x, x))
  {
  }

  lemma SameFraction(m: real, a: real, b: real)
    requires b > 0.0 && Times(m, b) > 0.0
    ensures Times(m, a) / Times(m, b) == a / b
  {
    var q := a / b;
    QuotientTimes(a, b);
    Commute(q, Times(m, b));
    Commute(q, b);
    Associate(m, b, q);
    Quotient(q, Times(m, a), Times(m, b));
  }

  lemma SpreadScales(s: Series, k: real)
    requires |s| > 0
    ensures Spread(Scaled(s, k)) == Times(Times(k, k), Spread(s))
  {
    var d := Deviations(s);
    DeviationsScaled(s, k);
    DotScaled(d, Scaled(d, k), k);
    DotSymmetric(d, Scaled(d, k));
    DotScaled(d, d, k);
    Associate(k, k, Dot(d, d));
  }

  /** Scaling a series by anything but zero changes nothing, its sign included. */
  lemma CoefficientIgnoresScale(xs: Series, ys: Series, k: real)
    requires |xs| == |ys| > 0 && k != 0.0
    ensures SquaredCoefficient(Scaled(xs, k), ys) == SquaredCoefficient(xs, ys)
    ensures SquaredCoefficient(ys, Scaled(xs, k)) == SquaredCoefficient(ys, xs)
  {
    DeviationsScaled(xs, k);
    DotScaled(Deviations(xs), Deviations(ys), k);
    SpreadScales(xs, k);
    SquaredScales(k, Covariance(xs, ys), Spread(xs), Spread(ys));
    CoefficientIsSymmetric(Scaled(xs, k), ys);
    CoefficientIsSymmetric(xs, ys);
  }

  /** There is no coefficient exactly when one of the series is constant. */
  lemma NoneIffConstant(xs: Series, ys: Series)
    requires |xs| == |ys| > 0
    ensures SquaredCoefficient(xs, ys).None? <==> Constant(xs) || Constant(ys)
  {
    SpreadIffVaries(xs);
    SpreadIffVaries(ys);
  }

  predicate Constant(s: Series) {
    forall i, j :: 0 <= i < |s| && 0 <= j < |s| ==> s[i] == s[j]
  }

  lemma SpreadIffVaries(s: Series)
    requires |s| > 0
    ensures Spread(s) <= 0.0 <==> Constant(s)
  {
    DotSelf(Deviations(s));
    if Constant(s) {
      SumConstant(s, s[0]);
      Quotient(s[0], Sum(s), |s| as real);
    }
  }

  lemma {:induction false} SumConstant(s: Series, x: real)
    requires forall i :: 0 <= i < |s| ==> s[i] == x
    ensures Sum(s) == Times(x, |s| as real)
  {
    if s == [] {
      ZeroProduct(x);
    } else {
      var n := |s| - 1;
      SumConstant(s[..n], x);
      Distribute(x, n as real, 1.0);
      assert Times(x, 1.0) == x;
    }
  }

  // ---- from the raw sums ----------------------------------------------------------------------

  /** The mean is the average: taken for every sample it gives the sum. */
  lemma MeanTimesCount(s: Series)
    requires |s| > 0
    ensures Times(Mean(s), |s| as real) == Sum(s)
  {
    QuotientTimes(Sum(s), |s| as real);
  }

  /** The deviations cancel. */
  lemma DeviationsCancel(s: Series)
    requires |s| > 0
    ensures Sum(Deviations(s)) == 0.0
  {
    var m := Mean(s);
    assert Deviations(s) == Shifted(s, -m);
    SumShifted(s, -m);
    MeanTimesCount(s);
    assert Times(-m, |s| as real) == -Times(m, |s| as real);
  }

  /** What moving two series by `p` and `q` adds to their dot product. */
  function ShiftTerms(p: real, q: real, sa: real, sb: real, n: real): real {
    Times(q, sa) + Times(p, sb) + Times(Times(p, q), n)
  }

  lemma ShiftTermsAdd(p: real, q: real, sa: real, sb: real, n: real, x: real, y: real)
    ensures Times(x + p, y + q) == Times(x, y) + ShiftTerms(p, q, x, y, 1.0)
    ensures ShiftTerms(p, q, sa, sb, n) + ShiftTerms(p, q, x, y, 1.0) == ShiftTerms(p, q, sa + x, sb + y, n + 1.0)
  {
    Distribute(q, sa, x);
    Distribute(p, sb, y);
    Distribute(Times(p, q), n, 1.0);
    assert (x + p) * (y + q) == x * y + x * q + p * y + p * q;
    assert x * q == q * x;
  }

  lemma {:induction false} DotShifted(a: Series, b: Series, p: real, q: real)
    requires |a| == |b|
    ensures Dot(Shifted(a, p), Shifted(b, q)) == Dot(a, b) + ShiftTerms(p, q, Sum(a), Sum(b), |a| as real)
  {
    if a == [] {
      ZeroProduct(p);
      ZeroProduct(q);
      ZeroProduct(Times(p, q));
    } else {
      var n := |a| - 1;
      assert Shifted(a, p)[..n] == Shifted(a[..n], p) && Shifted(b, q)[..n] == Shifted(b[..n], q);
      DotShifted(a[..n], b[..n], p, q);
      ShiftTermsAdd(p, q, Sum(a[..n]), Sum(b[..n]), n as real, a[n], b[n]);
      assert n as real + 1.0 == |a| as real;
    }
  }

  /** n times the sum of products, less the product of the sums: no mean, no deviation. */
  function RawCovariance(xs: Series, ys: Series): real
    requires |xs| == |ys|
  {
    Times(|xs| as real, Dot(xs, ys)) - Times(Sum(xs), Sum(ys))
  }

  lemma MeansCancel(n: real, mx: real, my: real, sx: real, sy: real)
    requires Times(mx, n) == sx && Times(my, n) == sy
    ensures Times(n, ShiftTerms(-mx, -my, sx, sy, n)) == -Times(sx, sy)
  {
    assert n * ((-my) * sx) == -((my * n) * sx);
    assert n * ((-mx) * sy) == -((mx * n) * sy);
    assert n * (((-mx) * (-my)) * n) == (mx * n) * (my * n);
    Distribute(n, Times(-my, sx) + Times(-mx, sy), Times(Times(-mx, -my), n));
    Distribute(n, Times(-my, sx), Times(-mx, sy));
  }

  /** The covariance sum of the deviations, from the raw sums. */
  lemma CovarianceFromSums(xs: Series, ys: Series)
    requires |xs| == |ys| > 0
    ensures Times(|xs| as real, Covariance(xs, ys)) == RawCovariance(xs, ys)
  {
    var n, mx, my := |xs| as real, Mean(xs), Mean(ys);
    assert Deviations(xs) == Shifted(xs, -mx) && Deviations(ys) == Shifted(ys, -my);
    DotShifted(xs, ys, -mx, -my);
    MeanTimesCount(xs);
    MeanTimesCount(ys);
    MeansCancel(n, mx, my, Sum(xs), Sum(ys));
    Distribute(n, Dot(xs, ys), ShiftTerms(-mx, -my, Sum(xs), Sum(ys), n));
  }

  lemma SquaredOfMultiples(k: real, cov: real, vx: real, vy: real)
    requires k > 0.0
    ensures Squared(Times(k, cov), Times(k, vx), Times(k, vy)) == Squared(cov, vx, vy)
  {
    SignOfProduct(k, vx);
    SignOfProduct(k, vy);
    if vx > 0.0 && vy > 0.0 {
      PositiveProduct(vx, vy);
      PositiveProduct(k, k);
      PositiveProduct(Times(k, k), Times(vx, vy));
      SquareOfProduct(k, cov);
      assert Times(Times(k, vx), Times(k, vy)) == Times(Times(k, k), Times(vx, vy));
      SameFraction(Times(k, k), Times(cov, cov), Times(vx, vy));
    }
  }

  /** The coefficient of the raw sums, (n Sxy - Sx Sy)^2 / ((n Sxx - Sx^2) (n Syy - Sy^2)), is the one
      taken about the means. */
  lemma CoefficientFromSums(xs: Series, ys: Series)
    requires |xs| == |ys| > 0
    ensures SquaredCoefficient(xs, ys) == Squared(RawCovariance(xs, ys), RawCovariance(xs, xs), RawCovariance(ys, ys))
  {
    CovarianceFromSums(xs, ys);
    CovarianceFromSums(xs, xs);
    CovarianceFromSums(ys, ys);
    SquaredOfMultiples(|xs| as real, Covariance(xs, ys), Spread(xs), Spread(ys));
  }

  // ---- choosing the series --------------------------------------------------------------------

  /** A learned baseline: its sensor id and the values of its ring buffer, oldest first. */
  datatype Baseline = Baseline(sensorId: string, values: Series)

  predicate Contains(s: string, part: string) {
    exists i :: 0 <= i <= |s| && part <= s[i..]
  }

  predicate IsFan(id: string) {
    "fan:" <= id && Contains(id, "Fan1A")
  }

  predicate IsThermal(id: string) {
    "thermal:" <= id && Contains(id, "Inlet")
  }

  /** The last baseline with the property. */
  function LastFan(bs: seq<Baseline>): Option<Series> {
    if bs == [] then None
    else if IsFan(bs[|bs| - 1].sensorId) then Some(bs[|bs| - 1].values)
    else LastFan(bs[..|bs| - 1])
  }

  function LastThermal(bs: seq<Baseline>): Option<Series> {
    if bs == [] then None
    else if IsThermal(bs[|bs| - 1].sensorId) then Some(bs[|bs| - 1].values)
    else LastThermal(bs[..|bs| - 1])
  }

  lemma NotBoth(id: string)
    ensures !(IsFan(id) && IsThermal(id))
  {
    assert "fan:" <= id ==> id[0] == 'f';
    assert "thermal:" <= id ==> id[0] == 't';
  }

  lemma SplitAround(id: string, prefix: string, part: string, i: nat)
    requires prefix <= id && |prefix| <= i <= |id| && part <= id[i..]
    ensures id == prefix + id[|prefix|..i] + part + id[i + |part|..]
  {
    assert id[i..] == part + id[i..][|part|..];
  }

  lemma AroundContains(prefix: string, a: string, part: string, b: string)
    ensures prefix <= prefix + a + part + b && Contains(prefix + a + part + b, part)
  {
    var id := prefix + a + part + b;
    assert id[|prefix + a|..] == part + b;
  }

  /** A part without the last letter of the prefix begins after it. */
  lemma BeginsAfter(id: string, prefix: string, part: string, i: nat)
    requires prefix <= id && i <= |id| && part <= id[i..] && prefix != ""
    requires prefix[|prefix| - 1] !in part && |part| + i >= |prefix|
    ensures i >= |prefix|
  {
    var k := |prefix| - 1;
    assert forall j :: 0 <= j < |part| ==> id[i + j] == part[j];
    assert id[k] == prefix[k] && id[k] !in part;
  }

  /** The id of a fan sensor: the prefix, and the fan's name anywhere after it. */
  lemma FanIdIff(id: string)
    ensures IsFan(id) <==> exists a, b :: id == "fan:" + a + "Fan1A" + b
  {
    if IsFan(id) {
      var i :| 0 <= i <= |id| && "Fan1A" <= id[i..];
      BeginsAfter(id, "fan:", "Fan1A", i);
      SplitAround(id, "fan:", "Fan1A", i);
    }
    if a, b :| id == "fan:" + a + "Fan1A" + b {
      AroundContains("fan:", a, "Fan1A", b);
    }
  }

  lemma InletBeginsLate(id: string, i: nat)
    requires "thermal:" <= id && i <= |id| && "Inlet" <= id[i..]
    ensures i >= 3
  {
    assert id[i] == id[i..][0] == 'I';
    assert id[0] == 't' && id[1] == 'h' && id[2] == 'e';
  }

  /** The id of an inlet sensor: the prefix, and the inlet's name anywhere after it. */
  lemma ThermalIdIff(id: string)
    ensures IsThermal(id) <==> exists a, b :: id == "thermal:" + a + "Inlet" + b
  {
    if IsThermal(id) {
      var i :| 0 <= i <= |id| && "Inlet" <= id[i..];
      InletBeginsLate(id, i);
      BeginsAfter(id, "thermal:", "Inlet", i);
      SplitAround(id, "thermal:", "Inlet", i);
    }
    if a, b :| id == "thermal:" + a + "Inlet" + b {
      AroundContains("thermal:", a, "Inlet", b);
    }
  }

  /** Baseline `i` is the last of its kind. */
  predicate LastOfKind(bs: seq<Baseline>, isKind: string -> bool, i: nat) {
    i < |bs| && isKind(bs[i].sensorId) && forall j :: i < j < |bs| ==> !isKind(bs[j].sensorId)
  }

  predicate NoneOfKind(bs: seq<Baseline>, isKind: string -> bool) {
    forall i :: 0 <= i < |bs| ==> !isKind(bs[i].sensorId)
  }

  /** The fan series chosen is that of the last fan baseline. */
  lemma {:induction false} LastFanIff(bs: seq<Baseline>, i: nat)
    ensures LastOfKind(bs, IsFan, i) ==> LastFan(bs) == Some(bs[i].values)
    ensures LastFan(bs).None? <==> NoneOfKind(bs, IsFan)
  {
    if bs != [] {
      var init := bs[..|bs| - 1];
      LastFanIff(init, i);
      assert forall k :: 0 <= k < |init| ==> init[k] == bs[k];
    }
  }

  /** The inlet series chosen is that of the last inlet baseline. */
  lemma {:induction false} LastThermalIff(bs: seq<Baseline>, i: nat)
    ensures LastOfKind(bs, IsThermal, i) ==> LastThermal(bs) == Some(bs[i].values)
    ensures LastThermal(bs).None? <==> NoneOfKind(bs, IsThermal)
  {
    if bs != [] {
      var init := bs[..|bs| - 1];
      LastThermalIff(init, i);
      assert forall k :: 0 <= k < |init| ==> init[k] == bs[k];
    }
  }

  function Least(a: nat, b: nat): nat {
    if a <= b then a else b
  }

  function Recent(s: Series, n: nat): Series
    requires n <= |s|
  {
    s[|s| - n..]
  }

  const WINDOW := 10
  const FEWEST := 4

  /** What `math.sqrt` promises for positive numbers. */
  ghost predicate IsRoot(root: real -> real) {
    forall x :: x > 0.0 ==> root(x) > 0.0 && Times(root(x), root(x)) == x
  }

  function Abs(x: real): real {
    if x < 0.0 then -x else x
  }

  lemma SquareOfQuotient(a: real, b: real)
    requires b > 0.0 && Times(b, b) > 0.0
    ensures Times(Abs(a / b), Abs(a / b)) == Times(a, a) / Times(b, b)
  {
    var q := a / b;
    QuotientTimes(a, b);
    assert Times(Abs(q), Abs(q)) == Times(q, q);
    SquareOfProduct(q, b);
    Quotient(Times(q, q), Times(a, a), Times(b, b));
  }

  /** The coefficient as the source computes it from the three sums. */
  function Coefficient(cov: real, vx: real, vy: real, root: real -> real): (r: Option<real>)
    requires IsRoot(root)
  {
    if vx <= 0.0 || vy <= 0.0 then None
    else
      PositiveProduct(vx, vy);
      Some(Abs(cov / root(Times(vx, vy))))
  }

  /** It is the nonnegative root of the squared coefficient. */
  lemma CoefficientIsRoot(cov: real, vx: real, vy: real, root: real -> real)
    requires IsRoot(root)
    ensures var r, r2 := Coefficient(cov, vx, vy, root), Squared(cov, vx, vy);
            && (r.None? <==> r2.None?)
            && (r.Some? ==> r.value >= 0.0 && Times(r.value, r.value) == r2.value)
  {
    if vx > 0.0 && vy > 0.0 {
      PositiveProduct(vx, vy);
      SquareOfQuotient(cov, root(Times(vx, vy)));
    }
  }

  /** The reported figure for the two chosen series: none unless both are there, four aligned samples
      are, and both vary; otherwise the |r| of the latest samples, in [0, 1]. */
  ghost predicate Reported(r: Option<real>, fan: Option<Series>, thermal: Option<Series>) {
    if fan.None? || thermal.None? then r == None
    else
      var n := Least(Least(|fan.value|, |thermal.value|), WINDOW);
      if n < FEWEST then r == None
      else
        var r2 := SquaredCoefficient(Recent(fan.value, n), Recent(thermal.value, n));
        if r2.None? then r == None else r.Some? && 0.0 <= r.value <= 1.0 && Times(r.value, r.value) == r2.value
  }

  /** Samples older than the latest ten change nothing. */
  lemma OlderSamplesDoNotMatter(r: Option<real>, older: Series, fan: Series, olderInlet: Series, inlet: Series)
    requires |fan| == |inlet| == 10
    ensures Reported(r, Some(older + fan), Some(olderInlet + inlet)) <==> Reported(r, Some(fan), Some(inlet))
    ensures Reported(r, Some(fan), Some(inlet)) <==>
            match SquaredCoefficient(fan, inlet)
            case None => r == None
            case Some(r2) => r.Some? && 0.0 <= r.value <= 1.0 && Times(r.value, r.value) == r2
  {
    assert Recent(older + fan, 10) == fan && Recent(olderInlet + inlet, 10) == inlet;
    assert Recent(fan, 10) == fan && Recent(inlet, 10) == inlet;
  }

  method FanThermalCorrelation(baselines: seq<Baseline>, root: real -> real) returns (r: Option<real>)
    requires IsRoot(root)
    ensures Reported(r, LastFan(baselines), LastThermal(baselines))
  {
    var fan: Option<Series>, thermal: Option<Series> := None, None;
    for i := 0 to |baselines|
      invariant fan == LastFan(baselines[..i]) && thermal == LastThermal(baselines[..i])
    {
      assert baselines[..i + 1][..i] == baselines[..i];
      NotBoth(baselines[i].sensorId);
      if IsFan(baselines[i].sensorId) {
        fan := Some(baselines[i].values);
      } else if IsThermal(baselines[i].sensorId) {
        thermal := Some(baselines[i].values);
      }
    }
    assert baselines[..|baselines|] == baselines;
    if fan.None? || thermal.None? {
      return None;
    }
    var n := Least(Least(|fan.value|, |thermal.value|), WINDOW);
    if n < FEWEST {
      return None;
    }
    var xs, ys := Recent(fan.value, n), Recent(thermal.value, n);
    r := Coefficient(Covariance(xs, ys), Spread(xs), Spread(ys), root);
    CoefficientIsRoot(Covariance(xs, ys), Spread(xs), Spread(ys), root);
    if r.Some? {
      ReportedInUnitInterval(xs, ys, r.value);
    }
  }
}

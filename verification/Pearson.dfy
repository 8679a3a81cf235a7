/** Pearson correlation of two aligned series. */
module Pearson {
  import opened Common
  import opened Vectors
  import LeastSquares

  /** The three centred sums of a correlation. */
  datatype Moments = Moments(num: real, dx: real, dy: real)

  function MomentsOf(x: Vec, y: Vec): Moments
    requires |x| == |y| && x != []
  {
    SumsOf(Deviations(x, Mean(x)), Deviations(y, Mean(y)))
  }

  /** The coefficient is refused for unequal or short series and for a series without variance. */
  predicate Defined(x: Vec, y: Vec) {
    |x| == |y| && |x| >= 3 && MomentsOf(x, y).dx > 0.0 && MomentsOf(x, y).dy > 0.0
  }

  method Accumulate(x: Vec, y: Vec) returns (m: Option<Moments>)
    ensures m == if Defined(x, y) then Some(MomentsOf(x, y)) else None
  {
    if |x| != |y| || |x| < 3 { return None; }
    var n := |x| as real;
    var mx := SumOf(x);
    var my := SumOf(y);
    var r := CentredSums(x, y, mx / n, my / n);
    if r.dx <= 0.0 || r.dy <= 0.0 { return None; }
    return Some(r);
  }

  function SumsOf(a: Vec, b: Vec): Moments
    requires |a| == |b|
  {
    Moments(Dot(a, b), Dot(a, a), Dot(b, b))
  }

  /** The three sums with one more pair of deviations. */
  function Add(m: Moments, u: real, v: real): Moments {
    Moments(m.num + u * v, m.dx + u * u, m.dy + v * v)
  }

  method CentredSums(x: Vec, y: Vec, mx: real, my: real) returns (m: Moments)
    requires |x| == |y|
    ensures m == SumsOf(Deviations(x, mx), Deviations(y, my))
  {
    ghost var a, b := Deviations(x, mx), Deviations(y, my);
    m := Moments(0.0, 0.0, 0.0);
    for i := 0 to |x|
      invariant m == SumsOf(a[..i], b[..i])
    {
      SumsGrow(a, b, i);
      m := Add(m, x[i] - mx, y[i] - my);
    }
    assert a[..|x|] == a && b[..|x|] == b;
  }

  lemma SumsGrow(a: Vec, b: Vec, i: nat)
    requires |a| == |b| && i < |a|
    ensures SumsOf(a[..i + 1], b[..i + 1]) == Add(SumsOf(a[..i], b[..i]), a[i], b[i])
  {
    DotPrefix(a, b, i);
    DotPrefix(a, a, i);
    DotPrefix(b, b, i);
  }

  lemma DotPrefix(a: Vec, b: Vec, i: nat)
    requires |a| == |b| && i < |a|
    ensures Lin(Dot(a[..i + 1], b[..i + 1]), Dot(a[..i], b[..i]), a[i], b[i])
  {
    DotSnoc(a[..i + 1], b[..i + 1]);
    assert a[..i + 1][..i] == a[..i] && b[..i + 1][..i] == b[..i];
  }

  method SumOf(a: Vec) returns (s: real)
    ensures s == Sum(a)
  {
    s := 0.0;
    for i := 0 to |a|
      invariant s == Sum(a[..i])
    {
      assert a[..i + 1][..i] == a[..i];
      s := s + a[i];
    }
    assert a[..|a|] == a;
  }

  /** r is the square root of d. */
  predicate IsRoot(r: real, d: real) { r >= 0.0 && r * r == d }

  function Clamp(x: real): real { if x < -1.0 then -1.0 else if x > 1.0 then 1.0 else x }

  /** The coefficient before the clamp, given the two square roots. */
  function Ratio(num: real, rx: real, ry: real): real
    requires rx > 0.0 && ry > 0.0
  {
    num / (rx * ry)
  }

  /** A coefficient exists exactly for series of equal length, three or more, neither of them constant. */
  lemma DefinedExactlyOnVaryingSeries(x: Vec, y: Vec)
    ensures Defined(x, y) <==> |x| == |y| && |x| >= 3 && !LeastSquares.AllEqual(x) && !LeastSquares.AllEqual(y)
  {
    if |x| == |y| && |x| >= 3 {
      LeastSquares.SpreadSign(x);
      LeastSquares.SpreadSign(y);
    }
  }

  // ---------------------------------------------------------------- the clamp

  predicate CauchySchwarzHolds(m: Moments) { m.num * m.num <= m.dx * m.dy && m.dx >= 0.0 && m.dy >= 0.0 }

  lemma SumsAreBounded(a: Vec, b: Vec)
    requires |a| == |b|
    ensures CauchySchwarzHolds(SumsOf(a, b))
  {
    CauchySchwarz(a, b);
    DotSelf(a);
    DotSelf(b);
  }

  /** Cauchy-Schwarz for the centred series, of any length. */
  lemma MomentsAreBounded(x: Vec, y: Vec)
    requires |x| == |y| && x != []
    ensures CauchySchwarzHolds(MomentsOf(x, y))
  {
    SumsAreBounded(Deviations(x, Mean(x)), Deviations(y, Mean(y)));
  }

  lemma SquareOrder(a: real, b: real)
    requires b >= 0.0 && a * a <= b * b
    ensures -b <= a <= b
  {
    if a > b { ProductOrder(b, a); }
    if a < -b { ProductOrder(b, -a); }
  }

  lemma ProductOrder(b: real, a: real)
    requires 0.0 <= b < a
    ensures b * b < a * a
  {
    assert a * a - b * b == (a - b) * (a + b);
    ProductPositive(a - b, a + b, (a - b) * (a + b));
  }

  lemma CoefficientInUnit(num: real, dx: real, dy: real, rx: real, ry: real)
    requires rx > 0.0 && ry > 0.0 && rx * rx == dx && ry * ry == dy && num * num <= dx * dy
    ensures -1.0 <= Ratio(num, rx, ry) <= 1.0
  {
    var p := rx * ry;
    ProductPositive(rx, ry, p);
    assert p * p == dx * dy;
    SquareOrder(num, p);
    DivideInUnit(num, p);
  }

  lemma DivideInUnit(num: real, p: real)
    requires p > 0.0 && -p <= num <= p
    ensures -1.0 <= num / p <= 1.0
  {
  }

  lemma RootIsPositive(r: real, d: real)
    requires IsRoot(r, d) && d > 0.0
    ensures r > 0.0
  {
  }

  /** Over the reals the clamp to [-1, 1] never changes the coefficient. */
  lemma ClampIsDead(x: Vec, y: Vec, rx: real, ry: real)
    requires Defined(x, y) && IsRoot(rx, MomentsOf(x, y).dx) && IsRoot(ry, MomentsOf(x, y).dy)
    ensures rx > 0.0 && ry > 0.0
    ensures Clamp(Ratio(MomentsOf(x, y).num, rx, ry)) == Ratio(MomentsOf(x, y).num, rx, ry)
  {
    var m := MomentsOf(x, y);
    RootIsPositive(rx, m.dx);
    RootIsPositive(ry, m.dy);
    MomentsAreBounded(x, y);
    CoefficientInUnit(m.num, m.dx, m.dy, rx, ry);
  }

  // ---------------------------------------------------------------- symmetry and affine invariance

  /** Swapping the series swaps the variances and keeps the coefficient. */
  lemma CorrelationIsSymmetric(x: Vec, y: Vec)
    requires |x| == |y| && x != []
    ensures MomentsOf(y, x) == Moments(MomentsOf(x, y).num, MomentsOf(x, y).dy, MomentsOf(x, y).dx)
    ensures Defined(x, y) <==> Defined(y, x)
    ensures forall rx, ry :: rx > 0.0 && ry > 0.0 ==>
              Ratio(MomentsOf(y, x).num, ry, rx) == Ratio(MomentsOf(x, y).num, rx, ry)
  {
    DotCommutes(Deviations(x, Mean(x)), Deviations(y, Mean(y)));
  }

  /** k*x + c, element by element. */
  function Affine(x: Vec, k: real, c: real): Vec { Axpy(Fill(|x|, c), k, x) }

  lemma SumIsLinear(a: Vec, k: real, b: Vec)
    requires |a| == |b|
    ensures Lin(Sum(Axpy(a, k, b)), Sum(a), k, Sum(b))
  {
    DotIsLinearLeft(Ones(|a|), a, k, b);
    DotOnes(Axpy(a, k, b));
    DotOnes(a);
    DotOnes(b);
  }

  lemma AffineMean(x: Vec, k: real, c: real)
    requires x != []
    ensures Lin(Mean(Affine(x, k, c)), c, k, Mean(x))
  {
    SumIsLinear(Fill(|x|, c), k, x);
    SumFill(|x|, c);
    MeanOfSums(Sum(Affine(x, k, c)), Sum(x), |x| as real, k, c);
  }

  lemma MeanOfSums(s: real, sx: real, n: real, k: real, c: real)
    requires n > 0.0 && Lin(s, n * c, k, sx)
    ensures Lin(s / n, c, k, sx / n)
  {
    assert s / n * n == s && sx / n * n == sx;
    assert (c + k * (sx / n)) * n == n * c + k * (sx / n * n);
    assert (s / n - (c + k * (sx / n))) * n == 0.0;
  }

  function Scaled(k: real, a: Vec): Vec { Axpy(Fill(|a|, 0.0), k, a) }

  lemma AffineDeviations(x: Vec, k: real, c: real)
    requires x != []
    ensures Deviations(Affine(x, k, c), Mean(Affine(x, k, c))) == Scaled(k, Deviations(x, Mean(x)))
  {
    AffineMean(x, k, c);
    var d, e := Deviations(Affine(x, k, c), Mean(Affine(x, k, c))), Deviations(x, Mean(x));
    forall i | 0 <= i < |x| ensures d[i] == Scaled(k, e)[i] {
      ElementDeviation(x[i], k, c, Mean(x), Mean(Affine(x, k, c)));
      assert Affine(x, k, c)[i] == c + k * x[i];
      assert Scaled(k, e)[i] == 0.0 + k * e[i];
    }
  }

  lemma ElementDeviation(x: real, k: real, c: real, m: real, m': real)
    requires Lin(m', c, k, m)
    ensures c + k * x - m' == k * (x - m)
  {
  }

  lemma ScaledDot(k: real, a: Vec, b: Vec)
    requires |a| == |b|
    ensures Lin(Dot(Scaled(k, a), b), 0.0, k, Dot(a, b))
  {
    DotIsLinearLeft(b, Fill(|a|, 0.0), k, a);
    DotCommutes(Fill(|a|, 0.0), b);
    ZeroDot(b, Fill(|a|, 0.0));
  }

  lemma ScaledSquare(k: real, a: Vec)
    ensures Lin(Dot(Scaled(k, a), Scaled(k, a)), 0.0, k * k, Dot(a, a))
  {
    ScaledDot(k, a, Scaled(k, a));
    DotCommutes(a, Scaled(k, a));
    ScaledDot(k, a, a);
    TwiceScaled(Dot(Scaled(k, a), Scaled(k, a)), Dot(Scaled(k, a), a), Dot(a, a), k);
  }

  lemma TwiceScaled(v: real, u: real, d: real, k: real)
    requires Lin(v, 0.0, k, u) && Lin(u, 0.0, k, d)
    ensures Lin(v, 0.0, k * k, d)
  {
    assert k * u == k * (k * d);
  }

  /** Scaling and shifting one series scales the covariance by k and its variance by k^2, and no more. */
  lemma AffineMoments(x: Vec, y: Vec, k: real, c: real)
    requires |x| == |y| && x != []
    ensures var m, m' := MomentsOf(x, y), MomentsOf(Affine(x, k, c), y);
            Lin(m'.num, 0.0, k, m.num) && Lin(m'.dx, 0.0, k * k, m.dx) && m'.dy == m.dy
  {
    var a, b := Deviations(x, Mean(x)), Deviations(y, Mean(y));
    AffineDeviations(x, k, c);
    ScaledDot(k, a, b);
    ScaledSquare(k, a);
  }

  /** Shifting and non-zero scaling of a series leave the coefficient unchanged, up to the sign of the scale. */
  lemma CorrelationIsAffineInvariant(x: Vec, y: Vec, k: real, c: real, rx: real, ry: real)
    requires Defined(x, y) && k != 0.0
    requires IsRoot(rx, MomentsOf(x, y).dx) && IsRoot(ry, MomentsOf(x, y).dy)
    ensures Defined(Affine(x, k, c), y)
    ensures var m' := MomentsOf(Affine(x, k, c), y);
            && IsRoot(Abs(k) * rx, m'.dx) && IsRoot(ry, m'.dy) && rx > 0.0 && ry > 0.0 && Abs(k) * rx > 0.0
            && Ratio(m'.num, Abs(k) * rx, ry)
                 == (if k > 0.0 then Ratio(MomentsOf(x, y).num, rx, ry) else -Ratio(MomentsOf(x, y).num, rx, ry))
  {
    var m, m' := MomentsOf(x, y), MomentsOf(Affine(x, k, c), y);
    AffineMoments(x, y, k, c);
    RootIsPositive(rx, m.dx);
    RootIsPositive(ry, m.dy);
    ScaleRatio(m.num, m'.num, m.dx, m'.dx, k, rx, ry);
  }

  /** The same for the second series. */
  lemma CorrelationIsAffineInvariantInY(x: Vec, y: Vec, k: real, c: real, rx: real, ry: real)
    requires Defined(x, y) && k != 0.0
    requires IsRoot(rx, MomentsOf(x, y).dx) && IsRoot(ry, MomentsOf(x, y).dy)
    ensures Defined(x, Affine(y, k, c))
    ensures var m' := MomentsOf(x, Affine(y, k, c));
            && IsRoot(rx, m'.dx) && IsRoot(Abs(k) * ry, m'.dy)
            && rx > 0.0 && ry > 0.0 && Abs(k) * ry > 0.0
            && Ratio(m'.num, rx, Abs(k) * ry)
                 == (if k > 0.0 then Ratio(MomentsOf(x, y).num, rx, ry) else -Ratio(MomentsOf(x, y).num, rx, ry))
  {
    CorrelationIsSymmetric(x, y);
    CorrelationIsAffineInvariant(y, x, k, c, ry, rx);
    CorrelationIsSymmetric(x, Affine(y, k, c));
  }

  lemma ScaleRatio(num: real, num': real, dx: real, dx': real, k: real, rx: real, ry: real)
    requires k != 0.0 && rx > 0.0 && ry > 0.0 && IsRoot(rx, dx)
    requires Lin(num', 0.0, k, num) && Lin(dx', 0.0, k * k, dx)
    ensures Abs(k) * rx > 0.0 && IsRoot(Abs(k) * rx, dx') && dx' > 0.0
    ensures Ratio(num', Abs(k) * rx, ry) == if k > 0.0 then Ratio(num, rx, ry) else -Ratio(num, rx, ry)
  {
    var g := Abs(k);
    var q := g * rx;
    ProductPositive(g, rx, q);
    assert q * q == (g * g) * (rx * rx);
    assert g * g == k * k;
    ProductPositive(q, q, q * q);
    var p, p' := rx * ry, q * ry;
    ProductPositive(rx, ry, p);
    assert p' == g * p;
    ProductPositive(g, p, p');
    CancelScale(num, g, p);
    if k < 0.0 { assert num' == -(g * num); }
  }

  lemma CancelScale(num: real, g: real, p: real)
    requires g > 0.0 && p > 0.0 && g * p > 0.0
    ensures (g * num) / (g * p) == num / p
    ensures (-(g * num)) / (g * p) == -(num / p)
  {
    var q := num / p;
    assert q * p == num;
    assert q * (g * p) == g * num;
  }

  // ---------------------------------------------------------------- what the coefficient is

  /** The coefficient is the covariance in units of the two deviations: its sign, and its square in units of theirs. */
  lemma CoefficientMeans(m: Moments, rx: real, ry: real)
    requires rx > 0.0 && ry > 0.0 && IsRoot(rx, m.dx) && IsRoot(ry, m.dy)
    ensures var r := Ratio(m.num, rx, ry);
            && r * (rx * ry) == m.num && SquareOver(r, m.dx, m.dy, m.num)
            && (r > 0.0 <==> m.num > 0.0) && (r < 0.0 <==> m.num < 0.0)
  {
    var p := rx * ry;
    ProductPositive(rx, ry, p);
    QuotientMeans(m.num, p);
    var r := m.num / p;
    assert p * p == m.dx * m.dy;
    assert (r * r) * (p * p) == (r * p) * (r * p);
  }

  lemma QuotientMeans(num: real, p: real)
    requires p > 0.0
    ensures num / p * p == num && (num / p > 0.0 <==> num > 0.0) && (num / p < 0.0 <==> num < 0.0)
  {
    var r := num / p;
    assert r * p == num;
    if r > 0.0 { ProductPositive(r, p, num); }
    if r < 0.0 { ProductPositive(-r, p, -num); }
  }

  /** The whole computation, given the square roots. */
  method Correlation(x: Vec, y: Vec, sqrt: real -> real) returns (r: Option<real>)
    requires forall d :: d > 0.0 ==> IsRoot(sqrt(d), d)
    ensures r.Some? <==> |x| == |y| && |x| >= 3 && !LeastSquares.AllEqual(x) && !LeastSquares.AllEqual(y)
    ensures r.Some? ==>
              var m := MomentsOf(x, y);
              && -1.0 <= r.value <= 1.0
              && r.value * (sqrt(m.dx) * sqrt(m.dy)) == m.num
  {
    DefinedExactlyOnVaryingSeries(x, y);
    var m := Accumulate(x, y);
    if m.None? { return None; }
    var rx, ry := sqrt(m.value.dx), sqrt(m.value.dy);
    ClampIsDead(x, y, rx, ry);
    CoefficientMeans(m.value, rx, ry);
    var ratio := Ratio(m.value.num, rx, ry);
    r := Some(Clamp(ratio));
  }

  lemma SameRoot(a: real, b: real, d: real)
    requires IsRoot(a, d) && IsRoot(b, d)
    ensures a == b
  {
    SquareOrder(a, b);
    SquareOrder(b, a);
  }

  /** Points on a line with slope k correlate perfectly: exactly 1 or -1, by the sign of k. */
  lemma LineCorrelatesPerfectly(x: Vec, k: real, c: real, rx: real, ry: real)
    requires k != 0.0 && |x| >= 3 && !LeastSquares.AllEqual(x)
    requires var m := MomentsOf(x, Affine(x, k, c)); IsRoot(rx, m.dx) && IsRoot(ry, m.dy)
    ensures Defined(x, Affine(x, k, c)) && rx > 0.0 && ry > 0.0
    ensures Ratio(MomentsOf(x, Affine(x, k, c)).num, rx, ry) == if k > 0.0 then 1.0 else -1.0
  {
    DefinedExactlyOnVaryingSeries(x, x);
    var m := MomentsOf(x, x);
    CorrelationIsAffineInvariantInY(x, x, k, c, rx, rx);
    SameRoot(ry, Abs(k) * rx, MomentsOf(x, Affine(x, k, c)).dy);
    OverItself(rx);
  }

  lemma OverItself(r: real)
    requires r > 0.0
    ensures Ratio(r * r, r, r) == 1.0
  {
    ProductPositive(r, r, r * r);
    SelfQuotient(r * r);
  }

  lemma SelfQuotient(p: real)
    requires p > 0.0
    ensures p / p == 1.0
  {
  }

  // ---------------------------------------------------------------- correlation and least squares

  /** The residuals of the line through the means, in terms of the deviations. */
  lemma CentredResiduals(x: Vec, y: Vec, s: real, t: real)
    requires |x| == |y| && x != [] && Lin(Mean(y), t, s, Mean(x))
    ensures LeastSquares.Residuals(LeastSquares.Points(x, y), s, t)
         == Axpy(Deviations(y, Mean(y)), -s, Deviations(x, Mean(x)))
  {
    var r := LeastSquares.Residuals(LeastSquares.Points(x, y), s, t);
    var v := Axpy(Deviations(y, Mean(y)), -s, Deviations(x, Mean(x)));
    forall i | 0 <= i < |x| ensures r[i] == v[i] {
      CentredResidual(x[i], y[i], Mean(x), Mean(y), s, t);
      assert v[i] == (y[i] - Mean(y)) + -s * (x[i] - Mean(x));
    }
  }

  lemma CentredResidual(x: real, y: real, mx: real, my: real, s: real, t: real)
    requires Lin(my, t, s, mx)
    ensures y - (t + s * x) == (y - my) + -s * (x - mx)
  {
    assert s * (x - mx) == s * x - s * mx;
  }

  predicate Product(p: real, a: real, b: real) { p == a * b }

  /** The fitted line goes through the means. */
  lemma ThroughTheMeans(x: Vec, y: Vec, s: real, t: real)
    requires |x| == |y| && x != [] && t == LeastSquares.InterceptOf(|x| as real, Sum(x), Sum(y), s)
    ensures Lin(Mean(y), t, s, Mean(x))
  {
    LineOfMeans(|x| as real, Sum(x), Sum(y), s, t);
  }

  lemma LineOfMeans(n: real, sx: real, sy: real, s: real, t: real)
    requires n > 0.0 && t == LeastSquares.InterceptOf(n, sx, sy, s)
    ensures Lin(sy / n, t, s, sx / n)
  {
    InterceptMeans(n, sx, sy, s, t);
    MeanOfSums(sy, sx, n, s, t);
  }

  lemma InterceptMeans(n: real, sx: real, sy: real, s: real, t: real)
    requires n > 0.0 && t == LeastSquares.InterceptOf(n, sx, sy, s)
    ensures Lin(sy, n * t, s, sx)
  {
    var u := sy - s * sx;
    assert u / n * n == u;
  }

  /** Its slope is the covariance over the variance of x. */
  lemma SlopeIsCovariance(x: Vec, y: Vec, s: real, t: real)
    requires |x| == |y| && Fitted(x, y, s, t)
    ensures Product(MomentsOf(x, y).num, s, MomentsOf(x, y).dx)
  {
    var p := LeastSquares.Points(x, y);
    var r, a, b := LeastSquares.Residuals(p, s, t), Deviations(x, Mean(x)), Deviations(y, Mean(y));
    LeastSquares.NormalEquations(p, s, t);
    LeastSquares.OrthogonalToShift(r, x, 1.0, -Mean(x));
    assert LeastSquares.Shift(x, 1.0, -Mean(x)) == a;
    ThroughTheMeans(x, y, s, t);
    CentredResiduals(x, y, s, t);
    DotIsLinearLeft(a, b, -s, a);
    DotCommutes(a, b);
    NoResidual(Dot(r, a), Dot(a, b), s, Dot(a, a));
  }

  lemma NoResidual(v: real, num: real, s: real, dx: real)
    requires v == 0.0 && Lin(v, num, -s, dx)
    ensures Product(num, s, dx)
  {
  }

  /** s and t are the slope and intercept of the least-squares line. */
  ghost predicate Fitted(x: Vec, y: Vec, s: real, t: real)
    requires |x| == |y|
  {
    && x != [] && LeastSquares.Denom(x) != 0.0
    && s == LeastSquares.SlopeOf(|x| as real, Sum(x), Sum(y), Dot(x, y), LeastSquares.Denom(x))
    && t == LeastSquares.InterceptOf(|x| as real, Sum(x), Sum(y), s)
  }

  predicate Leaves(v: real, dx: real, dy: real, num: real) { v * dx == dx * dy - num * num }

  predicate SquareOver(r: real, dx: real, dy: real, num: real) { (r * r) * (dx * dy) == num * num }

  /** What the line leaves over of the variance of y. */
  lemma LeftOver(x: Vec, y: Vec, s: real, t: real)
    requires |x| == |y| && Fitted(x, y, s, t)
    ensures var m := MomentsOf(x, y); Leaves(LeastSquares.Rss(LeastSquares.Points(x, y), s, t), m.dx, m.dy, m.num)
  {
    var m := MomentsOf(x, y);
    var a, b := Deviations(x, Mean(x)), Deviations(y, Mean(y));
    SlopeIsCovariance(x, y, s, t);
    ThroughTheMeans(x, y, s, t);
    CentredResiduals(x, y, s, t);
    DotSquare(b, -s, a);
    DotCommutes(a, b);
    LeftOverOf(LeastSquares.Rss(LeastSquares.Points(x, y), s, t), m.dy, m.num, m.dx, s, -s);
  }

  lemma LeftOverOf(v: real, dy: real, num: real, dx: real, s: real, k: real)
    requires k == -s && Quadratic(v, dy, num, dx, k) && Product(num, s, dx)
    ensures Leaves(v, dx, dy, num)
  {
    assert k * k * dx == s * num by { assert k * k * dx == s * (s * dx); }
    assert v == dy - s * num;
    assert s * num * dx == num * num by { assert s * num * dx == (s * dx) * num; }
  }

  /** The square of r is 1 - v / d. */
  predicate Explains(r: real, v: real, d: real)
    requires d > 0.0
  {
    r * r == 1.0 - v / d
  }

  /**
   The square of the coefficient is the share of the variance of y that the least-squares line explains,
   1 - ss_res / ss_tot.
   */
  lemma SquareIsExplainedShare(x: Vec, y: Vec, rx: real, ry: real, s: real, t: real)
    requires Defined(x, y) && IsRoot(rx, MomentsOf(x, y).dx) && IsRoot(ry, MomentsOf(x, y).dy) && Fitted(x, y, s, t)
    ensures rx > 0.0 && ry > 0.0 && MomentsOf(x, y).dy == LeastSquares.SsTot(y, Mean(y)) > 0.0
    ensures var r := Ratio(MomentsOf(x, y).num, rx, ry);
            Explains(r, LeastSquares.Rss(LeastSquares.Points(x, y), s, t), LeastSquares.SsTot(y, Mean(y)))
  {
    var m := MomentsOf(x, y);
    RootIsPositive(rx, m.dx);
    RootIsPositive(ry, m.dy);
    CoefficientMeans(m, rx, ry);
    LeftOver(x, y, s, t);
    ShareOf(Ratio(m.num, rx, ry), LeastSquares.Rss(LeastSquares.Points(x, y), s, t), m.dx, m.dy, m.num);
  }

  lemma ShareOf(r: real, v: real, dx: real, dy: real, num: real)
    requires dx > 0.0 && dy > 0.0 && SquareOver(r, dx, dy, num) && Leaves(v, dx, dy, num)
    ensures Explains(r, v, dy)
  {
    var q, e := v / dy, r * r;
    assert q * dy == v;
    assert (e + q - 1.0) * (dx * dy) == 0.0 by {
      assert q * (dx * dy) == (q * dy) * dx;
    }
    ProductPositive(dx, dy, dx * dy);
    LeastSquares.CancelFactor(e + q - 1.0, 0.0, 0.0, dx * dy);
  }

  /** So wherever both are reported, R^2 of the fit is the square of the coefficient. */
  lemma RSquaredIsTheSquare(x: Vec, y: Vec, rx: real, ry: real)
    requires Defined(x, y) && IsRoot(rx, MomentsOf(x, y).dx) && IsRoot(ry, MomentsOf(x, y).dy)
    requires LeastSquares.FitLinear(LeastSquares.Points(x, y)).Some?
    requires LeastSquares.SsTot(y, Mean(y)) >= LeastSquares.EPSILON
    ensures rx > 0.0 && ry > 0.0
    ensures var r := Ratio(MomentsOf(x, y).num, rx, ry);
            LeastSquares.FitLinear(LeastSquares.Points(x, y)).value.r2 == r * r
  {
    var p := LeastSquares.Points(x, y);
    var f := LeastSquares.FitLinear(p).value;
    LeastSquares.ClampIsDead(p);
    SquareIsExplainedShare(x, y, rx, ry, f.slope, f.intercept);
  }

  /** Only points on a line correlate perfectly. */
  lemma PerfectMeansLine(x: Vec, y: Vec, rx: real, ry: real, s: real, t: real)
    requires Defined(x, y) && IsRoot(rx, MomentsOf(x, y).dx) && IsRoot(ry, MomentsOf(x, y).dy) && Fitted(x, y, s, t)
    requires rx > 0.0 && ry > 0.0 && Ratio(MomentsOf(x, y).num, rx, ry) in {1.0, -1.0}
    ensures forall i :: 0 <= i < |x| ==> y[i] == t + s * x[i]
  {
    var p := LeastSquares.Points(x, y);
    SquareIsExplainedShare(x, y, rx, ry, s, t);
    NothingLeft(LeastSquares.Rss(p, s, t), LeastSquares.SsTot(y, Mean(y)));
    DotSelf(LeastSquares.Residuals(p, s, t));
    forall i | 0 <= i < |x| ensures y[i] == t + s * x[i] {
      assert LeastSquares.Residuals(p, s, t)[i] == 0.0;
    }
  }

  lemma NothingLeft(v: real, d: real)
    requires d > 0.0 && 1.0 == 1.0 - v / d
    ensures v == 0.0
  {
    assert v / d * d == v;
  }
}

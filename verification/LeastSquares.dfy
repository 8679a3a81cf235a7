/** Least-squares calibration of display power against brightness. */
module LeastSquares {
  import opened Common
  import opened Vectors

  /** The sweep points as two columns: brightness x and median discharge y. */
  datatype Points = Points(xs: Vec, ys: Vec)

  ghost predicate Valid(p: Points) { |p.xs| == |p.ys| }

  datatype LinearFit = LinearFit(slope: real, intercept: real, r2: real, n: nat)

  /** f64::EPSILON. */
  const EPSILON := 1.0 / 4503599627370496.0

  function DenomOf(n: real, sxx: real, sx: real): real { n * sxx - sx * sx }

  /** n * sum(x^2) - sum(x)^2. */
  function Denom(xs: Vec): real { DenomOf(|xs| as real, Dot(xs, xs), Sum(xs)) }

  function SlopeOf(n: real, sx: real, sy: real, sxy: real, denom: real): real
    requires denom != 0.0
  {
    (n * sxy - sx * sy) / denom
  }

  function InterceptOf(n: real, sx: real, sy: real, slope: real): real
    requires n != 0.0
  {
    (sy - slope * sx) / n
  }

  /** Vertical distances of the points from the line y = slope*x + intercept. */
  function Residuals(p: Points, slope: real, intercept: real): Vec
    requires Valid(p)
  {
    seq(|p.xs|, i requires 0 <= i < |p.xs| => p.ys[i] - (intercept + slope * p.xs[i]))
  }

  /** Residual sum of squares of a line. */
  function Rss(p: Points, slope: real, intercept: real): real
    requires Valid(p)
  {
    Dot(Residuals(p, slope, intercept), Residuals(p, slope, intercept))
  }

  /** Sum of squared deviations from c. */
  function SsTot(ys: Vec, c: real): real { Dot(Deviations(ys, c), Deviations(ys, c)) }

  function RSquared(ssRes: real, ssTot: real): real {
    if Abs(ssTot) < EPSILON then 0.0
    else
      var raw := 1.0 - ssRes / ssTot;
      if raw < 0.0 then 0.0 else if raw > 1.0 then 1.0 else raw
  }

  function FitLinear(p: Points): Option<LinearFit>
    requires Valid(p)
  {
    var n := |p.xs| as real;
    if |p.xs| < 2 || Abs(Denom(p.xs)) < EPSILON then None
    else
      var slope := SlopeOf(n, Sum(p.xs), Sum(p.ys), Dot(p.xs, p.ys), Denom(p.xs));
      var intercept := InterceptOf(n, Sum(p.xs), Sum(p.ys), slope);
      Some(LinearFit(slope, intercept, RSquared(Rss(p, slope, intercept), SsTot(p.ys, Mean(p.ys))), |p.xs|))
  }

  // ---------------------------------------------------------------- the x spread

  predicate AllEqual(xs: Vec) {
    forall i, j :: 0 <= i < |xs| && 0 <= j < |xs| ==> xs[i] == xs[j]
  }

  /** n*sxx - sx^2 is n times the sum of squared deviations from the mean. */
  lemma DenomIsSpread(xs: Vec, mean: real, k: real)
    requires xs != [] && mean == Mean(xs) && k == -mean
    ensures Denom(xs) == |xs| as real * SsTot(xs, mean)
  {
    DeviationSquares(xs, mean, k);
    MeanTimesCount(xs);
    CompleteSquare(SsTot(xs, mean), Dot(xs, xs), Sum(xs), |xs| as real, mean, k);
  }

  lemma CompleteSquare(v: real, sxx: real, sx: real, n: real, mean: real, k: real)
    requires k == -mean && mean * n == sx && Quadratic(v, sxx, sx, n, k)
    ensures DenomOf(n, sxx, sx) == n * v
  {
    assert mean * mean * n == mean * sx by { assert mean * mean * n == mean * (mean * n); }
    assert k * k * n == mean * mean * n;
    assert v == sxx - mean * sx;
    assert n * v == n * sxx - (mean * n) * sx;
  }

  lemma ZeroDeviations(xs: Vec, c: real)
    requires IsZero(Deviations(xs, c))
    ensures AllEqual(xs)
  {
    forall i | 0 <= i < |xs| ensures xs[i] == c {
      assert Deviations(xs, c)[i] == 0.0;
    }
  }

  lemma NoDeviations(xs: Vec, c: real)
    requires forall i :: 0 <= i < |xs| ==> xs[i] == c
    ensures IsZero(Deviations(xs, c))
  {
  }

  lemma {:induction false} SumOfEqual(xs: Vec, c: real)
    requires forall i :: 0 <= i < |xs| ==> xs[i] == c
    ensures Sum(xs) == |xs| as real * c
  {
    assert xs == Fill(|xs|, c);
    SumFill(|xs|, c);
  }

  lemma EqualHasNoSpread(xs: Vec)
    requires xs != [] && AllEqual(xs)
    ensures SsTot(xs, Mean(xs)) == 0.0
  {
    SumOfEqual(xs, xs[0]);
    MeanTimesCount(xs);
    CancelFactor(Mean(xs), Sum(xs), xs[0], |xs| as real);
    NoDeviations(xs, Mean(xs));
    DotSelf(Deviations(xs, Mean(xs)));
  }

  /** The sum of squared deviations from the mean is zero exactly when all values are equal. */
  lemma SpreadSign(xs: Vec)
    requires xs != []
    ensures SsTot(xs, Mean(xs)) >= 0.0
    ensures SsTot(xs, Mean(xs)) == 0.0 <==> AllEqual(xs)
  {
    if AllEqual(xs) { EqualHasNoSpread(xs); }
    DotSelf(Deviations(xs, Mean(xs)));
    if SsTot(xs, Mean(xs)) == 0.0 { ZeroDeviations(xs, Mean(xs)); }
  }

  /** n*sxx - sx^2 is never negative and is zero exactly when all x are equal. */
  lemma DenomSign(xs: Vec)
    ensures Denom(xs) >= 0.0
    ensures Denom(xs) == 0.0 <==> AllEqual(xs)
  {
    if xs == [] {
      assert Denom(xs) == 0.0;
    } else {
      SpreadSign(xs);
      DenomIsSpread(xs, Mean(xs), -Mean(xs));
      ScaleSign(|xs| as real, SsTot(xs, Mean(xs)), Denom(xs));
    }
  }

  lemma CancelFactor(a: real, b: real, c: real, n: real)
    requires n != 0.0 && a * n == b && b == n * c
    ensures a == c
  {
    assert (a - c) * n == 0.0;
  }

  lemma ScaleSign(n: real, v: real, p: real)
    requires n > 0.0 && v >= 0.0 && p == n * v
    ensures p >= 0.0 && (p == 0.0 <==> v == 0.0)
  {
  }

  // ---------------------------------------------------------------- optimality

  /** The residuals of a moved line: subtract dm*x + db. */
  function Shift(xs: Vec, dm: real, db: real): Vec {
    seq(|xs|, i requires 0 <= i < |xs| => dm * xs[i] + db)
  }

  lemma ShiftIsAxpy(xs: Vec, dm: real, db: real)
    ensures Shift(xs, dm, db) == Axpy(Axpy(Fill(|xs|, 0.0), dm, xs), db, Ones(|xs|))
  {
    var w := Axpy(Axpy(Fill(|xs|, 0.0), dm, xs), db, Ones(|xs|));
    forall i | 0 <= i < |xs| ensures Shift(xs, dm, db)[i] == w[i] {
      assert Ones(|xs|)[i] == 1.0 && Fill(|xs|, 0.0)[i] == 0.0;
      assert Axpy(Fill(|xs|, 0.0), dm, xs)[i] == 0.0 + dm * xs[i];
      assert w[i] == Axpy(Fill(|xs|, 0.0), dm, xs)[i] + db * 1.0;
    }
  }

  lemma MovedResiduals(p: Points, s: real, t: real, dm: real, db: real)
    requires Valid(p)
    ensures Residuals(p, s + dm, t + db) == Axpy(Residuals(p, s, t), -1.0, Shift(p.xs, dm, db))
  {
    forall i | 0 <= i < |p.xs|
      ensures Residuals(p, s + dm, t + db)[i] == Axpy(Residuals(p, s, t), -1.0, Shift(p.xs, dm, db))[i]
    {
      assert (s + dm) * p.xs[i] == s * p.xs[i] + dm * p.xs[i];
    }
  }

  /** A vector orthogonal to x and to the ones is orthogonal to every shift. */
  lemma OrthogonalToShift(r: Vec, xs: Vec, dm: real, db: real)
    requires |r| == |xs| && Dot(r, xs) == 0.0 && Sum(r) == 0.0
    ensures Dot(r, Shift(xs, dm, db)) == 0.0
  {
    var zero := Fill(|xs|, 0.0);
    ShiftIsAxpy(xs, dm, db);
    DotIsLinear(r, Axpy(zero, dm, xs), db, Ones(|xs|));
    DotIsLinear(r, zero, dm, xs);
    DotOnes(r);
    ZeroDot(r, zero);
    LinChain(Dot(r, Shift(xs, dm, db)), Dot(r, Axpy(zero, dm, xs)), Dot(r, zero), dm, Dot(r, xs), db, Sum(r));
    NoTerms(Dot(r, Shift(xs, dm, db)), dm, db);
  }

  lemma NoTerms(v: real, k: real, l: real)
    requires Lin2(v, 0.0, k, 0.0, l, 0.0)
    ensures v == 0.0
  {
  }

  predicate OnLine(y: real, s: real, t: real, x: real) { y == s * x + t }

  /** Two different lines meet at most at one x, so two distinct x values keep them apart. */
  lemma DifferentLinesAreApart(xs: Vec, dm: real, db: real)
    requires !AllEqual(xs) && (dm != 0.0 || db != 0.0)
    ensures !IsZero(Shift(xs, dm, db))
  {
    var i, j :| 0 <= i < |xs| && 0 <= j < |xs| && xs[i] != xs[j];
    if IsZero(Shift(xs, dm, db)) {
      assert Shift(xs, dm, db)[i] == 0.0 && Shift(xs, dm, db)[j] == 0.0;
      TwoRoots(xs[i], xs[j], dm, db);
    }
  }

  lemma TwoRoots(x: real, y: real, dm: real, db: real)
    requires OnLine(0.0, dm, db, x) && OnLine(0.0, dm, db, y) && x != y
    ensures dm == 0.0 && db == 0.0
  {
    var d := x - y;
    assert dm * d == 0.0;
  }

  /** Moving off a line whose residuals solve the normal equations costs exactly the square of the move. */
  lemma RssMoves(p: Points, s: real, t: real, dm: real, db: real)
    requires Valid(p) && Dot(Residuals(p, s, t), p.xs) == 0.0 && Sum(Residuals(p, s, t)) == 0.0
    ensures Rss(p, s + dm, t + db) == Rss(p, s, t) + Dot(Shift(p.xs, dm, db), Shift(p.xs, dm, db))
  {
    var r, d := Residuals(p, s, t), Shift(p.xs, dm, db);
    MovedResiduals(p, s, t, dm, db);
    DotSquare(r, -1.0, d);
    OrthogonalToShift(r, p.xs, dm, db);
  }

  lemma ResidualsAreAxpy(p: Points, s: real, t: real)
    requires Valid(p)
    ensures Residuals(p, s, t) == Axpy(Axpy(p.ys, -t, Ones(|p.xs|)), -s, p.xs)
  {
    var w := Axpy(Axpy(p.ys, -t, Ones(|p.xs|)), -s, p.xs);
    forall i | 0 <= i < |p.xs| ensures Residuals(p, s, t)[i] == w[i] {
      assert Ones(|p.xs|)[i] == 1.0;
      assert Axpy(p.ys, -t, Ones(|p.xs|))[i] == p.ys[i] + -t * 1.0;
      assert w[i] == Axpy(p.ys, -t, Ones(|p.xs|))[i] + -s * p.xs[i];
    }
  }

  /** Residual sums in terms of the data sums; `c` is x or the ones. */
  lemma ResidualProducts(p: Points, s: real, t: real, c: Vec)
    requires Valid(p) && |c| == |p.xs|
    ensures Lin2(Dot(c, Residuals(p, s, t)), Dot(c, p.ys), -t, Sum(c), -s, Dot(c, p.xs))
  {
    var inner := Axpy(p.ys, -t, Ones(|p.xs|));
    ResidualsAreAxpy(p, s, t);
    DotIsLinear(c, inner, -s, p.xs);
    DotIsLinear(c, p.ys, -t, Ones(|p.xs|));
    DotOnes(c);
    LinChain(Dot(c, Residuals(p, s, t)), Dot(c, inner), Dot(c, p.ys), -t, Sum(c), -s, Dot(c, p.xs));
  }

  /** The product with the ones, in terms of plain sums. */
  lemma ResidualSum(p: Points, s: real, t: real)
    requires Valid(p)
    ensures Lin2(Sum(Residuals(p, s, t)), Sum(p.ys), -t, |p.xs| as real, -s, Sum(p.xs))
  {
    var ones := Ones(|p.xs|);
    ResidualProducts(p, s, t, ones);
    DotCommutes(ones, Residuals(p, s, t));
    DotCommutes(ones, p.xs);
    DotCommutes(ones, p.ys);
    DotOnes(Residuals(p, s, t));
    DotOnes(p.xs);
    DotOnes(p.ys);
    SumFill(|p.xs|, 1.0);
  }

  /** The fitted line solves the normal equations. */
  lemma NormalEquations(p: Points, s: real, t: real)
    requires Valid(p) && p.xs != [] && Denom(p.xs) != 0.0
    requires s == SlopeOf(|p.xs| as real, Sum(p.xs), Sum(p.ys), Dot(p.xs, p.ys), Denom(p.xs))
    requires t == InterceptOf(|p.xs| as real, Sum(p.xs), Sum(p.ys), s)
    ensures Dot(Residuals(p, s, t), p.xs) == 0.0 && Sum(Residuals(p, s, t)) == 0.0
  {
    ResidualProducts(p, s, t, p.xs);
    ResidualSum(p, s, t);
    DotCommutes(Residuals(p, s, t), p.xs);
    SolveNormal(|p.xs| as real, Sum(p.xs), Sum(p.ys), Dot(p.xs, p.xs), Dot(p.xs, p.ys), s, t,
                Dot(p.xs, Residuals(p, s, t)), Sum(Residuals(p, s, t)));
  }

  lemma SolveNormal(n: real, sx: real, sy: real, sxx: real, sxy: real, s: real, t: real, u: real, v: real)
    requires n != 0.0 && DenomOf(n, sxx, sx) != 0.0
    requires s == SlopeOf(n, sx, sy, sxy, DenomOf(n, sxx, sx)) && t == InterceptOf(n, sx, sy, s)
    requires Lin2(u, sxy, -t, sx, -s, sxx) && Lin2(v, sy, -t, n, -s, sx)
    ensures u == 0.0 && v == 0.0
  {
    assert s * (n * sxx - sx * sx) == n * sxy - sx * sy;
    assert t * n == sy - s * sx;
    calc {
      n * u;
      n * sxy - s * (n * sxx) - (t * n) * sx;
      n * sxy - s * (n * sxx) - (sy - s * sx) * sx;
      (n * sxy - sx * sy) - s * (n * sxx - sx * sx);
      0.0;
    }
  }

  /** No line has a smaller residual sum than the fitted one, and no other line an equal one. */
  lemma FitIsOptimal(p: Points, m: real, b: real)
    requires Valid(p) && FitLinear(p).Some?
    ensures var f := FitLinear(p).value;
            && Rss(p, f.slope, f.intercept) <= Rss(p, m, b)
            && (Rss(p, f.slope, f.intercept) == Rss(p, m, b) ==> m == f.slope && b == f.intercept)
  {
    var f := FitLinear(p).value;
    var dm, db := m - f.slope, b - f.intercept;
    NormalEquations(p, f.slope, f.intercept);
    RssMoves(p, f.slope, f.intercept, dm, db);
    DotSelf(Shift(p.xs, dm, db));
    DenomSign(p.xs);
    if dm != 0.0 || db != 0.0 { DifferentLinesAreApart(p.xs, dm, db); }
  }

  /** 0 <= ss_res <= ss_tot, so over the reals the clamp of R^2 never acts. */
  lemma ClampIsDead(p: Points)
    requires Valid(p) && FitLinear(p).Some?
    ensures var f := FitLinear(p).value;
            var ssRes, ssTot := Rss(p, f.slope, f.intercept), SsTot(p.ys, Mean(p.ys));
            && 0.0 <= ssRes <= ssTot
            && (ssTot >= EPSILON ==> f.r2 == 1.0 - ssRes / ssTot && 0.0 <= f.r2 <= 1.0)
            && (ssTot < EPSILON ==> f.r2 == 0.0)
  {
    var f := FitLinear(p).value;
    var mean := Mean(p.ys);
    FlatLine(p, mean);
    FitIsOptimal(p, 0.0, mean);
    DotSelf(Residuals(p, f.slope, f.intercept));
    if SsTot(p.ys, mean) >= EPSILON { RatioInUnit(Rss(p, f.slope, f.intercept), SsTot(p.ys, mean)); }
  }

  /** The total sum of squares is the residual sum of a flat line. */
  lemma FlatLine(p: Points, c: real)
    requires Valid(p)
    ensures SsTot(p.ys, c) == Rss(p, 0.0, c)
  {
    assert Deviations(p.ys, c) == Residuals(p, 0.0, c);
  }

  lemma RatioInUnit(a: real, b: real)
    requires 0.0 <= a <= b && b > 0.0
    ensures 0.0 <= a / b <= 1.0
  {
  }

  predicate Collinear(p: Points, m: real, b: real) {
    |p.xs| == |p.ys| && forall i :: 0 <= i < |p.xs| ==> OnLine(p.ys[i], m, b, p.xs[i])
  }

  /** Collinear points are recovered exactly, with R^2 = 1 unless y is (numerically) constant. */
  lemma CollinearIsRecovered(p: Points, m: real, b: real)
    requires Collinear(p, m, b) && FitLinear(p).Some?
    ensures var f := FitLinear(p).value;
            && f.slope == m && f.intercept == b
            && (f.r2 == 1.0 || SsTot(p.ys, Mean(p.ys)) < EPSILON)
  {
    var f := FitLinear(p).value;
    DotSelf(Residuals(p, m, b));
    NoResiduals(p, m, b);
    DotSelf(Residuals(p, f.slope, f.intercept));
    FitIsOptimal(p, m, b);
    ClampIsDead(p);
  }

  lemma NoResiduals(p: Points, m: real, b: real)
    requires Collinear(p, m, b)
    ensures IsZero(Residuals(p, m, b))
  {
    forall i | 0 <= i < |p.xs| ensures Residuals(p, m, b)[i] == 0.0 {
      assert OnLine(p.ys[i], m, b, p.xs[i]);
    }
  }

  /**
   A fit is refused for fewer than two points and for an x spread below EPSILON. Equal x always
   means refusal; the converse fails, so the exact condition is the spread test.
   */
  lemma FitIsRefusedExactlyOnTinySpread(p: Points)
    requires Valid(p)
    ensures FitLinear(p).None? <==> |p.xs| < 2 || Denom(p.xs) * 4503599627370496.0 < 1.0
    ensures FitLinear(p).Some? ==> FitLinear(p).value.n == |p.xs|
    ensures AllEqual(p.xs) ==> FitLinear(p).None?
  {
    DenomSign(p.xs);
  }

  lemma DistinctXCanBeRefused()
    ensures var p := Points([0.0, 1.0 / 1000000000.0], [0.0, 1.0]); !AllEqual(p.xs) && FitLinear(p).None?
  {
    var e := 1.0 / 1000000000.0;
    var one, xs := [0.0], [0.0, e];
    assert xs[0] != xs[1];
    assert xs[..1] == one && one[..0] == [];
    assert Sum(one) == 0.0 && Dot(one, one) == 0.0;
    assert Sum(xs) == e && Dot(xs, xs) == e * e;
  }

  // ---------------------------------------------------------------- the display model gate

  const MIN_R2 := 0.5

  datatype DisplayModel = DisplayModel(minBrightness: real, slope: real, intercept: real, r2: real)

  datatype Refusal = LowR2 | NegativeSlope | NegativePrediction

  function Times(k: real, x: real): real { k * x }

  /** Display power above the minimum brightness of the sweep. */
  function Predicted(d: DisplayModel, brightness: real): real {
    Times(d.slope, RMax(brightness - d.minBrightness, 0.0))
  }

  function UnavailableReason(d: DisplayModel, brightness: real): Option<Refusal> {
    if d.r2 < MIN_R2 then Some(LowR2)
    else if d.slope < 0.0 then Some(NegativeSlope)
    else if Predicted(d, brightness) < 0.0 then Some(NegativePrediction)
    else None
  }

  function DisplayWAt(d: DisplayModel, brightness: real): Option<real> {
    if UnavailableReason(d, brightness).Some? then None
    else Some(Predicted(d, brightness))
  }

  /** The gate depends on the model alone, the third refusal never fires, and a trusted model is monotone from zero. */
  lemma DisplayGate(d: DisplayModel, b: real, b': real)
    requires b <= b'
    ensures DisplayWAt(d, b).Some? <==> d.r2 >= 0.5 && d.slope >= 0.0
    ensures UnavailableReason(d, b) == Some(LowR2) <==> d.r2 < 0.5
    ensures UnavailableReason(d, b) != Some(NegativePrediction)
    ensures DisplayWAt(d, b).Some? ==>
              DisplayWAt(d, b').Some? && 0.0 <= DisplayWAt(d, b).value <= DisplayWAt(d, b').value
    ensures DisplayWAt(d, b).Some? && b <= d.minBrightness ==> DisplayWAt(d, b).value == 0.0
  {
    var x, x' := RMax(b - d.minBrightness, 0.0), RMax(b' - d.minBrightness, 0.0);
    if d.slope >= 0.0 {
      assert d.slope * x >= 0.0;
      assert d.slope * (x' - x) >= 0.0;
    }
  }

  /** Above the minimum brightness every further percent adds exactly the slope. */
  lemma DisplaySlope(d: DisplayModel, b: real, percent: real)
    requires DisplayWAt(d, b).Some? && b >= d.minBrightness && percent >= 0.0
    ensures DisplayWAt(d, b + percent) == Some(DisplayWAt(d, b).value + Times(d.slope, percent))
    ensures DisplayWAt(d, d.minBrightness + percent) == Some(Times(d.slope, percent))
  {
    var x := b - d.minBrightness;
    TrustedAt(d, b, x);
    TrustedAt(d, b + percent, x + percent);
    TrustedAt(d, d.minBrightness + percent, percent);
    TimesAdds(d.slope, x, percent);
  }

  lemma OnePercent(d: DisplayModel, b: real)
    requires DisplayWAt(d, b).Some? && b >= d.minBrightness
    ensures DisplayWAt(d, b + 1.0) == Some(DisplayWAt(d, b).value + d.slope)
  {
    DisplaySlope(d, b, 1.0);
    assert Times(d.slope, 1.0) == d.slope;
  }

  lemma TrustedAt(d: DisplayModel, b: real, x: real)
    requires d.r2 >= 0.5 && d.slope >= 0.0 && x == b - d.minBrightness >= 0.0
    ensures DisplayWAt(d, b) == Some(Times(d.slope, x))
  {
    DisplayGate(d, b, b);
    assert RMax(b - d.minBrightness, 0.0) == x;
    assert Predicted(d, b) == Times(d.slope, x);
  }

  lemma TimesAdds(k: real, x: real, y: real)
    ensures Times(k, x + y) == Times(k, x) + Times(k, y)
  {
  }
}

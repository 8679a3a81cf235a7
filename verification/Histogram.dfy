/** The fixed-bin streaming histogram and its quantile, against true order statistics. */
module Histogram {
  import opened Common

  /** Geometry of the bins: lower edge, bins per unit, number of bins. */
  datatype Shape = Shape(lo: real, invWidth: real, n: nat)

  ghost predicate ValidShape(h: Shape) { h.n > 0 && h.invWidth > 0.0 }

  function Width(h: Shape): real
    requires h.invWidth > 0.0
  {
    1.0 / h.invWidth
  }

  /** The position of a value counted in bin widths. */
  function Spot(h: Shape, v: real): real { (v - h.lo) * h.invWidth }

  /** The bin of a value: out-of-range values land in the edge bins. */
  function BinOf(h: Shape, v: real): (i: int)
    requires h.n > 0
    ensures 0 <= i < h.n
  {
    BinAt(h.n, Spot(h, v))
  }

  /** The bin of a position counted in bin widths. */
  function BinAt(n: nat, x: real): (i: int)
    requires n > 0
    ensures 0 <= i < n
  {
    if x.Floor < 0 then 0 else if x.Floor > n - 1 then n - 1 else x.Floor
  }

  // ---------------------------------------------------------------- counting

  function CountBin(h: Shape, vs: seq<real>, i: int): nat
    requires h.n > 0
  {
    if vs == [] then 0 else CountBin(h, vs[..|vs| - 1], i) + (if BinOf(h, vs[|vs| - 1]) == i then 1 else 0)
  }

  function CountBelowBin(h: Shape, vs: seq<real>, i: int): nat
    requires h.n > 0
  {
    if vs == [] then 0 else CountBelowBin(h, vs[..|vs| - 1], i) + (if BinOf(h, vs[|vs| - 1]) < i then 1 else 0)
  }

  function CountLess(vs: seq<real>, x: real): nat {
    if vs == [] then 0 else CountLess(vs[..|vs| - 1], x) + (if vs[|vs| - 1] < x then 1 else 0)
  }

  function CountLeq(vs: seq<real>, x: real): nat {
    if vs == [] then 0 else CountLeq(vs[..|vs| - 1], x) + (if vs[|vs| - 1] <= x then 1 else 0)
  }

  /** x is the k-th smallest of the samples, counting from 0. */
  predicate IsOrderStatistic(vs: seq<real>, k: int, x: real) {
    CountLess(vs, x) <= k < CountLeq(vs, x)
  }

  function SumBins(bins: seq<nat>): nat {
    if bins == [] then 0 else SumBins(bins[..|bins| - 1]) + bins[|bins| - 1]
  }

  // ---------------------------------------------------------------- the histogram

  function MinPositive(k: nat): (r: real)
    ensures r > 0.0
  {
    if k == 0 then 1.0 else MinPositive(k - 1) / 2.0
  }

  function SumOf(vs: seq<real>): real { if vs == [] then 0.0 else SumOf(vs[..|vs| - 1]) + vs[|vs| - 1] }

  lemma SnocSum(vs: seq<real>, v: real)
    ensures SumOf(vs + [v]) == SumOf(vs) + v
  {
    assert (vs + [v])[..|vs|] == vs;
  }

  /** The smallest and the largest sample, or nothing if there is none. */
  ghost predicate AreExtremes(min: Option<real>, max: Option<real>, seen: seq<real>) {
    && (seen == [] ==> min.None? && max.None?)
    && (seen != [] ==> min.Some? && min.value in seen && max.Some? && max.value in seen)
    && (forall v :: v in seen ==> min.Some? && min.value <= v && max.Some? && v <= max.value)
  }

  lemma ExtremesGrow(min: Option<real>, max: Option<real>, seen: seq<real>, v: real)
    requires AreExtremes(min, max, seen)
    ensures AreExtremes(if min.None? || v < min.value then Some(v) else min,
                        if max.None? || v > max.value then Some(v) else max, seen + [v])
  {
  }

  class FixedHistogram {
    const shape: Shape
    const bins: array<nat>
    var count: nat
    var sum: real
    var min: Option<real>
    var max: Option<real>
    ghost var seen: seq<real>

    ghost predicate Valid()
      reads this, bins
    {
      && ValidShape(shape) && bins.Length == shape.n
      && count == |seen| && sum == SumOf(seen)
      && (forall i :: 0 <= i < shape.n ==> bins[i] == CountBin(shape, seen, i))
      && AreExtremes(min, max, seen)
    }

    constructor (lo: real, hi: real, n: nat)
      ensures Valid() && fresh(bins) && seen == []
      ensures shape.lo == lo && shape.n == (if n == 0 then 1 else n)
      ensures shape.invWidth * RMax(hi - lo, MinPositive(1022)) == shape.n as real
      ensures hi - lo >= 1.0 ==> shape.invWidth * (hi - lo) == shape.n as real
    {
      var m := if n == 0 then 1 else n;
      var span := RMax(hi - lo, MinPositive(1022));
      shape := Shape(lo, m as real / span, m);
      bins := new nat[m](_ => 0);
      count, sum, min, max := 0, 0.0, None, None;
      seen := [];
      TinyIsBelowOne(1022);
    }

    method Push(v: real)
      requires Valid()
      modifies this, bins
      ensures Valid() && seen == old(seen) + [v]
    {
      SnocSum(seen, v);
      SnocCount(shape, seen, v);
      ExtremesGrow(min, max, seen, v);
      count := count + 1;
      sum := sum + v;
      if min.None? || v < min.value { min := Some(v); }
      if max.None? || v > max.value { max := Some(v); }
      var i := BinOf(shape, v);
      bins[i] := bins[i] + 1;
      seen := seen + [v];
    }

    method Percentile(p: real) returns (q: Option<real>)
      requires Valid()
      ensures q == Quantile(shape, bins[..], count, p)
      ensures q.Some? <==> seen != [] && 0.0 <= p <= 100.0
    {
      QuantileIsSomeIffNonEmpty(shape, bins[..], seen, p);
      q := InterpolatedPercentile(shape, bins[..], count, p);
    }
  }

  /** Linear-interpolated percentile: locate the bin of the target rank, then interpolate inside it. */
  method InterpolatedPercentile(h: Shape, bins: seq<nat>, count: nat, p: real) returns (q: Option<real>)
    requires h.invWidth > 0.0
    ensures q == Quantile(h, bins, count, p)
  {
    if count == 0 || p < 0.0 || p > 100.0 { return None; }
    var width := 1.0 / h.invWidth;
    var target := p / 100.0 * (count - 1) as real;
    var cum: nat := 0;
    for i := 0 to |bins|
      invariant Locate(bins, 0, 0, target) == Locate(bins, i, cum, target)
    {
      var c := bins[i];
      if c == 0 { continue; }
      var next := cum + c;
      if target < next as real || i == |bins| - 1 {
        var frac := if c > 1 then Clamp01((target - cum as real) / (c as real - 1.0)) else 0.5;
        return Some(h.lo + (i as real + frac) * width);
      }
      cum := next;
    }
    return None;
  }

  lemma TinyIsBelowOne(k: nat)
    ensures MinPositive(k) <= 1.0
  {
    if k > 0 { TinyIsBelowOne(k - 1); }
  }

  lemma SnocCount(h: Shape, vs: seq<real>, v: real)
    requires h.n > 0
    ensures forall i :: CountBin(h, vs + [v], i) == CountBin(h, vs, i) + (if BinOf(h, v) == i then 1 else 0)
  {
    assert (vs + [v])[..|vs|] == vs;
  }

  function Clamp01(x: real): real {
    if x < 0.0 then 0.0 else if x > 1.0 then 1.0 else x
  }

  /** The scan for the target rank: the bin it stops in and the samples below that bin. */
  datatype Hit = Hit(bin: nat, cum: nat) | Miss

  function Locate(bins: seq<nat>, i: nat, cum: nat, target: real): Hit
    requires i <= |bins|
    decreases |bins| - i
  {
    if i == |bins| then Miss
    else if bins[i] != 0 && (target < (cum + bins[i]) as real || i == |bins| - 1) then Hit(i, cum)
    else Locate(bins, i + 1, cum + bins[i], target)
  }

  function Fraction(target: real, cum: nat, c: nat): real {
    if c > 1 then Clamp01((target - cum as real) / (c as real - 1.0)) else 0.5
  }

  /** The value at a position measured in bins. */
  function Place(h: Shape, y: real): real
    requires h.invWidth > 0.0
  {
    h.lo + y * Width(h)
  }

  /** Linear interpolation inside the bin of the target rank. */
  function Quantile(h: Shape, bins: seq<nat>, count: nat, p: real): Option<real>
    requires h.invWidth > 0.0
  {
    if count == 0 || p < 0.0 || p > 100.0 then None
    else
      var hit := Locate(bins, 0, 0, Target(count, p));
      if hit.Hit? && hit.bin < |bins|
      then Some(Place(h, hit.bin as real + Fraction(Target(count, p), hit.cum, bins[hit.bin])))
      else None
  }

  // ---------------------------------------------------------------- bins and ranks

  /** The bins hold exactly the samples. */
  predicate Holds(h: Shape, bins: seq<nat>, vs: seq<real>) {
    h.n > 0 && |bins| == h.n && forall i :: 0 <= i < h.n ==> bins[i] == CountBin(h, vs, i)
  }

  lemma {:induction false} BelowNextBin(h: Shape, vs: seq<real>, i: int)
    requires h.n > 0
    ensures CountBelowBin(h, vs, i + 1) == CountBelowBin(h, vs, i) + CountBin(h, vs, i)
    ensures i <= 0 ==> CountBelowBin(h, vs, i) == 0
    ensures i >= h.n ==> CountBelowBin(h, vs, i) == |vs|
    decreases |vs|
  {
    if vs != [] { BelowNextBin(h, vs[..|vs| - 1], i); }
  }

  lemma {:induction false} PrefixSums(h: Shape, bins: seq<nat>, vs: seq<real>, i: nat)
    requires Holds(h, bins, vs) && i <= |bins|
    ensures SumBins(bins[..i]) == CountBelowBin(h, vs, i)
  {
    if i == 0 {
      BelowNextBin(h, vs, 0);
    } else {
      PrefixSums(h, bins, vs, i - 1);
      BelowNextBin(h, vs, i - 1);
      assert bins[..i][..i - 1] == bins[..i - 1];
    }
  }

  /** After any pushes the bins sum to the count. */
  lemma BinsSumToCount(h: Shape, bins: seq<nat>, vs: seq<real>)
    requires Holds(h, bins, vs)
    ensures SumBins(bins) == |vs|
  {
    PrefixSums(h, bins, vs, |bins|);
    BelowNextBin(h, vs, h.n);
    assert bins[..|bins|] == bins;
  }

  lemma {:induction false} SumGrows(bins: seq<nat>, i: nat)
    requires i <= |bins|
    ensures SumBins(bins[..i]) <= SumBins(bins)
    ensures i < |bins| ==> SumBins(bins[..i + 1]) == SumBins(bins[..i]) + bins[i]
    decreases |bins| - i
  {
    if i < |bins| {
      assert bins[..i + 1][..i] == bins[..i];
      SumGrows(bins, i + 1);
    } else {
      assert bins[..i] == bins;
    }
  }

  /** The scan stops in the bin that holds the target rank. */
  lemma {:induction false} LocateFindsTheRank(bins: seq<nat>, i: nat, target: real)
    requires i <= |bins| && SumBins(bins[..i]) as real <= target < SumBins(bins) as real
    ensures var hit := Locate(bins, i, SumBins(bins[..i]), target);
            && hit.Hit? && i <= hit.bin < |bins| && hit.cum == SumBins(bins[..hit.bin])
            && hit.cum as real <= target < (hit.cum + bins[hit.bin]) as real
    decreases |bins| - i
  {
    SumGrows(bins, i);
    assert bins[..|bins|] == bins;
    if i < |bins| {
      var next := SumBins(bins[..i]) + bins[i];
      if i == |bins| - 1 { assert bins[..i + 1] == bins; }
      if target >= next as real { LocateFindsTheRank(bins, i + 1, target); }
    }
  }

  lemma BinIsMonotone(h: Shape, v: real, w: real)
    requires ValidShape(h) && v <= w
    ensures BinOf(h, v) <= BinOf(h, w)
  {
    SpotGrows(h, v, w);
    BinAtIsMonotone(h.n, Spot(h, v), Spot(h, w));
  }

  lemma SpotGrows(h: Shape, v: real, w: real)
    requires h.invWidth > 0.0 && v <= w
    ensures Spot(h, v) <= Spot(h, w)
  {
    ScaleKeepsOrder(v - h.lo, w - h.lo, h.invWidth);
  }

  lemma FloorIsMonotone(x: real, y: real)
    requires x <= y
    ensures x.Floor <= y.Floor
  {
    assert x.Floor as real <= x && y < y.Floor as real + 1.0;
  }

  lemma BinAtIsMonotone(n: nat, x: real, y: real)
    requires n > 0 && x <= y
    ensures BinAt(n, x) <= BinAt(n, y)
  {
    FloorIsMonotone(x, y);
  }

  lemma {:induction false} LowerBinsAreBelow(h: Shape, vs: seq<real>, x: real, i: int)
    requires ValidShape(h)
    ensures BinOf(h, x) < i ==> CountLeq(vs, x) <= CountBelowBin(h, vs, i)
    ensures BinOf(h, x) >= i ==> CountBelowBin(h, vs, i) <= CountLess(vs, x)
    decreases |vs|
  {
    if vs != [] {
      LowerBinsAreBelow(h, vs[..|vs| - 1], x, i);
      var v := vs[|vs| - 1];
      if v <= x { BinIsMonotone(h, v, x); }
      if x <= v { BinIsMonotone(h, x, v); }
    }
  }

  function Target(count: nat, p: real): real
    requires count > 0
  {
    p / 100.0 * (count - 1) as real
  }

  lemma TargetInRange(count: nat, p: real)
    requires count > 0 && 0.0 <= p <= 100.0
    ensures 0.0 <= Target(count, p) <= (count - 1) as real
  {
    PercentOf(p, (count - 1) as real);
  }

  lemma PercentOf(p: real, m: real)
    requires 0.0 <= p <= 100.0 && m >= 0.0
    ensures 0.0 <= p / 100.0 * m <= m
  {
    UnitScale(p / 100.0, m);
  }

  lemma UnitScale(f: real, m: real)
    requires 0.0 <= f <= 1.0 && m >= 0.0
    ensures 0.0 <= f * m <= m
  {
    assert (1.0 - f) * m >= 0.0;
  }

  /** The bin the quantile is taken from, with the facts that place the target rank in it. */
  lemma QuantileBin(h: Shape, bins: seq<nat>, vs: seq<real>, p: real) returns (i: nat, cum: nat)
    requires Holds(h, bins, vs) && vs != [] && 0.0 <= p <= 100.0
    ensures Locate(bins, 0, 0, Target(|vs|, p)) == Hit(i, cum)
    ensures i < |bins| && cum == CountBelowBin(h, vs, i) && cum + bins[i] == CountBelowBin(h, vs, i + 1)
    ensures cum as real <= Target(|vs|, p) < (cum + bins[i]) as real
  {
    TargetInRange(|vs|, p);
    BinsSumToCount(h, bins, vs);
    assert bins[..0] == [];
    LocateFindsTheRank(bins, 0, Target(|vs|, p));
    var hit := Locate(bins, 0, 0, Target(|vs|, p));
    i, cum := hit.bin, hit.cum;
    PrefixSums(h, bins, vs, i);
    BelowNextBin(h, vs, i);
  }

  // ---------------------------------------------------------------- main results

  /** Some exactly when there is a sample and p is a percentage. */
  lemma QuantileIsSomeIffNonEmpty(h: Shape, bins: seq<nat>, vs: seq<real>, p: real)
    requires ValidShape(h) && Holds(h, bins, vs)
    ensures Quantile(h, bins, |vs|, p).Some? <==> vs != [] && 0.0 <= p <= 100.0
  {
    if vs != [] && 0.0 <= p <= 100.0 {
      var i, cum := QuantileBin(h, bins, vs, p);
    }
  }

  /** q lies in the closed bin i. */
  predicate InBin(h: Shape, i: int, q: real)
    requires h.invWidth > 0.0
  {
    Place(h, i as real) <= q <= Place(h, (i + 1) as real)
  }

  /** The quantile lies in the closed bin of the floor(p/100*(count-1))-th smallest sample. */
  lemma QuantileIsRankCorrect(h: Shape, bins: seq<nat>, vs: seq<real>, p: real, x: real)
    requires ValidShape(h) && Holds(h, bins, vs) && vs != [] && 0.0 <= p <= 100.0
    requires IsOrderStatistic(vs, (p / 100.0 * (|vs| - 1) as real).Floor, x)
    ensures Quantile(h, bins, |vs|, p).Some? && InBin(h, BinOf(h, x), Quantile(h, bins, |vs|, p).value)
  {
    var i, cum := QuantileBin(h, bins, vs, p);
    OrderStatisticIsInBin(h, vs, Target(|vs|, p).Floor, x, i);
    InsideBin(h, i, Fraction(Target(|vs|, p), cum, bins[i]));
  }

  lemma OrderStatisticIsInBin(h: Shape, vs: seq<real>, k: int, x: real, i: int)
    requires ValidShape(h) && IsOrderStatistic(vs, k, x)
    requires CountBelowBin(h, vs, i) <= k < CountBelowBin(h, vs, i + 1)
    ensures BinOf(h, x) == i
  {
    LowerBinsAreBelow(h, vs, x, i);
    LowerBinsAreBelow(h, vs, x, i + 1);
  }

  lemma InsideBin(h: Shape, i: nat, f: real)
    requires h.invWidth > 0.0 && 0.0 <= f <= 1.0
    ensures InBin(h, i, Place(h, i as real + f))
  {
    PlaceGrows(h, i as real, i as real + f);
    PlaceGrows(h, i as real + f, (i + 1) as real);
  }

  lemma PlaceGrows(h: Shape, a: real, b: real)
    requires h.invWidth > 0.0 && a <= b
    ensures Place(h, a) <= Place(h, b)
  {
    ScaleKeepsOrder(a, b, Width(h));
  }

  /** A sample within the range of the histogram lies in the closed bin it is counted in. */
  lemma InRangeSampleIsInItsBin(h: Shape, x: real)
    requires ValidShape(h) && 0.0 <= (x - h.lo) * h.invWidth <= h.n as real
    ensures InBin(h, BinOf(h, x), x)
  {
    var y := (x - h.lo) * h.invWidth;
    PlaceGrows(h, BinOf(h, x) as real, y);
    PlaceGrows(h, y, (BinOf(h, x) + 1) as real);
    PlaceUndoesScale(h, x);
  }

  lemma PlaceUndoesScale(h: Shape, x: real)
    requires h.invWidth > 0.0
    ensures Place(h, (x - h.lo) * h.invWidth) == x
  {
    var d := x - h.lo;
    assert h.invWidth * Width(h) == 1.0;
    calc { d * h.invWidth * Width(h); d * (h.invWidth * Width(h)); d; }
  }

  lemma SameBinIsClose(h: Shape, i: int, q: real, x: real)
    requires h.invWidth > 0.0 && InBin(h, i, q) && InBin(h, i, x)
    ensures -Width(h) <= q - x <= Width(h)
  {
    assert (i as real + 1.0) * Width(h) == i as real * Width(h) + Width(h);
  }

  /** In range, the quantile is within one bin width of the order statistic it approximates. */
  lemma QuantileIsWithinOneBin(h: Shape, bins: seq<nat>, vs: seq<real>, p: real, x: real)
    requires ValidShape(h) && Holds(h, bins, vs) && vs != [] && 0.0 <= p <= 100.0
    requires IsOrderStatistic(vs, (p / 100.0 * (|vs| - 1) as real).Floor, x)
    requires 0.0 <= (x - h.lo) * h.invWidth <= h.n as real
    ensures Quantile(h, bins, |vs|, p).Some?
    ensures -Width(h) <= Quantile(h, bins, |vs|, p).value - x <= Width(h)
  {
    QuantileIsRankCorrect(h, bins, vs, p, x);
    InRangeSampleIsInItsBin(h, x);
    SameBinIsClose(h, BinOf(h, x), Quantile(h, bins, |vs|, p).value, x);
  }

  // ---------------------------------------------------------------- interpolation

  /** How far into its bin a target lies that is `above` ranks above the first of the c ranks of the bin. */
  predicate SpreadsTo(above: real, c: nat, f: real) {
    if c == 1 then f == 0.5
    else if above >= (c - 1) as real then f == 1.0
    else f * (c - 1) as real == above
  }

  lemma FractionSpreads(t: real, cum: nat, c: nat)
    requires c >= 1 && cum as real <= t
    ensures SpreadsTo(t - cum as real, c, Fraction(t, cum, c))
  {
    if c > 1 { QuotientMeans(t - cum as real, c as real - 1.0); }
  }

  lemma QuotientMeans(a: real, d: real)
    requires a >= 0.0 && d > 0.0
    ensures a / d * d == a && a / d >= 0.0 && (a / d > 1.0 ==> a >= d) && (a >= d ==> a / d >= 1.0)
  {
    if a >= d { DivideKeepsOrder(d, a, d); }
    if a < d { DivideKeepsOrder(a, d, d); }
  }

  /** The bin that holds a rank is the only one that does. */
  lemma RankIsInOneBin(h: Shape, vs: seq<real>, t: real, i: nat, j: nat)
    requires h.n > 0
    requires CountBelowBin(h, vs, i) as real <= t < CountBelowBin(h, vs, i + 1) as real
    requires CountBelowBin(h, vs, j) as real <= t < CountBelowBin(h, vs, j + 1) as real
    ensures i == j
  {
    if i < j { BelowIsMonotone(h, vs, i + 1, j); }
    if j < i { BelowIsMonotone(h, vs, j + 1, i); }
  }

  /**
   The quantile is interpolated over the ranks of its bin: if the target p/100*(count-1) is among the ranks of bin i,
   the first of them is at the lower edge of the bin, the last at the upper edge and the others in equal steps between;
   a single rank is in the middle.
   */
  lemma QuantileIsInterpolated(h: Shape, bins: seq<nat>, vs: seq<real>, p: real, t: real, i: nat) returns (f: real)
    requires ValidShape(h) && Holds(h, bins, vs) && vs != [] && 0.0 <= p <= 100.0 && i < h.n
    requires t == p / 100.0 * (|vs| - 1) as real
    requires CountBelowBin(h, vs, i) as real <= t < CountBelowBin(h, vs, i + 1) as real
    ensures SpreadsTo(t - CountBelowBin(h, vs, i) as real, CountBin(h, vs, i), f)
    ensures Quantile(h, bins, |vs|, p) == Some(Place(h, i as real + f))
  {
    assert t == Target(|vs|, p);
    var j, cum := QuantileBin(h, bins, vs, p);
    RankIsInOneBin(h, vs, t, i, j);
    f := Fraction(t, cum, bins[i]);
    FractionSpreads(t, cum, bins[i]);
  }

  const DISCHARGE_HIST := Shape(0.0, 10.0, 3000)

  /** For discharge readings of at most 300 W the footer percentiles are within 0.1 W of the order statistic. */
  lemma DischargePercentileError(bins: seq<nat>, vs: seq<real>, p: real, x: real)
    requires Holds(DISCHARGE_HIST, bins, vs) && vs != [] && 0.0 <= p <= 100.0
    requires IsOrderStatistic(vs, (p / 100.0 * (|vs| - 1) as real).Floor, x) && 0.0 <= x <= 300.0
    ensures Quantile(DISCHARGE_HIST, bins, |vs|, p).Some?
    ensures -0.1 <= Quantile(DISCHARGE_HIST, bins, |vs|, p).value - x <= 0.1
  {
    QuantileIsWithinOneBin(DISCHARGE_HIST, bins, vs, p, x);
  }

  /** The quantile never decreases as p grows. */
  lemma QuantileIsMonotone(h: Shape, bins: seq<nat>, vs: seq<real>, p: real, p': real)
    requires ValidShape(h) && Holds(h, bins, vs) && vs != [] && 0.0 <= p <= p' <= 100.0
    ensures Quantile(h, bins, |vs|, p).Some? && Quantile(h, bins, |vs|, p').Some?
    ensures Quantile(h, bins, |vs|, p).value <= Quantile(h, bins, |vs|, p').value
  {
    var i, cum := QuantileBin(h, bins, vs, p);
    var j, cum' := QuantileBin(h, bins, vs, p');
    TargetGrows(|vs|, p, p');
    PositionGrows(h, vs, i, cum, bins[i], Target(|vs|, p), j, cum', bins[j], Target(|vs|, p'));
    PlaceGrows(h, i as real + Fraction(Target(|vs|, p), cum, bins[i]),
               j as real + Fraction(Target(|vs|, p'), cum', bins[j]));
  }

  lemma PositionGrows(h: Shape, vs: seq<real>, i: nat, cum: nat, c: nat, t: real, j: nat, cum': nat, c': nat, t': real)
    requires h.n > 0 && t <= t' && cum as real <= t && t' < (cum' + c') as real
    requires cum == CountBelowBin(h, vs, i) && cum' + c' == CountBelowBin(h, vs, j + 1)
    requires i == j ==> cum == cum' && c == c'
    ensures i as real + Fraction(t, cum, c) <= j as real + Fraction(t', cum', c')
  {
    if j < i { BelowIsMonotone(h, vs, j + 1, i); }
    if i == j { FractionGrows(t, t', cum, c); }
  }

  lemma ScaleKeepsOrder(a: real, b: real, w: real)
    requires a <= b && w >= 0.0
    ensures a * w <= b * w
  {
    assert (b - a) * w >= 0.0;
  }

  lemma TargetGrows(count: nat, p: real, p': real)
    requires count > 0 && p <= p'
    ensures Target(count, p) <= Target(count, p')
  {
    var m := (count - 1) as real;
    assert (p' / 100.0 - p / 100.0) * m >= 0.0;
  }

  lemma {:induction false} BelowIsMonotone(h: Shape, vs: seq<real>, i: int, j: int)
    requires h.n > 0 && i <= j
    ensures CountBelowBin(h, vs, i) <= CountBelowBin(h, vs, j)
    decreases |vs|
  {
    if vs != [] { BelowIsMonotone(h, vs[..|vs| - 1], i, j); }
  }

  lemma FractionGrows(t: real, t': real, cum: nat, c: nat)
    requires t <= t'
    ensures Fraction(t, cum, c) <= Fraction(t', cum, c)
  {
    if c > 1 {
      var d := c as real - 1.0;
      DivideKeepsOrder(t - cum as real, t' - cum as real, d);
    }
  }

  lemma DivideKeepsOrder(a: real, b: real, d: real)
    requires a <= b && d > 0.0
    ensures a / d <= b / d
  {
    assert b / d - a / d == (b - a) / d;
  }

  /** The k-th element of the sorted samples is the order statistic the results speak of. */
  lemma SortedGivesOrderStatistic(vs: seq<real>, sorted: seq<real>, k: nat)
    requires multiset(vs) == multiset(sorted) && k < |sorted|
    requires forall i, j :: 0 <= i < j < |sorted| ==> sorted[i] <= sorted[j]
    ensures IsOrderStatistic(vs, k, sorted[k])
  {
    CountsAreMultiset(vs, sorted, sorted[k]);
    SortedCounts(sorted, k, |sorted|);
    assert sorted[..|sorted|] == sorted;
  }

  lemma {:induction false} SortedCounts(sorted: seq<real>, k: nat, n: nat)
    requires k < |sorted| && n <= |sorted|
    requires forall i, j :: 0 <= i < j < |sorted| ==> sorted[i] <= sorted[j]
    ensures CountLess(sorted[..n], sorted[k]) <= k
    ensures k < n ==> CountLeq(sorted[..n], sorted[k]) > k
    ensures n <= k ==> CountLess(sorted[..n], sorted[k]) <= n && CountLeq(sorted[..n], sorted[k]) == n
  {
    if n > 0 {
      SortedCounts(sorted, k, n - 1);
      assert sorted[..n][..n - 1] == sorted[..n - 1];
    }
  }

  /** Both counts depend on the samples as a multiset only. */
  lemma {:induction false} CountsAreMultiset(a: seq<real>, b: seq<real>, x: real)
    requires multiset(a) == multiset(b)
    ensures CountLess(a, x) == CountLess(b, x) && CountLeq(a, x) == CountLeq(b, x)
    decreases |a|
  {
    if a == [] {
      assert |multiset(b)| == 0;
    } else {
      var v := a[|a| - 1];
      var i := SplitAtLast(a, b);
      CountsAreMultiset(a[..|a| - 1], b[..i] + b[i + 1..], x);
      RemoveOne(b[..i], v, b[i + 1..], x);
    }
  }

  lemma SplitAtLast(a: seq<real>, b: seq<real>) returns (i: nat)
    requires multiset(a) == multiset(b) && a != []
    ensures i < |b| && b == b[..i] + [a[|a| - 1]] + b[i + 1..]
    ensures multiset(a[..|a| - 1]) == multiset(b[..i] + b[i + 1..])
  {
    var v := a[|a| - 1];
    assert v in multiset(a);
    assert v in b;
    i :| 0 <= i < |b| && b[i] == v;
    assert b == b[..i] + [v] + b[i + 1..];
    assert a == a[..|a| - 1] + [v];
    assert multiset(a) == multiset(a[..|a| - 1]) + multiset{v};
    assert multiset(b) == multiset(b[..i] + b[i + 1..]) + multiset{v};
    CancelOne(multiset(a[..|a| - 1]), multiset(b[..i] + b[i + 1..]), v);
  }

  lemma CancelOne(m: multiset<real>, n: multiset<real>, v: real)
    requires m + multiset{v} == n + multiset{v}
    ensures m == n
  {
    assert m == (m + multiset{v}) - multiset{v};
    assert n == (n + multiset{v}) - multiset{v};
  }

  lemma {:induction false} RemoveOne(a: seq<real>, v: real, b: seq<real>, x: real)
    ensures CountLess(a + [v] + b, x) == CountLess(a + b, x) + (if v < x then 1 else 0)
    ensures CountLeq(a + [v] + b, x) == CountLeq(a + b, x) + (if v <= x then 1 else 0)
    decreases |b|
  {
    if b == [] {
      assert a + [v] + b == a + [v] && a + b == a && (a + [v])[..|a|] == a;
    } else {
      RemoveOne(a, v, b[..|b| - 1], x);
      assert (a + [v] + b)[..|a| + |b|] == a + [v] + b[..|b| - 1];
      assert (a + b)[..|a| + |b| - 1] == a + b[..|b| - 1];
    }
  }
}

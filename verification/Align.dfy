/** Pairing two wall-sorted series: a two-pointer sweep that is an as-of join. */
module Align {
  import opened Common

  datatype Sample = Sample(wall: nat, value: Option<real>)

  /** A sample whose value is known. */
  datatype Known = Known(wall: nat, value: real)

  function KnownOf(s: seq<Sample>): (r: seq<Known>)
    ensures |r| <= |s|
  {
    if s == [] then []
    else
      var last := s[|s| - 1];
      KnownOf(s[..|s| - 1]) + (if last.value.Some? then [Known(last.wall, last.value.value)] else [])
  }

  predicate SamplesSorted(s: seq<Sample>) { forall i, j :: 0 <= i < j < |s| ==> s[i].wall <= s[j].wall }

  predicate SamplesIncrease(s: seq<Sample>) { forall i, j :: 0 <= i < j < |s| ==> s[i].wall < s[j].wall }

  predicate Sorted(s: seq<Known>) { forall i, j :: 0 <= i < j < |s| ==> s[i].wall <= s[j].wall }

  predicate Increasing(s: seq<Known>) { forall i, j :: 0 <= i < j < |s| ==> s[i].wall < s[j].wall }

  function Distance(a: nat, b: nat): nat { if a < b then b - a else a - b }

  // ---------------------------------------------------------------- the reference join

  /** The latest element at or before t, or the first if none is earlier: found by looking at every element. */
  function Latest(ys: seq<Known>, t: nat): (k: nat)
    requires ys != []
    ensures k < |ys|
  {
    if |ys| == 1 || ys[|ys| - 1].wall <= t then |ys| - 1 else Latest(ys[..|ys| - 1], t)
  }

  /** Of two elements with the same stamp the earlier one is paired. */
  function Choice(ys: seq<Known>, t: nat): (k: nat)
    requires ys != []
    ensures k < |ys|
  {
    var k := Latest(ys, t);
    if k > 0 && ys[k - 1].wall == ys[k].wall then k - 1 else k
  }

  function Match(x: Known, ys: seq<Known>, tol: nat): seq<(real, real)> {
    if ys == [] then []
    else
      var y := ys[Choice(ys, x.wall)];
      if Distance(y.wall, x.wall) <= tol then [(x.value, y.value)] else []
  }

  /** Every x looked up on its own, in x order. */
  function Join(xs: seq<Known>, ys: seq<Known>, tol: nat): seq<(real, real)> {
    if xs == [] then [] else Join(xs[..|xs| - 1], ys, tol) + Match(xs[|xs| - 1], ys, tol)
  }

  // ---------------------------------------------------------------- the sweep

  method Align(x: seq<Sample>, y: seq<Sample>, tol: nat) returns (out: seq<(real, real)>)
    ensures SamplesSorted(x) && SamplesSorted(y) ==> out == Join(KnownOf(x), KnownOf(y), tol)
  {
    var xs := Filter(x);
    var ys := Filter(y);
    if SamplesSorted(x) { KnownIsSorted(x); }
    if SamplesSorted(y) { KnownIsSorted(y); }
    out := Sweep(xs, ys, tol);
  }

  /** One pass over both series: the pointer j never moves back. */
  method Sweep(xs: seq<Known>, ys: seq<Known>, tol: nat) returns (out: seq<(real, real)>)
    ensures Sorted(xs) && Sorted(ys) ==> out == Join(xs, ys, tol)
  {
    out := [];
    var j := 0;
    for i := 0 to |xs|
      invariant j == 0 || j < |ys|
      invariant Sorted(xs) ==> Reached(ys, j, if i == 0 then 0 else xs[i - 1].wall)
      invariant Sorted(xs) && Sorted(ys) ==> out == Join(xs[..i], ys, tol)
    {
      var p := xs[i];
      j := Advance(ys, j, p.wall);
      var best := Best(ys, j, p, tol);
      if best.Some? { out := out + [(p.value, best.value.value)]; }
      assert xs[..i + 1][..i] == xs[..i];
    }
    assert xs[..|xs|] == xs;
  }

  /** The pointer stands at the front or at an element not after t. */
  predicate Reached(ys: seq<Known>, j: nat, t: nat) { j == 0 || (j < |ys| && ys[j].wall <= t) }

  method Advance(ys: seq<Known>, from: nat, t: nat) returns (j: nat)
    requires from == 0 || from < |ys|
    ensures j >= from && (j == 0 || j < |ys|)
    ensures Reached(ys, from, t) ==> Reached(ys, j, t)
    ensures Sorted(ys) && ys != [] && Reached(ys, from, t) ==> j == Latest(ys, t)
  {
    j := from;
    while j + 1 < |ys| && ys[j + 1].wall <= t
      invariant from <= j && (j == 0 || j < |ys|)
      invariant Reached(ys, from, t) ==> Reached(ys, j, t)
    {
      j := j + 1;
    }
    if Sorted(ys) && ys != [] && Reached(ys, from, t) { PointerIsLatest(ys, j, t); }
  }

  method Filter(s: seq<Sample>) returns (r: seq<Known>)
    ensures r == KnownOf(s)
  {
    r := [];
    for i := 0 to |s|
      invariant r == KnownOf(s[..i])
    {
      assert s[..i + 1][..i] == s[..i];
      if s[i].value.Some? { r := r + [Known(s[i].wall, s[i].value.value)]; }
    }
    assert s[..|s|] == s;
  }

  /** The candidate before the pointer, then the one at it; a later candidate wins only if strictly nearer. */
  method Best(ys: seq<Known>, j: nat, p: Known, tol: nat) returns (best: Option<Known>)
    requires j == 0 || j < |ys|
    ensures ys == [] ==> best.None?
    ensures Sorted(ys) && ys != [] && j == Latest(ys, p.wall) ==>
              best == Within(ys[Choice(ys, p.wall)], p, tol)
  {
    best := None;
    var candidates := [SatSub(j, 1), j];
    for c := 0 to 2
      invariant c == 0 ==> best.None?
      invariant ys == [] ==> best.None?
      invariant c == 1 && ys != [] ==> best == Within(ys[SatSub(j, 1)], p, tol)
      invariant c == 2 && Sorted(ys) && ys != [] && j == Latest(ys, p.wall) ==>
                  best == Within(ys[Choice(ys, p.wall)], p, tol)
    {
      var k := candidates[c];
      if k < |ys| {
        var d := Distance(ys[k].wall, p.wall);
        if c == 1 && Sorted(ys) && j == Latest(ys, p.wall) { NearerWins(ys, j, p.wall); }
        if d <= tol && (best.None? || d < Distance(best.value.wall, p.wall)) { best := Some(ys[k]); }
      }
    }
  }

  function Within(y: Known, p: Known, tol: nat): Option<Known> {
    if Distance(y.wall, p.wall) <= tol then Some(y) else None
  }

  // ---------------------------------------------------------------- why the sweep is the join

  lemma {:induction false} KnownIsSorted(s: seq<Sample>)
    requires SamplesSorted(s)
    ensures Sorted(KnownOf(s))
    ensures SamplesIncrease(s) ==> Increasing(KnownOf(s))
    ensures forall i :: 0 <= i < |KnownOf(s)| ==> exists j :: 0 <= j < |s| && s[j].wall == KnownOf(s)[i].wall
    decreases |s|
  {
    if s != [] {
      var init := s[..|s| - 1];
      KnownIsSorted(init);
      assert forall j :: 0 <= j < |init| ==> init[j] == s[j];
    }
  }

  lemma {:induction false} LatestMeans(ys: seq<Known>, t: nat)
    requires ys != []
    ensures var k := Latest(ys, t); (k > 0 ==> ys[k].wall <= t) && forall i :: k < i < |ys| ==> ys[i].wall > t
    decreases |ys|
  {
    if |ys| > 1 && ys[|ys| - 1].wall > t { LatestMeans(ys[..|ys| - 1], t); }
  }

  /** An element not after t with only later elements behind it is the latest. */
  lemma PointerIsLatest(ys: seq<Known>, j: nat, t: nat)
    requires Sorted(ys) && j < |ys| && (j == 0 || ys[j].wall <= t) && (j + 1 < |ys| ==> ys[j + 1].wall > t)
    ensures j == Latest(ys, t)
  {
    LatestMeans(ys, t);
  }

  lemma NearerWins(ys: seq<Known>, j: nat, t: nat)
    requires Sorted(ys) && ys != [] && j == Latest(ys, t)
    ensures j > 0 ==> Distance(ys[j].wall, t) <= Distance(ys[j - 1].wall, t)
    ensures j > 0 ==> (ys[j - 1].wall == ys[j].wall <==> Distance(ys[j].wall, t) == Distance(ys[j - 1].wall, t))
  {
    LatestMeans(ys, t);
  }

  /** The pointer never has to go back: later x never pair with an earlier y. */
  lemma LatestIsMonotone(ys: seq<Known>, t: nat, u: nat)
    requires Sorted(ys) && ys != [] && t <= u
    ensures Latest(ys, t) <= Latest(ys, u)
  {
    LatestMeans(ys, t);
    LatestMeans(ys, u);
  }

  /** Element k is the latest at or before t, or the first if every element is later. */
  ghost predicate IsAsOf(ys: seq<Known>, t: nat, k: nat) {
    && k < |ys|
    && (ys[k].wall <= t || (k == 0 && forall i :: 0 <= i < |ys| ==> ys[i].wall > t))
    && forall i :: 0 <= i < |ys| && ys[i].wall <= t ==> i <= k
  }

  lemma LatestIsAsOf(ys: seq<Known>, t: nat)
    requires ys != [] && Sorted(ys)
    ensures IsAsOf(ys, t, Latest(ys, t))
  {
    LatestMeans(ys, t);
  }

  /** There is only one such element. */
  lemma AsOfIsUnique(ys: seq<Known>, t: nat, k: nat, l: nat)
    requires IsAsOf(ys, t, k) && IsAsOf(ys, t, l)
    ensures k == l
  {
  }

  /** The element that is paired: the as-of element k, or its neighbour in front if both have the same stamp. */
  ghost function Paired(ys: seq<Known>, k: nat): (c: nat)
    requires k < |ys|
    ensures c < |ys| && ys[c].wall == ys[k].wall
  {
    if k > 0 && ys[k - 1].wall == ys[k].wall then k - 1 else k
  }

  /**
   For sorted y stamps there is one as-of element: the latest y at or before x, or the first y if every y is later. An
   x is paired exactly when that y is within the tolerance, and then with it (of a run of equal stamps, with the last
   but one).
   */
  lemma MatchIsAsOf(x: Known, ys: seq<Known>, tol: nat)
    requires Sorted(ys)
    ensures ys == [] ==> Match(x, ys, tol) == []
    ensures ys != [] ==> exists k: nat :: IsAsOf(ys, x.wall, k)
    ensures forall k: nat :: IsAsOf(ys, x.wall, k) ==> Match(x, ys, tol) == MatchAt(x, ys, k, tol)
  {
    if ys != [] {
      LatestIsAsOf(ys, x.wall);
      assert Match(x, ys, tol) == MatchAt(x, ys, Latest(ys, x.wall), tol);
      forall k: nat | IsAsOf(ys, x.wall, k) ensures k == Latest(ys, x.wall) {
        AsOfIsUnique(ys, x.wall, k, Latest(ys, x.wall));
      }
    }
  }

  ghost function MatchAt(x: Known, ys: seq<Known>, k: nat, tol: nat): seq<(real, real)>
    requires k < |ys|
  {
    if x.wall <= ys[k].wall + tol && ys[k].wall <= x.wall + tol then [(x.value, ys[Paired(ys, k)].value)] else []
  }

  // ---------------------------------------------------------------- which samples are paired

  /** These are the places of the samples with a value, in order, and of no other. */
  ghost predicate KnownPlaces(ks: seq<int>, s: seq<Sample>) {
    && (forall i :: 0 <= i < |ks| ==> 0 <= ks[i] < |s| && s[ks[i]].value.Some?)
    && (forall i, j :: 0 <= i < j < |ks| ==> ks[i] < ks[j])
    && (forall k :: 0 <= k < |s| && s[k].value.Some? ==> k in ks)
  }

  lemma KnownPlacesGrow(ks: seq<int>, s: seq<Sample>)
    requires s != [] && KnownPlaces(ks, s[..|s| - 1])
    ensures s[|s| - 1].value.Some? ==> KnownPlaces(ks + [|s| - 1], s)
    ensures s[|s| - 1].value.None? ==> KnownPlaces(ks, s)
  {
    var init := s[..|s| - 1];
    assert forall i :: 0 <= i < |init| ==> init[i] == s[i];
    forall k | 0 <= k < |s| && s[k].value.Some? ensures k in ks + [|s| - 1] {
      if k < |init| { assert init[k].value.Some? && k in ks; }
    }
  }

  /** The join looks at exactly the samples that have a value, in order, with their stamps and values. */
  lemma {:induction false} KnownAreTheSamples(s: seq<Sample>) returns (ks: seq<int>)
    ensures KnownPlaces(ks, s) && |KnownOf(s)| == |ks|
    ensures forall i :: 0 <= i < |ks| ==>
              0 <= ks[i] < |s| && s[ks[i]].value == Some(KnownOf(s)[i].value) && s[ks[i]].wall == KnownOf(s)[i].wall
    decreases |s|
  {
    if s == [] {
      ks := [];
    } else {
      ks := KnownAreTheSamples(s[..|s| - 1]);
      KnownPlacesGrow(ks, s);
      if s[|s| - 1].value.Some? { ks := ks + [|s| - 1]; }
    }
  }

  /** These are the places of the x that find a partner, in order, and of no other. */
  ghost predicate PairedPlaces(ps: seq<int>, xs: seq<Known>, ys: seq<Known>, tol: nat) {
    && (forall i :: 0 <= i < |ps| ==> 0 <= ps[i] < |xs| && Match(xs[ps[i]], ys, tol) != [])
    && (forall i, j :: 0 <= i < j < |ps| ==> ps[i] < ps[j])
    && (forall k :: 0 <= k < |xs| && Match(xs[k], ys, tol) != [] ==> k in ps)
  }

  lemma PairedPlacesGrow(ps: seq<int>, xs: seq<Known>, ys: seq<Known>, tol: nat)
    requires xs != [] && PairedPlaces(ps, xs[..|xs| - 1], ys, tol)
    ensures Match(xs[|xs| - 1], ys, tol) != [] ==> PairedPlaces(ps + [|xs| - 1], xs, ys, tol)
    ensures Match(xs[|xs| - 1], ys, tol) == [] ==> PairedPlaces(ps, xs, ys, tol)
  {
    var init := xs[..|xs| - 1];
    assert forall i :: 0 <= i < |init| ==> init[i] == xs[i];
    forall k | 0 <= k < |xs| && Match(xs[k], ys, tol) != [] ensures k in ps + [|xs| - 1] {
      if k < |init| { assert Match(init[k], ys, tol) != [] && k in ps; }
    }
  }

  /** One pair for each of these places: its match. */
  ghost predicate PairsAt(out: seq<(real, real)>, ps: seq<int>, xs: seq<Known>, ys: seq<Known>, tol: nat) {
    && |out| == |ps|
    && forall i :: 0 <= i < |ps| ==> 0 <= ps[i] < |xs| && Match(xs[ps[i]], ys, tol) == [out[i]]
  }

  lemma PairsAtGrow(out: seq<(real, real)>, ps: seq<int>, xs: seq<Known>, ys: seq<Known>, tol: nat)
    requires xs != [] && PairsAt(out, ps, xs[..|xs| - 1], ys, tol)
    ensures PairsAt(out, ps, xs, ys, tol)
    ensures var m := Match(xs[|xs| - 1], ys, tol); m != [] ==> PairsAt(out + m, ps + [|xs| - 1], xs, ys, tol)
  {
    var init := xs[..|xs| - 1];
    assert forall i :: 0 <= i < |ps| ==> init[ps[i]] == xs[ps[i]];
  }

  /** The join is one pair for each x that finds a partner, in x order. */
  lemma {:induction false} JoinIsThePairs(xs: seq<Known>, ys: seq<Known>, tol: nat) returns (ps: seq<int>)
    ensures PairedPlaces(ps, xs, ys, tol) && PairsAt(Join(xs, ys, tol), ps, xs, ys, tol)
    decreases |xs|
  {
    if xs == [] {
      ps := [];
    } else {
      var init := xs[..|xs| - 1];
      ps := JoinIsThePairs(init, ys, tol);
      PairedPlacesGrow(ps, xs, ys, tol);
      PairsAtGrow(Join(init, ys, tol), ps, xs, ys, tol);
      if Match(xs[|xs| - 1], ys, tol) != [] {
        ps := ps + [|xs| - 1];
      } else {
        assert Join(init, ys, tol) + [] == Join(init, ys, tol);
      }
    }
  }

  /** It is not a nearest-neighbour join: the y just after x is never looked at. */
  lemma NotNearest()
    ensures Match(Known(9, 1.0), [Known(0, 2.0), Known(10, 3.0)], 9) == [(1.0, 2.0)]
  {
    var ys := [Known(0, 2.0), Known(10, 3.0)];
    assert ys[..1] == [Known(0, 2.0)];
  }
}

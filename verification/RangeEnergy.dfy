/** Energy over a wall-clock range, and how it behaves when the range is split. */
module RangeEnergy {
  import opened Common
  import opened Energy
  import opened Summary

  /** A battery point of a loaded session: monotonic seconds, its own wall stamp (0 when absent), values. */
  datatype Point = Point(t: real, wallMs: nat, discharge: Option<real>, charge: Option<real>)

  /** Wall time of a point: its own stamp, else the session base plus the monotonic time. */
  function WallOf(baseMs: nat, p: Point): nat {
    if p.wallMs > 0 then p.wallMs
    else
      var offset := (p.t * 1000.0).Floor;
      if offset < 0 then baseMs else baseMs + offset
  }

  function ToReading(p: Point): Reading {
    Reading(p.t, p.wallMs as real / 1000.0, p.discharge, p.charge)
  }

  predicate InRange(baseMs: nat, p: Point, from: nat, to: nat) {
    from <= WallOf(baseMs, p) <= to
  }

  /** The readings inside the range, in session order. */
  function Selected(baseMs: nat, ps: seq<Point>, from: nat, to: nat): seq<Reading> {
    if ps == [] then []
    else
      var p := ps[|ps| - 1];
      Selected(baseMs, ps[..|ps| - 1], from, to) + IfSelected(baseMs, p, from, to)
  }

  function IfSelected(baseMs: nat, p: Point, from: nat, to: nat): seq<Reading> {
    if InRange(baseMs, p, from, to) then [ToReading(p)] else []
  }

  /** The places of the points inside the range, and of no other, in order. */
  ghost predicate Picks(ks: seq<int>, baseMs: nat, ps: seq<Point>, from: nat, to: nat) {
    && (forall i :: 0 <= i < |ks| ==> 0 <= ks[i] < |ps| && InRange(baseMs, ps[ks[i]], from, to))
    && (forall i, j :: 0 <= i < j < |ks| ==> ks[i] < ks[j])
    && (forall k :: 0 <= k < |ps| && InRange(baseMs, ps[k], from, to) ==> k in ks)
  }

  /** The four columns hold what the points at these places hold. */
  predicate Columns(ps: seq<Point>, ks: seq<int>, times: seq<real>, walls: seq<real>,
                    discharge: seq<Option<real>>, charge: seq<Option<real>>) {
    && |times| == |walls| == |discharge| == |charge| == |ks|
    && forall i :: 0 <= i < |ks| ==>
         && 0 <= ks[i] < |ps|
         && times[i] == ps[ks[i]].t && walls[i] == ps[ks[i]].wallMs as real / 1000.0
         && discharge[i] == ps[ks[i]].discharge && charge[i] == ps[ks[i]].charge
  }

  lemma ColumnsGrow(ps: seq<Point>, ks: seq<int>, times: seq<real>, walls: seq<real>,
                    discharge: seq<Option<real>>, charge: seq<Option<real>>, k: nat)
    requires Columns(ps, ks, times, walls, discharge, charge) && k < |ps|
    ensures var p := ps[k];
            Columns(ps, ks + [k], times + [p.t], walls + [p.wallMs as real / 1000.0],
                    discharge + [p.discharge], charge + [p.charge])
  {
  }

  method BatteryClocks(baseMs: nat, ps: seq<Point>, from: nat, to: nat)
    returns (times: seq<real>, walls: seq<real>, discharge: seq<Option<real>>, charge: seq<Option<real>>,
             ghost ks: seq<int>)
    ensures Picks(ks, baseMs, ps, from, to)
    ensures Columns(ps, ks, times, walls, discharge, charge)
  {
    times, walls, discharge, charge, ks := [], [], [], [], [];
    for k := 0 to |ps|
      invariant Picks(ks, baseMs, ps[..k], from, to)
      invariant Columns(ps, ks, times, walls, discharge, charge)
    {
      PicksGrow(ks, baseMs, ps, k, from, to);
      var p := ps[k];
      if from <= WallOf(baseMs, p) <= to {
        ColumnsGrow(ps, ks, times, walls, discharge, charge, k);
        times := times + [p.t];
        walls := walls + [p.wallMs as real / 1000.0];
        discharge := discharge + [p.discharge];
        charge := charge + [p.charge];
        ks := ks + [k];
      }
    }
    assert ps[..|ps|] == ps;
  }

  lemma PicksGrow(ks: seq<int>, baseMs: nat, ps: seq<Point>, k: nat, from: nat, to: nat)
    requires k < |ps| && Picks(ks, baseMs, ps[..k], from, to)
    ensures InRange(baseMs, ps[k], from, to) ==> Picks(ks + [k], baseMs, ps[..k + 1], from, to)
    ensures !InRange(baseMs, ps[k], from, to) ==> Picks(ks, baseMs, ps[..k + 1], from, to)
  {
    assert forall i :: 0 <= i < k ==> ps[..k + 1][i] == ps[..k][i];
    forall i | 0 <= i < k + 1 && InRange(baseMs, ps[..k + 1][i], from, to) ensures i in ks + [k] {
      if i < k { assert InRange(baseMs, ps[..k][i], from, to); }
    }
  }

  predicate Within(ks: seq<int>, n: nat) { forall i :: 0 <= i < |ks| ==> 0 <= ks[i] < n }

  /** The readings at these places. */
  function At(ps: seq<Point>, ks: seq<int>): (rs: seq<Reading>)
    requires Within(ks, |ps|)
    ensures |rs| == |ks|
  {
    seq(|ks|, i requires 0 <= i < |ks| => ToReading(ps[ks[i]]))
  }

  lemma PicksInit(ks: seq<int>, baseMs: nat, ps: seq<Point>, from: nat, to: nat)
    requires ps != [] && Picks(ks, baseMs, ps, from, to)
    ensures InRange(baseMs, ps[|ps| - 1], from, to) ==>
              ks != [] && ks[|ks| - 1] == |ps| - 1 && Picks(ks[..|ks| - 1], baseMs, ps[..|ps| - 1], from, to)
    ensures !InRange(baseMs, ps[|ps| - 1], from, to) ==> Picks(ks, baseMs, ps[..|ps| - 1], from, to)
  {
    var init, n := ps[..|ps| - 1], |ps| - 1;
    assert forall i :: 0 <= i < n ==> init[i] == ps[i];
    if InRange(baseMs, ps[n], from, to) {
      var i :| 0 <= i < |ks| && ks[i] == n;
      assert i == |ks| - 1;
      forall k | 0 <= k < n && InRange(baseMs, init[k], from, to) ensures k in ks[..|ks| - 1] {
        assert InRange(baseMs, ps[k], from, to);
        var j :| 0 <= j < |ks| && ks[j] == k;
        assert ks[..|ks| - 1][j] == k;
      }
    }
  }

  lemma AtPrefix(ps: seq<Point>, ks: seq<int>, n: nat)
    requires n <= |ps| && Within(ks, n)
    ensures At(ps[..n], ks) == At(ps, ks)
  {
  }

  lemma AtSnoc(ps: seq<Point>, ks: seq<int>)
    requires ks != [] && Within(ks, |ps|)
    ensures At(ps, ks) == At(ps, ks[..|ks| - 1]) + [ToReading(ps[ks[|ks| - 1]])]
  {
  }

  lemma LastIsPicked(ks: seq<int>, baseMs: nat, ps: seq<Point>, from: nat, to: nat)
    requires ps != [] && ks != [] && Within(ks[..|ks| - 1], |ps| - 1) && ks[|ks| - 1] == |ps| - 1
    requires InRange(baseMs, ps[|ps| - 1], from, to)
    requires Selected(baseMs, ps[..|ps| - 1], from, to) == At(ps[..|ps| - 1], ks[..|ks| - 1])
    ensures Within(ks, |ps|) && Selected(baseMs, ps, from, to) == At(ps, ks)
  {
    assert forall i :: 0 <= i < |ks| - 1 ==> ks[i] == ks[..|ks| - 1][i];
    AtPrefix(ps, ks[..|ks| - 1], |ps| - 1);
    AtSnoc(ps, ks);
  }

  /** The selected readings are those of the points picked. */
  lemma {:induction false} SelectedAreThePoints(ks: seq<int>, baseMs: nat, ps: seq<Point>, from: nat, to: nat)
    requires Picks(ks, baseMs, ps, from, to)
    ensures Selected(baseMs, ps, from, to) == At(ps, ks)
    decreases |ps|
  {
    if ps == [] {
      assert |ks| == 0;
    } else {
      PicksInit(ks, baseMs, ps, from, to);
      if InRange(baseMs, ps[|ps| - 1], from, to) {
        SelectedAreThePoints(ks[..|ks| - 1], baseMs, ps[..|ps| - 1], from, to);
        LastIsPicked(ks, baseMs, ps, from, to);
      } else {
        SelectedAreThePoints(ks, baseMs, ps[..|ps| - 1], from, to);
        AtPrefix(ps, ks, |ps| - 1);
      }
    }
  }

  /** What a range query reports. */
  datatype RangeReport = RangeReport(
    dischargeWh: Option<real>, chargeWh: Option<real>, covered: real, unknown: real, unobserved: real,
    discontinuities: nat, crossesDiscontinuity: bool, dischargePresent: bool, chargePresent: bool)

  /** Energy is reported only over covered time. */
  function IfCovered(s: Segment): Option<real> { if s.coveredSecs > 0.0 then Some(s.energyWh) else None }

  /** A range query reports the reference totals of the selected readings, and which channels the points have. */
  method RangeEnergy(baseMs: nat, ps: seq<Point>, intervalMs: nat, from: nat, to: nat)
    returns (r: RangeReport, ghost ks: seq<int>)
    ensures Picks(ks, baseMs, ps, from, to) && Selected(baseMs, ps, from, to) == At(ps, ks)
    ensures var rs, rule := Selected(baseMs, ps, from, to), RuleFor(intervalMs);
            var d, c := Total(rs, Discharge, rule), Total(rs, Charge, rule);
            && (r.dischargeWh.Some? <==> d.coveredSecs > 0.0)
            && (r.chargeWh.Some? <==> c.coveredSecs > 0.0)
            && (r.dischargeWh.Some? ==> r.dischargeWh.value == d.energyWh)
            && (r.chargeWh.Some? ==> r.chargeWh.value == c.energyWh)
            && r.covered == d.coveredSecs && r.unknown == d.unknownSecs && r.unobserved == d.unobservedSecs
            && r.discontinuities == d.discontinuities && (r.crossesDiscontinuity <==> d.discontinuities != 0)
    ensures r.dischargePresent <==> exists i :: 0 <= i < |ks| && ps[ks[i]].discharge.Some?
    ensures r.chargePresent <==> exists i :: 0 <= i < |ks| && ps[ks[i]].charge.Some?
  {
    var times, walls, discharge, charge;
    times, walls, discharge, charge, ks := BatteryClocks(baseMs, ps, from, to);
    var rule := RuleFor(intervalMs);
    var d := IntegrateSegmentedClocks(times, walls, discharge, rule);
    var c := IntegrateSegmentedClocks(times, walls, charge, rule);
    ghost var rs := At(ps, ks);
    SelectedAreThePoints(ks, baseMs, ps, from, to);
    TotalReadsOneColumn(Zip(times, walls, discharge), Discharge, rs, Discharge, rule);
    TotalReadsOneColumn(Zip(times, walls, charge), Discharge, rs, Charge, rule);
    var dp := AnyPresent(discharge);
    var cp := AnyPresent(charge);
    r := RangeReport(IfCovered(d), IfCovered(c), d.coveredSecs, d.unknownSecs, d.unobservedSecs, d.discontinuities,
                     d.discontinuities > 0, dp, cp);
  }

  method AnyPresent(column: seq<Option<real>>) returns (any: bool)
    ensures any <==> exists i :: 0 <= i < |column| && column[i].Some?
  {
    any := false;
    for i := 0 to |column|
      invariant any <==> exists j :: 0 <= j < i && column[j].Some?
    {
      if column[i].Some? { any := true; }
    }
  }

  /** Where a point stands: at its own stamp, else at the base plus its monotonic time rounded down to milliseconds. */
  lemma WallOfMeans(baseMs: nat, p: Point)
    ensures p.wallMs > 0 ==> WallOf(baseMs, p) == p.wallMs
    ensures p.wallMs == 0 && p.t >= 0.0 ==> 0.0 <= baseMs as real + p.t * 1000.0 - WallOf(baseMs, p) as real < 1.0
    ensures p.wallMs == 0 && p.t < 0.0 ==> WallOf(baseMs, p) == baseMs
  {
  }

  // ---------------------------------------------------------------- a range on the points themselves

  /** Between these points, in this order, nothing forbids integration. */
  predicate AllInStep(ps: seq<Point>, ks: seq<int>, rule: Rule)
    requires Within(ks, |ps|)
  {
    forall i :: 0 < i < |ks| ==> PointsInStep(ps[ks[i - 1]], ps[ks[i]], rule)
  }

  /** Neither clock steps back or further than the gap, and they step together. */
  predicate PointsInStep(p: Point, q: Point, rule: Rule) {
    && 0.0 <= q.t - p.t <= rule.maxGap
    && (p.wallMs > 0 && q.wallMs > 0 ==>
          var wall := (q.wallMs as real - p.wallMs as real) / 1000.0;
          0.0 <= wall <= rule.maxGap && -rule.maxSkew <= wall - (q.t - p.t) <= rule.maxSkew)
  }

  lemma InStepIsUnbroken(p: Point, q: Point, rule: Rule)
    requires PointsInStep(p, q, rule)
    ensures Unbroken(ToReading(p), ToReading(q), rule)
  {
  }

  /** The discharge of these points follows a line in time. */
  predicate DischargeLine(ps: seq<Point>, ks: seq<int>, w: real, q: real)
    requires Within(ks, |ps|)
  {
    forall i :: 0 <= i < |ks| ==> ps[ks[i]].discharge == Some(Line(w, q, ps[ks[i]].t - ps[ks[0]].t))
  }

  predicate ChargeLine(ps: seq<Point>, ks: seq<int>, w: real, q: real)
    requires Within(ks, |ps|)
  {
    forall i :: 0 <= i < |ks| ==> ps[ks[i]].charge == Some(Line(w, q, ps[ks[i]].t - ps[ks[0]].t))
  }

  /** Watts along a line over an unbroken range report the area under the line, over the whole span. */
  method RangeOfALine(baseMs: nat, ps: seq<Point>, intervalMs: nat, from: nat, to: nat, w: real, q: real)
    returns (r: RangeReport, ghost ks: seq<int>)
    ensures Picks(ks, baseMs, ps, from, to)
    ensures ks != [] && AllInStep(ps, ks, RuleFor(intervalMs)) ==>
              var span := ps[ks[|ks| - 1]].t - ps[ks[0]].t;
              && !r.crossesDiscontinuity && r.unobserved == 0.0 && r.covered + r.unknown == span
              && (DischargeLine(ps, ks, w, q) && span > 0.0 ==> r.dischargeWh == Some(RampWh(w, q, span)))
              && (DischargeLine(ps, ks, w, q) ==> r.covered == span && r.dischargePresent)
              && (ChargeLine(ps, ks, w, q) && span > 0.0 ==> r.chargeWh == Some(RampWh(w, q, span)))
              && (ChargeLine(ps, ks, w, q) ==> r.chargePresent)
  {
    r, ks := RangeEnergy(baseMs, ps, intervalMs, from, to);
    if ks != [] && AllInStep(ps, ks, RuleFor(intervalMs)) { LineTotals(ps, ks, RuleFor(intervalMs), w, q); }
  }

  lemma {:induction false} UnbrokenTime(rs: seq<Reading>, c: Channel, rule: Rule)
    requires rs != [] && rule.maxSkew >= 0.0 && AllUnbroken(rs, rule)
    ensures var t := Total(rs, c, rule);
            t.coveredSecs + t.unknownSecs == Span(rs) && t.unobservedSecs == 0.0 && t.discontinuities == 0
    decreases |rs|
  {
    if |rs| >= 2 {
      var init := rs[..|rs| - 1];
      assert AllUnbroken(init, rule);
      UnbrokenTime(init, c, rule);
      assert Unbroken(rs[|rs| - 2], rs[|rs| - 1], rule);
      ClassifiedExactly(rs[|rs| - 2], rs[|rs| - 1], rule);
    }
  }

  lemma PointsAreUnbroken(ps: seq<Point>, ks: seq<int>, rule: Rule)
    requires Within(ks, |ps|) && AllInStep(ps, ks, rule)
    ensures AllUnbroken(At(ps, ks), rule)
  {
    var rs := At(ps, ks);
    forall i | 0 < i < |rs| ensures Unbroken(rs[i - 1], rs[i], rule) {
      assert PointsInStep(ps[ks[i - 1]], ps[ks[i]], rule);
      InStepIsUnbroken(ps[ks[i - 1]], ps[ks[i]], rule);
    }
  }

  lemma LinesAreRamps(ps: seq<Point>, ks: seq<int>, w: real, q: real)
    requires Within(ks, |ps|)
    ensures DischargeLine(ps, ks, w, q) ==> Ramp(At(ps, ks), Discharge, w, q)
    ensures ChargeLine(ps, ks, w, q) ==> Ramp(At(ps, ks), Charge, w, q)
  {
  }

  lemma LineTotals(ps: seq<Point>, ks: seq<int>, rule: Rule, w: real, q: real)
    requires ks != [] && Within(ks, |ps|) && rule.maxSkew >= 0.0 && AllInStep(ps, ks, rule)
    ensures var rs, span := At(ps, ks), ps[ks[|ks| - 1]].t - ps[ks[0]].t;
            var d, c := Total(rs, Discharge, rule), Total(rs, Charge, rule);
            && d.coveredSecs + d.unknownSecs == span && d.unobservedSecs == 0.0 && d.discontinuities == 0
            && (DischargeLine(ps, ks, w, q) ==> d == Segment(RampWh(w, q, span), span, 0.0, 0.0, 0))
            && (ChargeLine(ps, ks, w, q) ==> c == Segment(RampWh(w, q, span), span, 0.0, 0.0, 0))
  {
    var rs := At(ps, ks);
    PointsAreUnbroken(ps, ks, rule);
    LinesAreRamps(ps, ks, w, q);
    UnbrokenTime(rs, Discharge, rule);
    if Ramp(rs, Discharge, w, q) { RampIsIntegrated(rs, Discharge, rule, w, q); }
    if Ramp(rs, Charge, w, q) { RampIsIntegrated(rs, Charge, rule, w, q); }
  }

  // ---------------------------------------------------------------- splitting a range

  predicate WallSorted(baseMs: nat, ps: seq<Point>) {
    forall i, j :: 0 <= i < j < |ps| ==> WallOf(baseMs, ps[i]) <= WallOf(baseMs, ps[j])
  }

  predicate WallIncreasing(baseMs: nat, ps: seq<Point>) {
    forall i, j :: 0 <= i < j < |ps| ==> WallOf(baseMs, ps[i]) < WallOf(baseMs, ps[j])
  }

  lemma Regroup<T>(a: seq<T>, b: seq<T>, x: seq<T>, y: seq<T>)
    requires x == [] || (b == [] && y == [])
    ensures (a + b) + (x + y) == (a + x) + (b + y)
    ensures x == [] ==> x + y == y
    ensures y == [] ==> x + y == x
  {
  }

  /** In wall order, a range is the part up to m followed by the part after m. */
  lemma {:induction false} SelectedSplits(baseMs: nat, ps: seq<Point>, from: nat, m: nat, to: nat)
    requires WallSorted(baseMs, ps) && from <= m <= to
    ensures Selected(baseMs, ps, from, to) == Selected(baseMs, ps, from, m) + Selected(baseMs, ps, m + 1, to)
    decreases |ps|
  {
    if ps != [] {
      var init, p := ps[..|ps| - 1], ps[|ps| - 1];
      SelectedSplits(baseMs, init, from, m, to);
      if WallOf(baseMs, p) <= m { NothingAfter(baseMs, init, m, to); }
      Regroup(Selected(baseMs, init, from, m), Selected(baseMs, init, m + 1, to),
              IfSelected(baseMs, p, from, m), IfSelected(baseMs, p, m + 1, to));
    }
  }

  lemma {:induction false} NothingAfter(baseMs: nat, ps: seq<Point>, m: nat, to: nat)
    requires forall i :: 0 <= i < |ps| ==> WallOf(baseMs, ps[i]) <= m
    ensures Selected(baseMs, ps, m + 1, to) == []
    decreases |ps|
  {
    if ps != [] { NothingAfter(baseMs, ps[..|ps| - 1], m, to); }
  }

  /** Overlapping parts: the shared middle is counted twice. */
  lemma OverlapCountsTwice(l: seq<Reading>, m: seq<Reading>, b: seq<Reading>, c: Channel, rule: Rule)
    requires m != []
    ensures Plus(Total(l + m + b, c, rule), Total(m, c, rule)) == Plus(Total(l + m, c, rule), Total(m + b, c, rule))
  {
    if b == [] {
      assert l + m + b == l + m && m + b == m;
    } else {
      assert (l + m)[|l + m| - 1] == m[|m| - 1];
      TotalSplits(l + m, b, c, rule);
      TotalSplits(m, b, c, rule);
      Rearrange(Total(l + m, c, rule), Pair(m[|m| - 1], b[0], c, rule), Total(b, c, rule), Total(m, c, rule));
    }
  }

  lemma Rearrange(x: Segment, p: Segment, b: Segment, m: Segment)
    ensures Plus(Plus(Plus(x, p), b), m) == Plus(x, Plus(Plus(m, p), b))
  {
  }

  lemma SelectedAround(baseMs: nat, ps: seq<Point>, from: nat, m: nat, to: nat) returns (l: seq<Reading>)
    requires WallSorted(baseMs, ps) && from <= m <= to
    ensures Selected(baseMs, ps, from, m) == l + Selected(baseMs, ps, m, m)
    ensures Selected(baseMs, ps, m, to) == Selected(baseMs, ps, m, m) + Selected(baseMs, ps, m + 1, to)
    ensures Selected(baseMs, ps, from, to) == l + Selected(baseMs, ps, m, m) + Selected(baseMs, ps, m + 1, to)
  {
    SelectedSplits(baseMs, ps, from, m, to);
    SelectedSplits(baseMs, ps, m, m, to);
    if from < m {
      SelectedSplits(baseMs, ps, from, m - 1, m);
      l := Selected(baseMs, ps, from, m - 1);
    } else {
      l := [];
      assert l + Selected(baseMs, ps, m, m) == Selected(baseMs, ps, m, m);
    }
  }

  /**
   Splitting a wall-ordered range at a sample's wall time: the two parts add up to the whole plus the
   pairs that lie entirely on the split instant.
   */
  lemma SplitAtSample(baseMs: nat, ps: seq<Point>, from: nat, m: nat, to: nat, c: Channel, rule: Rule)
    requires WallSorted(baseMs, ps) && from <= m <= to
    requires Selected(baseMs, ps, m, m) != []
    ensures Plus(Total(Selected(baseMs, ps, from, to), c, rule), Total(Selected(baseMs, ps, m, m), c, rule))
         == Plus(Total(Selected(baseMs, ps, from, m), c, rule), Total(Selected(baseMs, ps, m, to), c, rule))
  {
    var l := SelectedAround(baseMs, ps, from, m, to);
    OverlapCountsTwice(l, Selected(baseMs, ps, m, m), Selected(baseMs, ps, m + 1, to), c, rule);
  }

  /** With strictly increasing wall stamps every component is exactly additive at a sample. */
  lemma SplitAtSampleIsAdditive(baseMs: nat, ps: seq<Point>, from: nat, k: nat, to: nat, c: Channel, rule: Rule)
    requires WallIncreasing(baseMs, ps) && k < |ps|
    requires from <= WallOf(baseMs, ps[k]) <= to
    ensures var m := WallOf(baseMs, ps[k]);
            Total(Selected(baseMs, ps, from, to), c, rule)
              == Plus(Total(Selected(baseMs, ps, from, m), c, rule), Total(Selected(baseMs, ps, m, to), c, rule))
  {
    var m := WallOf(baseMs, ps[k]);
    OnlyOneAt(baseMs, ps, k);
    SplitAtSample(baseMs, ps, from, m, to, c, rule);
    PlusAssociates(Total(Selected(baseMs, ps, from, to), c, rule), ZERO, ZERO);
  }

  lemma {:induction false} OnlyOneAt(baseMs: nat, ps: seq<Point>, k: nat)
    requires WallIncreasing(baseMs, ps) && k < |ps|
    ensures var m := WallOf(baseMs, ps[k]); Selected(baseMs, ps, m, m) == [ToReading(ps[k])]
    decreases |ps|
  {
    var m := WallOf(baseMs, ps[k]);
    var init := ps[..|ps| - 1];
    if k < |ps| - 1 {
      OnlyOneAt(baseMs, init, k);
    } else if m > 0 {
      NothingAfter(baseMs, init, m - 1, m);
    } else {
      assert init == [];
    }
  }

  /** The totals of two parts put together, with the pair across the seam if both are there. */
  function Joined(a: seq<Reading>, b: seq<Reading>, c: Channel, rule: Rule): Segment {
    var parts := Plus(Total(a, c, rule), Total(b, c, rule));
    if a == [] || b == [] then parts else Plus(parts, Pair(a[|a| - 1], b[0], c, rule))
  }

  lemma SeamIsOnePair(a: seq<Reading>, b: seq<Reading>, c: Channel, rule: Rule)
    ensures Total(a + b, c, rule) == Joined(a, b, c, rule)
  {
    if a == [] {
      assert a + b == b;
      PlusAssociates(Total(b, c, rule), ZERO, ZERO);
    } else if b == [] {
      assert a + b == a;
      PlusAssociates(Total(a, c, rule), ZERO, ZERO);
    } else {
      TotalSplits(a, b, c, rule);
      PlusSwap(Total(a, c, rule), Pair(a[|a| - 1], b[0], c, rule), Total(b, c, rule));
    }
  }

  lemma NoSampleAtSplit(baseMs: nat, ps: seq<Point>, from: nat, m: nat, to: nat)
    requires WallSorted(baseMs, ps) && from <= m <= to && Selected(baseMs, ps, m, m) == []
    ensures Selected(baseMs, ps, from, to) == Selected(baseMs, ps, from, m) + Selected(baseMs, ps, m, to)
  {
    SelectedSplits(baseMs, ps, from, m, to);
    SelectedSplits(baseMs, ps, m, m, to);
  }

  /** Splitting strictly between samples loses exactly the one pair that spans the split. */
  lemma SplitBetweenSamplesLosesOnePair(baseMs: nat, ps: seq<Point>, from: nat, m: nat, to: nat, c: Channel, rule: Rule)
    requires WallSorted(baseMs, ps) && from <= m <= to
    requires Selected(baseMs, ps, m, m) == []
    ensures Total(Selected(baseMs, ps, from, to), c, rule)
              == Joined(Selected(baseMs, ps, from, m), Selected(baseMs, ps, m, to), c, rule)
  {
    NoSampleAtSplit(baseMs, ps, from, m, to);
    SeamIsOnePair(Selected(baseMs, ps, from, m), Selected(baseMs, ps, m, to), c, rule);
  }

  lemma PlusSwap(a: Segment, p: Segment, b: Segment)
    ensures Plus(Plus(a, p), b) == Plus(Plus(a, b), p)
  {
  }
}

/**
 Dual-clock segmented energy: the step classifier, the pairwise reference definition, the batch
 integrator used by recovery and range queries, and the constant-memory live stream.
 */
module Energy {
  import opened Common

  /** One battery reading: both clocks in seconds (wall 0 means unavailable) and the two channels. */
  datatype Reading = Reading(mono: real, wall: real, discharge: Option<real>, charge: Option<real>)

  datatype Channel = Discharge | Charge

  datatype Kind = SamplingGap | WallAheadOfMono | MonoAheadOfWall | ClockWentBackwards

  /** Thresholds of the boundary rule. */
  datatype Rule = Rule(maxGap: real, maxSkew: real)

  datatype Segment = Segment(
    energyWh: real, coveredSecs: real, unknownSecs: real, unobservedSecs: real, discontinuities: nat)

  const ZERO := Segment(0.0, 0.0, 0.0, 0.0, 0)

  const MAX_CLOCK_SKEW_SECS := 2.0

  function MaxGapSecs(intervalMs: nat): real {
    RMax(intervalMs as real / 1000.0 * 3.0, 5.0)
  }

  function ClassifyStep(monoDt: real, wallDt: Option<real>, rule: Rule): Option<Kind> {
    if monoDt < 0.0 || (wallDt.Some? && wallDt.value < 0.0) then Some(ClockWentBackwards)
    else if wallDt.Some? then
      var w := wallDt.value;
      if w - monoDt > rule.maxSkew then Some(WallAheadOfMono)
      else if monoDt - w > rule.maxSkew then Some(MonoAheadOfWall)
      else if monoDt > rule.maxGap || w > rule.maxGap then Some(SamplingGap)
      else None
    else if monoDt > rule.maxGap then Some(SamplingGap)
    else None
  }

  function Index(k: Kind): nat {
    match k
    case SamplingGap => 0
    case WallAheadOfMono => 1
    case MonoAheadOfWall => 2
    case ClockWentBackwards => 3
  }

  // ---------------------------------------------------------------- reference definition

  function Watts(r: Reading, c: Channel): Option<real> {
    if c.Discharge? then r.discharge else r.charge
  }

  function WallStep(a: Reading, b: Reading): Option<real> {
    if a.wall > 0.0 && b.wall > 0.0 then Some(b.wall - a.wall) else None
  }

  /** Why the pair is a boundary, or None when it may be integrated. */
  function StepKind(a: Reading, b: Reading, rule: Rule): Option<Kind> {
    ClassifyStep(b.mono - a.mono, WallStep(a, b), rule)
  }

  /** Elapsed time a boundary refuses: the larger clock step, never negative. */
  function Unobserved(a: Reading, b: Reading): real {
    var dt := b.mono - a.mono;
    var w := WallStep(a, b);
    RMax(if w.Some? then RMax(dt, w.value) else dt, 0.0)
  }

  /** What one adjacent pair contributes to a channel. */
  function Pair(a: Reading, b: Reading, c: Channel, rule: Rule): Segment {
    var dt := b.mono - a.mono;
    if StepKind(a, b, rule).Some? then Segment(0.0, 0.0, RMax(dt, 0.0), Unobserved(a, b), 1)
    else if Watts(a, c).Some? && Watts(b, c).Some? then
      Segment(0.5 * (Watts(a, c).value + Watts(b, c).value) * dt / 3600.0, dt, 0.0, 0.0, 0)
    else Segment(0.0, 0.0, dt, 0.0, 0)
  }

  function Plus(a: Segment, b: Segment): Segment {
    Segment(a.energyWh + b.energyWh, a.coveredSecs + b.coveredSecs, a.unknownSecs + b.unknownSecs,
            a.unobservedSecs + b.unobservedSecs, a.discontinuities + b.discontinuities)
  }

  /** The reference: the sum of the contributions of all adjacent pairs. */
  function Total(rs: seq<Reading>, c: Channel, rule: Rule): Segment {
    if |rs| < 2 then ZERO
    else Plus(Total(rs[..|rs| - 1], c, rule), Pair(rs[|rs| - 2], rs[|rs| - 1], c, rule))
  }

  /** How many adjacent pairs are boundaries of kind number k. */
  function KindTally(rs: seq<Reading>, k: nat, rule: Rule): nat {
    if |rs| < 2 then 0
    else
      var step := StepKind(rs[|rs| - 2], rs[|rs| - 1], rule);
      KindTally(rs[..|rs| - 1], k, rule) + (if step.Some? && Index(step.value) == k then 1 else 0)
  }

  function KindTallies(rs: seq<Reading>, rule: Rule): seq<nat> {
    [KindTally(rs, 0, rule), KindTally(rs, 1, rule), KindTally(rs, 2, rule), KindTally(rs, 3, rule)]
  }

  /** How many readings carry a value on the channel. */
  function Known(rs: seq<Reading>, c: Channel): nat {
    if rs == [] then 0 else Known(rs[..|rs| - 1], c) + (if Watts(rs[|rs| - 1], c).Some? then 1 else 0)
  }

  /** Time the monotonic clock moved forward. */
  function ForwardTime(rs: seq<Reading>): real {
    if |rs| < 2 then 0.0
    else ForwardTime(rs[..|rs| - 1]) + RMax(rs[|rs| - 1].mono - rs[|rs| - 2].mono, 0.0)
  }

  function Bump(kinds: seq<nat>, step: Option<Kind>): seq<nat>
    requires |kinds| == 4
  {
    if step.None? then kinds else kinds[Index(step.value) := kinds[Index(step.value)] + 1]
  }

  lemma SnocTotal(rs: seq<Reading>, r: Reading, c: Channel, rule: Rule)
    requires rs != []
    ensures Total(rs + [r], c, rule) == Plus(Total(rs, c, rule), Pair(rs[|rs| - 1], r, c, rule))
  {
    assert (rs + [r])[..|rs|] == rs;
  }

  lemma SnocTallies(rs: seq<Reading>, r: Reading, rule: Rule)
    requires rs != []
    ensures KindTallies(rs + [r], rule) == Bump(KindTallies(rs, rule), StepKind(rs[|rs| - 1], r, rule))
  {
    assert (rs + [r])[..|rs|] == rs;
  }

  lemma SnocKnown(rs: seq<Reading>, r: Reading)
    ensures forall c :: Known(rs + [r], c) == Known(rs, c) + (if Watts(r, c).Some? then 1 else 0)
  {
    assert (rs + [r])[..|rs|] == rs;
  }

  // ---------------------------------------------------------------- the live stream

  /** Streaming accumulator: only the previous reading is kept. */
  class EnergyStream {
    var discharge: Segment
    var charge: Segment
    var kinds: seq<nat>
    var last: Option<Reading>
    ghost var seen: seq<Reading>

    /** The accumulators are the pairwise reference over everything pushed so far. */
    ghost predicate Valid(rule: Rule)
      reads this
    {
      && discharge == Total(seen, Discharge, rule)
      && charge == Total(seen, Charge, rule)
      && kinds == KindTallies(seen, rule)
      && last == (if seen == [] then None else Some(seen[|seen| - 1]))
    }

    constructor ()
      ensures seen == [] && forall rule :: Valid(rule)
    {
      discharge, charge, kinds, last := ZERO, ZERO, [0, 0, 0, 0], None;
      seen := [];
    }

    method Push(r: Reading, rule: Rule)
      requires Valid(rule)
      modifies this
      ensures Valid(rule) && seen == old(seen) + [r]
    {
      if last.Some? {
        SnocTallies(seen, r, rule);
        SnocTotal(seen, r, Discharge, rule);
        SnocTotal(seen, r, Charge, rule);
        PushPair(last.value, r, rule);
      }
      last := Some(r);
      seen := seen + [r];
    }

    method PushPair(prev: Reading, r: Reading, rule: Rule)
      requires |kinds| == 4
      modifies this`discharge, this`charge, this`kinds
      ensures discharge == Plus(old(discharge), Pair(prev, r, Discharge, rule))
      ensures charge == Plus(old(charge), Pair(prev, r, Charge, rule))
      ensures kinds == Bump(old(kinds), StepKind(prev, r, rule))
    {
      PushIsPair(discharge, prev, r, Discharge, rule);
      PushIsPair(charge, prev, r, Charge, rule);
      var monoDt := r.mono - prev.mono;
      var wallDt := if prev.wall > 0.0 && r.wall > 0.0 then Some(r.wall - prev.wall) else None;
      var kind := ClassifyStep(monoDt, wallDt, rule);
      if kind.Some? {
        var unknown := if monoDt > 0.0 then monoDt else 0.0;
        var unobserved := RMax(if wallDt.Some? then RMax(monoDt, wallDt.value) else monoDt, 0.0);
        discharge := Boundary(discharge, unknown, unobserved);
        charge := Boundary(charge, unknown, unobserved);
        kinds := kinds[Index(kind.value) := kinds[Index(kind.value)] + 1];
      } else {
        discharge := AddPair(discharge, monoDt, prev.discharge, r.discharge, rule.maxGap);
        charge := AddPair(charge, monoDt, prev.charge, r.charge, rule.maxGap);
      }
    }
  }

  /** One push adds exactly the reference contribution of the new pair. */
  lemma PushIsPair(seg: Segment, a: Reading, b: Reading, c: Channel, rule: Rule)
    ensures Plus(seg, Pair(a, b, c, rule)) ==
      if StepKind(a, b, rule).Some? then Boundary(seg, RMax(b.mono - a.mono, 0.0), Unobserved(a, b))
      else AddPair(seg, b.mono - a.mono, Watts(a, c), Watts(b, c), rule.maxGap)
  {
  }

  function Boundary(seg: Segment, unknown: real, unobserved: real): Segment {
    seg.(unknownSecs := seg.unknownSecs + unknown, unobservedSecs := seg.unobservedSecs + unobserved,
         discontinuities := seg.discontinuities + 1)
  }

  function AddPair(seg: Segment, dt: real, a: Option<real>, b: Option<real>, maxGap: real): Segment {
    if a.Some? && b.Some? && dt <= maxGap then
      seg.(energyWh := seg.energyWh + 0.5 * (a.value + b.value) * dt / 3600.0, coveredSecs := seg.coveredSecs + dt)
    else seg.(unknownSecs := seg.unknownSecs + dt)
  }

  // ---------------------------------------------------------------- the batch integrator

  datatype Discontinuity = Discontinuity(index: nat, kind: Kind, unobservedSecs: real)

  /** The parallel arrays of the batch integrator as readings; a column of the wrong length counts as absent. */
  function Zip(times: seq<real>, walls: seq<real>, watts: seq<Option<real>>): seq<Reading> {
    seq(|times|, i requires 0 <= i < |times| =>
      Reading(times[i],
              if |walls| == |times| then walls[i] else 0.0,
              if |watts| == |times| then watts[i] else None,
              None))
  }

  /** The boundaries of a series, in order. */
  function Boundaries(rs: seq<Reading>, rule: Rule): seq<Discontinuity> {
    if |rs| < 2 then []
    else
      var a, b := rs[|rs| - 2], rs[|rs| - 1];
      var step := StepKind(a, b, rule);
      Boundaries(rs[..|rs| - 1], rule)
        + (if step.Some? then [Discontinuity(|rs| - 2, step.value, Unobserved(a, b))] else [])
  }

  /** Deterministic scan over a series carrying both clocks. */
  method Discontinuities(times: seq<real>, walls: seq<real>, rule: Rule) returns (out: seq<Discontinuity>)
    ensures out == Boundaries(Zip(times, walls, []), rule)
  {
    var n := |times|;
    out := [];
    if n < 2 { return; }
    ghost var rs := Zip(times, walls, []);
    for i := 0 to n - 1
      invariant out == Boundaries(rs[..i + 1], rule)
    {
      assert rs[..i + 2][..i + 1] == rs[..i + 1];
      var monoDt := times[i + 1] - times[i];
      var wallDt :=
        if |walls| == n && walls[i] > 0.0 && walls[i + 1] > 0.0 then Some(walls[i + 1] - walls[i]) else None;
      var kind := ClassifyStep(monoDt, wallDt, rule);
      if kind.Some? {
        var unobserved := RMax(if wallDt.Some? then RMax(monoDt, wallDt.value) else monoDt, 0.0);
        out := out + [Discontinuity(i, kind.value, unobserved)];
      }
    }
    assert rs[..n] == rs;
  }

  /** The trapezoid rule over the first k pairs, skipping the broken ones. */
  function Trapezoids(times: seq<real>, watts: seq<Option<real>>, maxGap: real, breaks: seq<bool>, k: nat): Segment
    requires |times| == |watts| && k < |times|
  {
    if k == 0 then ZERO
    else
      var seg := Trapezoids(times, watts, maxGap, breaks, k - 1);
      var dt := times[k] - times[k - 1];
      if dt < 0.0 || (k - 1 < |breaks| && breaks[k - 1]) then
        seg.(unknownSecs := seg.unknownSecs + RMax(dt, 0.0))
      else AddPair(seg, dt, watts[k - 1], watts[k], maxGap)
  }

  method IntegratePairs(times: seq<real>, watts: seq<Option<real>>, maxGap: real, breaks: seq<bool>)
    returns (out: Segment)
    ensures out == if |times| != |watts| || |times| < 2 then ZERO
                   else Trapezoids(times, watts, maxGap, breaks, |times| - 1)
  {
    out := ZERO;
    if |times| != |watts| || |times| < 2 { return; }
    for i := 0 to |times| - 1
      invariant out == Trapezoids(times, watts, maxGap, breaks, i)
    {
      var dt := times[i + 1] - times[i];
      if dt < 0.0 || (i < |breaks| && breaks[i]) {
        if dt > 0.0 { out := out.(unknownSecs := out.unknownSecs + dt); }
      } else if watts[i].Some? && watts[i + 1].Some? && dt <= maxGap {
        out := out.(energyWh := out.energyWh + 0.5 * (watts[i].value + watts[i + 1].value) * dt / 3600.0,
                    coveredSecs := out.coveredSecs + dt);
      } else {
        out := out.(unknownSecs := out.unknownSecs + dt);
      }
    }
  }

  /** The batch integrator computes the pairwise reference. */
  method IntegrateSegmentedClocks(times: seq<real>, walls: seq<real>, watts: seq<Option<real>>, rule: Rule)
    returns (out: Segment)
    ensures |times| == |watts| ==> out == Total(Zip(times, walls, watts), Discharge, rule)
    ensures |times| != |watts| ==>
              var t := Total(Zip(times, walls, []), Discharge, rule);
              out == ZERO.(unobservedSecs := t.unobservedSecs, discontinuities := t.discontinuities)
  {
    var disc := Discontinuities(times, walls, rule);
    var breaks := seq(SatSub(|times|, 1), i => false);
    var unobserved := 0.0;
    for j := 0 to |disc|
      invariant |breaks| == SatSub(|times|, 1)
      invariant forall i :: 0 <= i < |breaks| ==> (breaks[i] <==> Marked(disc[..j], i))
      invariant unobserved == UnobservedSum(disc[..j])
    {
      assert disc[..j + 1][..j] == disc[..j];
      if disc[j].index < |breaks| { breaks := breaks[disc[j].index := true]; }
      unobserved := unobserved + disc[j].unobservedSecs;
    }
    assert disc[..|disc|] == disc;
    out := IntegratePairs(times, watts, rule.maxGap, breaks);
    out := out.(unobservedSecs := unobserved, discontinuities := |disc|);
    BatchIsTotal(times, walls, watts, rule, breaks);
    BatchIsTotal(times, walls, [], rule, breaks);
  }

  predicate Marked(disc: seq<Discontinuity>, i: nat) {
    disc != [] && (disc[|disc| - 1].index == i || Marked(disc[..|disc| - 1], i))
  }

  function UnobservedSum(disc: seq<Discontinuity>): real {
    if disc == [] then 0.0 else UnobservedSum(disc[..|disc| - 1]) + disc[|disc| - 1].unobservedSecs
  }

  /** The pair starting at reading i is a boundary. */
  predicate Breaks(rs: seq<Reading>, i: nat, rule: Rule) {
    i + 1 < |rs| && StepKind(rs[i], rs[i + 1], rule).Some?
  }

  lemma {:induction false} BoundariesMark(rs: seq<Reading>, rule: Rule, i: nat)
    ensures Marked(Boundaries(rs, rule), i) <==> Breaks(rs, i, rule)
    decreases |rs|
  {
    if |rs| >= 2 {
      BoundariesMark(rs[..|rs| - 1], rule, i);
      var d := Boundaries(rs, rule);
      if StepKind(rs[|rs| - 2], rs[|rs| - 1], rule).Some? {
        assert d[..|d| - 1] == Boundaries(rs[..|rs| - 1], rule);
      } else {
        assert d == Boundaries(rs[..|rs| - 1], rule);
      }
    }
  }

  lemma {:induction false} BoundariesAccount(rs: seq<Reading>, c: Channel, rule: Rule)
    ensures UnobservedSum(Boundaries(rs, rule)) == Total(rs, c, rule).unobservedSecs
    ensures |Boundaries(rs, rule)| == Total(rs, c, rule).discontinuities
    decreases |rs|
  {
    if |rs| >= 2 {
      BoundariesAccount(rs[..|rs| - 1], c, rule);
      var d := Boundaries(rs, rule);
      if StepKind(rs[|rs| - 2], rs[|rs| - 1], rule).Some? {
        assert d[..|d| - 1] == Boundaries(rs[..|rs| - 1], rule);
      } else {
        assert d == Boundaries(rs[..|rs| - 1], rule);
      }
    }
  }

  /** The part of a segment the trapezoid loop computes. */
  function Integrated(t: Segment): Segment {
    t.(unobservedSecs := 0.0, discontinuities := 0)
  }

  lemma TrapezoidIsPair(seg: Segment, a: Reading, b: Reading, rule: Rule)
    ensures Integrated(Plus(seg, Pair(a, b, Discharge, rule))) ==
      if StepKind(a, b, rule).Some? then
        Integrated(seg).(unknownSecs := seg.unknownSecs + RMax(b.mono - a.mono, 0.0))
      else AddPair(Integrated(seg), b.mono - a.mono, a.discharge, b.discharge, rule.maxGap)
  {
    if StepKind(a, b, rule).None? {
      ContinuousPairIsInRange(a, b, rule);
      if a.discharge.Some? && b.discharge.Some? {
        AddsTrapezoid(seg, Pair(a, b, Discharge, rule), a.discharge, b.discharge, b.mono - a.mono, rule.maxGap);
      }
    }
  }

  lemma AddsTrapezoid(seg: Segment, p: Segment, a: Option<real>, b: Option<real>, dt: real, maxGap: real)
    requires a.Some? && b.Some? && dt <= maxGap
    requires p == Segment(0.5 * (a.value + b.value) * dt / 3600.0, dt, 0.0, 0.0, 0)
    ensures Integrated(Plus(seg, p)) == AddPair(Integrated(seg), dt, a, b, maxGap)
  {
  }

  /** Times and watts are the columns of the readings. */
  ghost predicate Columns(rs: seq<Reading>, times: seq<real>, watts: seq<Option<real>>) {
    && |rs| == |times| == |watts|
    && forall i :: 0 <= i < |times| ==> rs[i].mono == times[i] && rs[i].discharge == watts[i]
  }

  ghost predicate MarksBreaks(rs: seq<Reading>, breaks: seq<bool>, rule: Rule) {
    forall i :: 0 <= i < |breaks| ==> (breaks[i] <==> Breaks(rs, i, rule))
  }

  lemma TrapezoidsStep(rs: seq<Reading>, times: seq<real>, watts: seq<Option<real>>, rule: Rule, breaks: seq<bool>,
                       k: nat, seg: Segment)
    requires Columns(rs, times, watts) && MarksBreaks(rs, breaks, rule) && |breaks| == |times| - 1 && 0 < k < |times|
    requires Trapezoids(times, watts, rule.maxGap, breaks, k - 1) == Integrated(seg)
    ensures Trapezoids(times, watts, rule.maxGap, breaks, k)
              == Integrated(Plus(seg, Pair(rs[k - 1], rs[k], Discharge, rule)))
  {
    TrapezoidIsPair(seg, rs[k - 1], rs[k], rule);
    assert breaks[k - 1] <==> Breaks(rs, k - 1, rule);
    if StepKind(rs[k - 1], rs[k], rule).None? { ContinuousPairIsInRange(rs[k - 1], rs[k], rule); }
  }

  lemma TotalStep(rs: seq<Reading>, c: Channel, rule: Rule, k: nat)
    requires 0 < k < |rs|
    ensures Total(rs[..k + 1], c, rule) == Plus(Total(rs[..k], c, rule), Pair(rs[k - 1], rs[k], c, rule))
  {
    assert rs[..k + 1][..k] == rs[..k];
  }

  lemma {:induction false} TrapezoidsAreTotal(rs: seq<Reading>, times: seq<real>, watts: seq<Option<real>>, rule: Rule,
                                              breaks: seq<bool>, k: nat)
    requires Columns(rs, times, watts) && MarksBreaks(rs, breaks, rule) && |breaks| == |times| - 1 && k < |times|
    ensures Trapezoids(times, watts, rule.maxGap, breaks, k) == Integrated(Total(rs[..k + 1], Discharge, rule))
  {
    if k > 0 {
      TrapezoidsAreTotal(rs, times, watts, rule, breaks, k - 1);
      TotalStep(rs, Discharge, rule, k);
      TrapezoidsStep(rs, times, watts, rule, breaks, k, Total(rs[..k], Discharge, rule));
    }
  }

  lemma TrapezoidsOfColumns(times: seq<real>, walls: seq<real>, watts: seq<Option<real>>, rule: Rule, breaks: seq<bool>)
    requires |times| == |watts| >= 2 && |breaks| == |times| - 1
    requires MarksBreaks(Zip(times, walls, watts), breaks, rule)
    ensures Trapezoids(times, watts, rule.maxGap, breaks, |times| - 1)
              == Integrated(Total(Zip(times, walls, watts), Discharge, rule))
  {
    ZipColumns(times, walls, watts);
    TrapezoidsAreWhole(Zip(times, walls, watts), times, watts, rule, breaks);
  }

  lemma TrapezoidsAreWhole(rs: seq<Reading>, times: seq<real>, watts: seq<Option<real>>, rule: Rule, breaks: seq<bool>)
    requires Columns(rs, times, watts) && MarksBreaks(rs, breaks, rule) && |breaks| == |times| - 1
    ensures Trapezoids(times, watts, rule.maxGap, breaks, |times| - 1) == Integrated(Total(rs, Discharge, rule))
  {
    TrapezoidsAreTotal(rs, times, watts, rule, breaks, |times| - 1);
    assert rs[..|times|] == rs;
  }

  lemma ZipColumns(times: seq<real>, walls: seq<real>, watts: seq<Option<real>>)
    requires |times| == |watts|
    ensures Columns(Zip(times, walls, watts), times, watts)
  {
  }

  lemma BreaksOfBoundaries(rs: seq<Reading>, breaks: seq<bool>, rule: Rule)
    requires forall i :: 0 <= i < |breaks| ==> (breaks[i] <==> Marked(Boundaries(rs, rule), i))
    ensures MarksBreaks(rs, breaks, rule)
  {
    forall i | 0 <= i < |breaks| ensures breaks[i] <==> Breaks(rs, i, rule) {
      BoundariesMark(rs, rule, i);
    }
  }

  lemma BatchIsTotal(times: seq<real>, walls: seq<real>, watts: seq<Option<real>>, rule: Rule, breaks: seq<bool>)
    requires |breaks| == SatSub(|times|, 1)
    requires forall i :: 0 <= i < |breaks| ==> (breaks[i] <==> Marked(Boundaries(Zip(times, walls, []), rule), i))
    ensures var d := Boundaries(Zip(times, walls, []), rule);
            var t := Total(Zip(times, walls, watts), Discharge, rule);
            && UnobservedSum(d) == t.unobservedSecs && |d| == t.discontinuities
            && (|times| == |watts| && |times| >= 2 ==>
                  Trapezoids(times, watts, rule.maxGap, breaks, |times| - 1) == Integrated(t))
  {
    var full := Zip(times, walls, watts);
    SameClocksSameBoundaries(Zip(times, walls, []), full, rule);
    BoundariesAccount(full, Discharge, rule);
    BreaksOfBoundaries(full, breaks, rule);
    if |times| == |watts| && |times| >= 2 { TrapezoidsOfColumns(times, walls, watts, rule, breaks); }
  }

  /** Boundaries depend on the clocks alone, never on the readings. */
  lemma {:induction false} SameClocksSameBoundaries(a: seq<Reading>, b: seq<Reading>, rule: Rule)
    requires |a| == |b| && forall i :: 0 <= i < |a| ==> a[i].mono == b[i].mono && a[i].wall == b[i].wall
    ensures Boundaries(a, rule) == Boundaries(b, rule)
    decreases |a|
  {
    if |a| >= 2 { SameClocksSameBoundaries(a[..|a| - 1], b[..|b| - 1], rule); }
  }

  // ---------------------------------------------------------------- conservation

  /** An integrated pair moves forward by at most the gap, so the gap guard of the pair rule never acts. */
  lemma ContinuousPairIsInRange(a: Reading, b: Reading, rule: Rule)
    requires StepKind(a, b, rule).None?
    ensures 0.0 <= b.mono - a.mono <= rule.maxGap
    ensures WallStep(a, b).Some? ==>
              && -rule.maxSkew <= WallStep(a, b).value - (b.mono - a.mono) <= rule.maxSkew
              && WallStep(a, b).value <= rule.maxGap
  {
  }

  /** Covered and unknown time together are exactly the forward monotonic time. */
  lemma {:induction false} TimeIsConserved(rs: seq<Reading>, c: Channel, rule: Rule)
    ensures var t := Total(rs, c, rule);
            && t.coveredSecs + t.unknownSecs == ForwardTime(rs)
            && t.coveredSecs >= 0.0 && t.unknownSecs >= 0.0 && t.unobservedSecs >= 0.0
    decreases |rs|
  {
    if |rs| >= 2 { TimeIsConserved(rs[..|rs| - 1], c, rule); }
  }

  /** Every boundary is tallied once, under one kind, on both channels alike. */
  lemma {:induction false} BoundariesAreTallied(rs: seq<Reading>, rule: Rule)
    ensures Total(rs, Discharge, rule).discontinuities == Total(rs, Charge, rule).discontinuities
    ensures var k := KindTallies(rs, rule); Total(rs, Discharge, rule).discontinuities == k[0] + k[1] + k[2] + k[3]
    ensures Total(rs, Discharge, rule).unobservedSecs == Total(rs, Charge, rule).unobservedSecs
    decreases |rs|
  {
    if |rs| >= 2 { BoundariesAreTallied(rs[..|rs| - 1], rule); }
  }

  /** A boundary step changes neither energy nor coverage. */
  lemma BoundaryAddsNoEnergy(rs: seq<Reading>, r: Reading, c: Channel, rule: Rule)
    requires rs != [] && StepKind(rs[|rs| - 1], r, rule).Some?
    ensures Total(rs + [r], c, rule).energyWh == Total(rs, c, rule).energyWh
    ensures Total(rs + [r], c, rule).coveredSecs == Total(rs, c, rule).coveredSecs
    ensures Total(rs + [r], c, rule).discontinuities == Total(rs, c, rule).discontinuities + 1
  {
    SnocTotal(rs, r, c, rule);
  }

  predicate WithinWatts(rs: seq<Reading>, c: Channel, w: real) {
    forall i :: 0 <= i < |rs| && Watts(rs[i], c).Some? ==> 0.0 <= Watts(rs[i], c).value <= w
  }

  lemma MeanTimesStep(a: real, b: real, dt: real, w: real)
    requires 0.0 <= a <= w && 0.0 <= b <= w && dt >= 0.0
    ensures 0.0 <= 0.5 * (a + b) * dt <= w * dt
  {
    var m := 0.5 * (a + b);
    assert 0.0 <= m <= w;
    assert (w - m) * dt >= 0.0;
  }

  /** The segment's energy is what readings in [0, w] allow over its covered time. */
  predicate Bounded(seg: Segment, w: real) {
    0.0 <= seg.energyWh && seg.energyWh * 3600.0 <= w * seg.coveredSecs
  }

  /** Readings in [0, w] give energy in [0, w * covered / 3600]. */
  lemma {:induction false} EnergyIsBounded(rs: seq<Reading>, c: Channel, rule: Rule, w: real)
    requires WithinWatts(rs, c, w)
    ensures Bounded(Total(rs, c, rule), w)
    decreases |rs|
  {
    if |rs| >= 2 {
      var init := rs[..|rs| - 1];
      assert WithinWatts(init, c, w);
      PairEnergyIsBounded(rs[|rs| - 2], rs[|rs| - 1], c, rule, w);
      EnergyIsBounded(init, c, rule, w);
      AddBounds(Total(init, c, rule), Pair(rs[|rs| - 2], rs[|rs| - 1], c, rule), w);
    } else {
      assert Bounded(ZERO, w);
    }
  }

  lemma TrapezoidIsBounded(seg: Segment, x: real, y: real, dt: real, w: real)
    requires 0.0 <= x <= w && 0.0 <= y <= w && dt >= 0.0
    requires seg.energyWh == 0.5 * (x + y) * dt / 3600.0 && seg.coveredSecs == dt
    ensures Bounded(seg, w)
  {
    MeanTimesStep(x, y, dt, w);
  }

  lemma PairEnergyIsBounded(a: Reading, b: Reading, c: Channel, rule: Rule, w: real)
    requires Watts(a, c).Some? ==> 0.0 <= Watts(a, c).value <= w
    requires Watts(b, c).Some? ==> 0.0 <= Watts(b, c).value <= w
    ensures Bounded(Pair(a, b, c, rule), w)
  {
    if StepKind(a, b, rule).None? && Watts(a, c).Some? && Watts(b, c).Some? {
      TrapezoidIsBounded(Pair(a, b, c, rule), Watts(a, c).value, Watts(b, c).value, b.mono - a.mono, w);
    }
  }

  lemma AddBounds(s: Segment, p: Segment, w: real)
    requires Bounded(s, w) && Bounded(p, w)
    ensures Bounded(Plus(s, p), w)
  {
    assert w * (s.coveredSecs + p.coveredSecs) == w * s.coveredSecs + w * p.coveredSecs;
  }

  /** Two series with the same clocks and the same column give the same totals, whatever the other column holds. */
  lemma {:induction false} TotalReadsOneColumn(a: seq<Reading>, ca: Channel, b: seq<Reading>, cb: Channel, rule: Rule)
    requires |a| == |b|
    requires forall i :: 0 <= i < |a| ==>
               a[i].mono == b[i].mono && a[i].wall == b[i].wall && Watts(a[i], ca) == Watts(b[i], cb)
    ensures Total(a, ca, rule) == Total(b, cb, rule)
    decreases |a|
  {
    if |a| >= 2 {
      TotalReadsOneColumn(a[..|a| - 1], ca, b[..|b| - 1], cb, rule);
      PairReadsOneColumn(a[|a| - 2], a[|a| - 1], ca, b[|b| - 2], b[|b| - 1], cb, rule);
    }
  }

  lemma PairReadsOneColumn(a: Reading, a': Reading, ca: Channel, b: Reading, b': Reading, cb: Channel, rule: Rule)
    requires a.mono == b.mono && a.wall == b.wall && Watts(a, ca) == Watts(b, cb)
    requires a'.mono == b'.mono && a'.wall == b'.wall && Watts(a', ca) == Watts(b', cb)
    ensures Pair(a, a', ca, rule) == Pair(b, b', cb, rule)
  {
  }

  lemma PlusAssociates(a: Segment, b: Segment, c: Segment)
    ensures Plus(Plus(a, b), c) == Plus(a, Plus(b, c))
    ensures Plus(a, ZERO) == a && Plus(ZERO, a) == a
  {
  }

  /** The totals of a concatenation: the pair across the seam is the only thing the parts miss. */
  lemma {:induction false} TotalSplits(a: seq<Reading>, b: seq<Reading>, c: Channel, rule: Rule)
    requires a != [] && b != []
    ensures Total(a + b, c, rule) == Plus(Plus(Total(a, c, rule), Pair(a[|a| - 1], b[0], c, rule)), Total(b, c, rule))
    decreases |b|
  {
    var init, x := b[..|b| - 1], b[|b| - 1];
    assert a + b == (a + init) + [x];
    if init == [] {
      assert a + init == a && b == [x];
      SnocTotal(a, x, c, rule);
      PlusAssociates(Plus(Total(a, c, rule), Pair(a[|a| - 1], x, c, rule)), ZERO, ZERO);
    } else {
      assert b == init + [x] && (a + init)[|a + init| - 1] == init[|init| - 1];
      SnocTotal(a + init, x, c, rule);
      SnocTotal(init, x, c, rule);
      TotalSplits(a, init, c, rule);
      PlusAssociates(Plus(Total(a, c, rule), Pair(a[|a| - 1], b[0], c, rule)),
                     Total(init, c, rule), Pair(init[|init| - 1], x, c, rule));
    }
  }

  // ---------------------------------------------------------------- what is integrated, on the clocks themselves

  /** Both readings carry a wall stamp. */
  predicate Stamped(a: Reading, b: Reading) { a.wall > 0.0 && b.wall > 0.0 }

  /** No clock steps back. */
  predicate Forward(a: Reading, b: Reading) { a.mono <= b.mono && (Stamped(a, b) ==> a.wall <= b.wall) }

  /** No clock steps further than the gap. */
  predicate Near(a: Reading, b: Reading, rule: Rule) {
    b.mono <= a.mono + rule.maxGap && (Stamped(a, b) ==> b.wall <= a.wall + rule.maxGap)
  }

  /** By how much the wall clock gained on the monotonic one. */
  function Drift(a: Reading, b: Reading): real { (b.wall - b.mono) - (a.wall - a.mono) }

  predicate InStep(a: Reading, b: Reading, rule: Rule) {
    Stamped(a, b) ==> -rule.maxSkew <= Drift(a, b) <= rule.maxSkew
  }

  /** The pair may be integrated. */
  predicate Unbroken(a: Reading, b: Reading, rule: Rule) { Forward(a, b) && Near(a, b, rule) && InStep(a, b, rule) }

  /** What a broken pair is called. */
  predicate Called(a: Reading, b: Reading, k: Kind, rule: Rule) {
    match k
    case SamplingGap => Forward(a, b) && InStep(a, b, rule) && !Near(a, b, rule)
    case WallAheadOfMono => Forward(a, b) && Stamped(a, b) && Drift(a, b) > rule.maxSkew
    case MonoAheadOfWall => Forward(a, b) && Stamped(a, b) && Drift(a, b) < -rule.maxSkew
    case ClockWentBackwards => !Forward(a, b)
  }

  /** The classifier, both ways, for each of its answers. */
  lemma ClassifiedExactly(a: Reading, b: Reading, rule: Rule)
    requires rule.maxSkew >= 0.0
    ensures StepKind(a, b, rule) == None <==> Unbroken(a, b, rule)
    ensures forall k :: StepKind(a, b, rule) == Some(k) <==> Called(a, b, k, rule)
  {
  }

  predicate AllUnbroken(rs: seq<Reading>, rule: Rule) {
    forall i :: 0 < i < |rs| ==> Unbroken(rs[i - 1], rs[i], rule)
  }

  /** The time from the first reading to the last. */
  function Span(rs: seq<Reading>): real
    requires rs != []
  {
    rs[|rs| - 1].mono - rs[0].mono
  }

  /** w watts, rising by q watts a second, after t seconds. */
  function Line(w: real, q: real, t: real): real { w + q * t }

  /** The channel follows that line from the first reading on. */
  predicate Ramp(rs: seq<Reading>, c: Channel, w: real, q: real) {
    forall i :: 0 <= i < |rs| ==> Watts(rs[i], c) == Some(Line(w, q, rs[i].mono - rs[0].mono))
  }

  /** The area under the line: its power half way, over the span. */
  function RampWh(w: real, q: real, span: real): real { (w + q * span / 2.0) * span / 3600.0 }

  /**
   Integration is exact on a ramp: an unbroken series whose power is linear in time is all covered, and its energy is
   the area under the line.
   */
  lemma {:induction false} RampIsIntegrated(rs: seq<Reading>, c: Channel, rule: Rule, w: real, q: real)
    requires rs != [] && rule.maxSkew >= 0.0 && AllUnbroken(rs, rule) && Ramp(rs, c, w, q)
    ensures Total(rs, c, rule) == Segment(RampWh(w, q, Span(rs)), Span(rs), 0.0, 0.0, 0)
    decreases |rs|
  {
    if |rs| >= 2 {
      var init, a, b := rs[..|rs| - 1], rs[|rs| - 2], rs[|rs| - 1];
      assert AllUnbroken(init, rule) && Ramp(init, c, w, q);
      RampIsIntegrated(init, c, rule, w, q);
      assert Unbroken(a, b, rule);
      ClassifiedExactly(a, b, rule);
      RampPair(a, b, c, rule, rs[0].mono, w, q);
    }
  }

  lemma RampPair(a: Reading, b: Reading, c: Channel, rule: Rule, start: real, w: real, q: real)
    requires StepKind(a, b, rule).None?
    requires Watts(a, c) == Some(Line(w, q, a.mono - start)) && Watts(b, c) == Some(Line(w, q, b.mono - start))
    ensures var s, t := a.mono - start, b.mono - start;
            Pair(a, b, c, rule) == Segment(RampWh(w, q, t) - RampWh(w, q, s), t - s, 0.0, 0.0, 0)
  {
    RampGrows(w, q, a.mono - start, b.mono - start, Pair(a, b, c, rule).energyWh);
  }

  lemma RampGrows(w: real, q: real, s: real, t: real, e: real)
    requires e == 0.5 * (Line(w, q, s) + Line(w, q, t)) * (t - s) / 3600.0
    ensures RampWh(w, q, s) + e == RampWh(w, q, t)
  {
    assert ((w + q * s) + (w + q * t)) * (t - s) == 2.0 * w * (t - s) + q * (t * t - s * s);
  }

  /** Where no two neighbours both have a value on the channel, all time is unknown. */
  lemma {:induction false} SilenceIsUnknown(rs: seq<Reading>, c: Channel, rule: Rule)
    requires rs != [] && rule.maxSkew >= 0.0 && AllUnbroken(rs, rule)
    requires forall i :: 0 < i < |rs| ==> Watts(rs[i - 1], c) == None || Watts(rs[i], c) == None
    ensures Total(rs, c, rule) == Segment(0.0, 0.0, Span(rs), 0.0, 0)
    decreases |rs|
  {
    if |rs| >= 2 {
      var init := rs[..|rs| - 1];
      assert AllUnbroken(init, rule);
      SilenceIsUnknown(init, c, rule);
      assert Unbroken(rs[|rs| - 2], rs[|rs| - 1], rule);
      ClassifiedExactly(rs[|rs| - 2], rs[|rs| - 1], rule);
    }
  }

  predicate BrokenAt(rs: seq<Reading>, i: int, rule: Rule)
    requires 0 < i < |rs|
  {
    !Unbroken(rs[i - 1], rs[i], rule)
  }

  /** The steps among the first n readings that may not be integrated, each by the index of its later reading. */
  ghost function BrokenSteps(rs: seq<Reading>, n: nat, rule: Rule): set<int>
    requires n <= |rs|
  {
    set i | 0 < i < n && BrokenAt(rs, i, rule)
  }

  lemma BrokenStepsGrow(rs: seq<Reading>, n: nat, rule: Rule)
    requires 0 < n < |rs|
    ensures |BrokenSteps(rs, n + 1, rule)| == |BrokenSteps(rs, n, rule)| + (if BrokenAt(rs, n, rule) then 1 else 0)
  {
    assert BrokenSteps(rs, n + 1, rule) == BrokenSteps(rs, n, rule) + (if BrokenAt(rs, n, rule) then {n} else {});
  }

  /** Every broken step is one discontinuity, and there is no other. */
  lemma {:induction false} DiscontinuitiesAreBrokenSteps(rs: seq<Reading>, n: nat, c: Channel, rule: Rule)
    requires rule.maxSkew >= 0.0 && n <= |rs|
    ensures Total(rs[..n], c, rule).discontinuities == |BrokenSteps(rs, n, rule)|
  {
    if n >= 2 {
      DiscontinuitiesAreBrokenSteps(rs, n - 1, c, rule);
      BrokenStepsGrow(rs, n - 1, rule);
      ClassifiedExactly(rs[n - 2], rs[n - 1], rule);
      assert rs[..n][..n - 1] == rs[..n - 1];
    } else {
      assert BrokenSteps(rs, n, rule) == {};
    }
  }

  predicate CalledAt(rs: seq<Reading>, i: int, k: Kind, rule: Rule)
    requires 0 < i < |rs|
  {
    Called(rs[i - 1], rs[i], k, rule)
  }

  ghost function StepsCalled(rs: seq<Reading>, n: nat, k: Kind, rule: Rule): set<int>
    requires n <= |rs|
  {
    set i | 0 < i < n && CalledAt(rs, i, k, rule)
  }

  lemma StepsCalledGrow(rs: seq<Reading>, n: nat, k: Kind, rule: Rule)
    requires 0 < n < |rs|
    ensures |StepsCalled(rs, n + 1, k, rule)|
         == |StepsCalled(rs, n, k, rule)| + (if CalledAt(rs, n, k, rule) then 1 else 0)
  {
    assert StepsCalled(rs, n + 1, k, rule)
        == StepsCalled(rs, n, k, rule) + (if CalledAt(rs, n, k, rule) then {n} else {});
  }

  /** The place of each kind in the tallies. */
  predicate IsPlaceOf(k: nat, kind: Kind) {
    (k, kind) in [(0, SamplingGap), (1, WallAheadOfMono), (2, MonoAheadOfWall), (3, ClockWentBackwards)]
  }

  lemma PlaceIsIndex(k: nat, kind: Kind, other: Kind)
    requires IsPlaceOf(k, kind)
    ensures Index(other) == k <==> other == kind
  {
  }

  /** The tally at the place of a kind counts the steps that are called so, by their clocks. */
  lemma {:induction false} TallyIsStepsCalled(rs: seq<Reading>, n: nat, k: nat, kind: Kind, rule: Rule)
    requires rule.maxSkew >= 0.0 && n <= |rs| && IsPlaceOf(k, kind)
    ensures KindTally(rs[..n], k, rule) == |StepsCalled(rs, n, kind, rule)|
  {
    if n >= 2 {
      TallyIsStepsCalled(rs, n - 1, k, kind, rule);
      StepsCalledGrow(rs, n - 1, kind, rule);
      ClassifiedExactly(rs[n - 2], rs[n - 1], rule);
      var step := StepKind(rs[n - 2], rs[n - 1], rule);
      if step.Some? { PlaceIsIndex(k, kind, step.value); }
      assert rs[..n][..n - 1] == rs[..n - 1];
    } else {
      assert StepsCalled(rs, n, kind, rule) == {};
    }
  }

  /** A broken pair hides the larger of its two clock steps, and counts its forward monotonic time as unknown. */
  lemma BrokenPairHidesTheLargerStep(a: Reading, b: Reading, c: Channel, rule: Rule)
    requires rule.maxSkew >= 0.0 && !Unbroken(a, b, rule)
    ensures var p := Pair(a, b, c, rule);
            && p.unobservedSecs >= 0.0 && p.unobservedSecs >= b.mono - a.mono
            && (Stamped(a, b) ==> p.unobservedSecs >= b.wall - a.wall)
            && (|| p.unobservedSecs == 0.0 || p.unobservedSecs == b.mono - a.mono
                || (Stamped(a, b) && p.unobservedSecs == b.wall - a.wall))
            && p.unknownSecs >= 0.0 && p.unknownSecs >= b.mono - a.mono
            && (p.unknownSecs == 0.0 || p.unknownSecs == b.mono - a.mono)
  {
    ClassifiedExactly(a, b, rule);
  }
}

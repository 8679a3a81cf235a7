/** What a reader of the rebuilt footer finds in it: the summary read back key by key. */
module Footers {
  import opened Common
  import opened Energy
  import opened Extended
  import opened Json
  import opened Numbers
  import opened Records
  import opened Report
  import opened Summary

  // ---------------------------------------------------------------- what the summary has to say

  /** The member is a number, and it is x rounded to a multiple of 1/scale. */
  ghost predicate Says(s: JVal, key: string, x: real, scale: real) {
    NumAt(s, key).Some? && RoundsTo(NumAt(s, key).value, x, scale)
  }

  predicate SaysCount(s: JVal, key: string, n: nat) { NumAt(s, key) == Some(n as real) }

  predicate SaysNothing(s: JVal, key: string) { Get(s, key) == Some(Null) }

  /** The energy of a segment to four places, or null if none of its time is covered. */
  ghost predicate SaysEnergy(s: JVal, key: string, t: Segment) {
    if t.coveredSecs > 0.0 then Says(s, key, t.energyWh, 10000.0) else SaysNothing(s, key)
  }

  /** The covered share of a segment in percent to one place, or null if it has no time. */
  ghost predicate SaysCoverage(s: JVal, key: string, t: Segment) {
    var span := t.coveredSecs + t.unknownSecs;
    if span > 0.0 then Says(s, key, t.coveredSecs / span * 100.0, 10.0) else SaysNothing(s, key)
  }

  /** The discharge readings, in order. */
  function DischargeWatts(rs: seq<Reading>): seq<real> {
    if rs == [] then []
    else
      var w := rs[|rs| - 1].discharge;
      DischargeWatts(rs[..|rs| - 1]) + (if w.Some? then [w.value] else [])
  }

  ghost predicate SortedFrom(t: seq<real>, xs: seq<real>) { SortedReals(t) && multiset(t) == multiset(xs) }

  /** The middle of the sorted discharge readings to three places, or null if there is none. */
  ghost predicate SaysMedian(s: JVal, key: string, rs: seq<Reading>) {
    if DischargeWatts(rs) == [] then SaysNothing(s, key)
    else exists t :: SortedFrom(t, DischargeWatts(rs)) && t != [] && Says(s, key, Middle(t), 1000.0)
  }

  /** The number of broken steps of each kind, by its name. */
  ghost predicate SaysKinds(s: JVal, key: string, rs: seq<Reading>, rule: Rule) {
    && Get(s, key).Some?
    && var k := Get(s, key).value;
       && SaysCount(k, "sampling_gap", |StepsCalled(rs, |rs|, SamplingGap, rule)|)
       && SaysCount(k, "wall_ahead_of_mono", |StepsCalled(rs, |rs|, WallAheadOfMono, rule)|)
       && SaysCount(k, "mono_ahead_of_wall", |StepsCalled(rs, |rs|, MonoAheadOfWall, rule)|)
       && SaysCount(k, "clock_went_backwards", |StepsCalled(rs, |rs|, ClockWentBackwards, rule)|)
  }

  /** Everything a summary says about the readings. */
  ghost predicate Tells(s: JVal, rs: seq<Reading>, rule: Rule) {
    var d, c := Total(rs, Discharge, rule), Total(rs, Charge, rule);
    && SaysCount(s, "samples", |rs|)
    && SaysCount(s, "discharge_n", |DischargeReadings(rs, |rs|)|)
    && SaysCount(s, "charge_n", |ChargeReadings(rs, |rs|)|)
    && SaysMedian(s, "discharge_median_w", rs)
    && SaysEnergy(s, "discharge_wh", d) && SaysEnergy(s, "charge_wh", c)
    && SaysCoverage(s, "discharge_coverage_pct", d) && SaysCoverage(s, "charge_coverage_pct", c)
    && Says(s, "discharge_unknown_s", d.unknownSecs, 1.0)
    && Says(s, "discharge_unobserved_s", d.unobservedSecs, 1.0)
    && SaysCount(s, "discharge_discontinuities", |BrokenSteps(rs, |rs|, rule)|)
    && SaysKinds(s, "discharge_discontinuity_kinds", rs, rule)
    && Get(s, "recovered") == Some(Bool(true))
  }

  // ---------------------------------------------------------------- reading the fields

  lemma CountsFields(rs: seq<ExtReading>, f: ExtFooter)
    ensures var ps := Counts(rs, f);
            && Find(ps, "samples") == Some(Nat(|rs|)) && Find(ps, "discharge_n") == Some(Nat(f.dischargeN))
            && Find(ps, "charge_n") == Some(Nat(f.chargeN))
  {
    FindAt(Counts(rs, f), 0);
    FindAt(Counts(rs, f), 1);
    FindAt(Counts(rs, f), 2);
  }

  lemma ChannelFields(median: Option<Ext>, d: ExtSegment, c: ExtSegment)
    ensures var ps := Channels(median, d, c);
            && Find(ps, "discharge_median_w") == Some(OrNull(median, 3))
            && Find(ps, "discharge_wh") == Some(OrNull(EnergyOf(d), 4))
            && Find(ps, "charge_wh") == Some(OrNull(EnergyOf(c), 4))
            && Find(ps, "discharge_coverage_pct") == Some(OrNull(CoveragePct(d), 1))
            && Find(ps, "charge_coverage_pct") == Some(OrNull(CoveragePct(c), 1))
  {
    var ps := Channels(median, d, c);
    FindAt(ps, 0);
    FindAt(ps, 1);
    FindAt(ps, 2);
    FindAt(ps, 3);
    FindAt(ps, 4);
  }

  lemma BoundaryFields(d: ExtSegment, kinds: seq<nat>)
    requires |kinds| == 4
    ensures var ps := Report.Boundaries(d, kinds);
            && Find(ps, "discharge_unknown_s") == Some(Printed(d.unknownSecs, 0))
            && Find(ps, "discharge_unobserved_s") == Some(Printed(d.unobservedSecs, 0))
            && Find(ps, "discharge_discontinuities") == Some(Nat(d.discontinuities))
            && Find(ps, "discharge_discontinuity_kinds") == Some(KindsRecord(kinds))
            && Find(ps, "recovered") == Some(Bool(true))
  {
    var ps := Report.Boundaries(d, kinds);
    FindAt(ps, 0);
    FindAt(ps, 1);
    FindAt(ps, 2);
    FindAt(ps, 3);
    FindAt(ps, 4);
  }

  lemma KindFields(kinds: seq<nat>)
    requires |kinds| == 4
    ensures var k := KindsRecord(kinds);
            && SaysCount(k, "sampling_gap", kinds[0]) && SaysCount(k, "wall_ahead_of_mono", kinds[1])
            && SaysCount(k, "mono_ahead_of_wall", kinds[2]) && SaysCount(k, "clock_went_backwards", kinds[3])
  {
    var k := KindsRecord(kinds);
    FindAt(k.pairs, 0);
    FindAt(k.pairs, 1);
    FindAt(k.pairs, 2);
    FindAt(k.pairs, 3);
    NatNumeralValue(kinds[0]);
    NatNumeralValue(kinds[1]);
    NatNumeralValue(kinds[2]);
    NatNumeralValue(kinds[3]);
  }

  const COUNT_KEYS := ["samples", "discharge_n", "charge_n"]
  const CHANNEL_KEYS :=
    ["discharge_median_w", "discharge_wh", "charge_wh", "discharge_coverage_pct", "charge_coverage_pct"]
  const BOUNDARY_KEYS :=
    ["discharge_unknown_s", "discharge_unobserved_s", "discharge_discontinuities", "discharge_discontinuity_kinds",
     "recovered"]

  lemma CountsLack(rs: seq<ExtReading>, f: ExtFooter, key: string)
    requires key in CHANNEL_KEYS || key in BOUNDARY_KEYS
    ensures Lacks(Counts(rs, f), key)
  {
  }

  lemma ChannelsLack(median: Option<Ext>, d: ExtSegment, c: ExtSegment, key: string)
    requires key in BOUNDARY_KEYS
    ensures Lacks(Channels(median, d, c), key)
  {
  }

  lemma SummaryParts(rs: seq<ExtReading>, f: ExtFooter, key: string)
    requires |f.kinds| == 4
    ensures var m := Median(Values(rs, Discharge));
            && (key in COUNT_KEYS ==> Get(SummaryRecord(rs, f), key) == Find(Counts(rs, f), key))
            && (key in CHANNEL_KEYS ==>
                  Get(SummaryRecord(rs, f), key) == Find(Channels(m, f.discharge, f.charge), key))
            && (key in BOUNDARY_KEYS ==>
                  Get(SummaryRecord(rs, f), key) == Find(Report.Boundaries(f.discharge, f.kinds), key))
  {
    var m := Median(Values(rs, Discharge));
    var a, b, c := Counts(rs, f), Channels(m, f.discharge, f.charge), Report.Boundaries(f.discharge, f.kinds);
    CountsFields(rs, f);
    ChannelFields(m, f.discharge, f.charge);
    FindInParts(a, b, key);
    FindInParts(a + b, c, key);
    if key in CHANNEL_KEYS || key in BOUNDARY_KEYS { CountsLack(rs, f, key); }
    if key in BOUNDARY_KEYS {
      ChannelsLack(m, f.discharge, f.charge, key);
      assert Lacks(a + b, key);
    }
  }

  // ---------------------------------------------------------------- from the fields to what they say

  lemma PrintedSays(s: JVal, key: string, x: real, prec: nat)
    requires Get(s, key) == Some(Printed(Fin(x), prec))
    ensures Says(s, key, x, Pow10(prec))
  {
    FixedRounds(x, prec);
  }

  lemma EnergySays(s: JVal, key: string, t: Segment)
    requires Get(s, key) == Some(OrNull(EnergyOf(LiftSegment(t)), 4))
    ensures SaysEnergy(s, key, t)
  {
    SmallPowers();
    if t.coveredSecs > 0.0 { PrintedSays(s, key, t.energyWh, 4); }
  }

  lemma CoverageSays(s: JVal, key: string, t: Segment)
    requires Get(s, key) == Some(OrNull(CoveragePct(LiftSegment(t)), 1))
    ensures SaysCoverage(s, key, t)
  {
    SmallPowers();
    var span := t.coveredSecs + t.unknownSecs;
    if span > 0.0 { PrintedSays(s, key, t.coveredSecs / span * 100.0, 1); }
  }

  lemma CountSays(s: JVal, key: string, n: nat)
    requires Get(s, key) == Some(Nat(n))
    ensures SaysCount(s, key, n)
  {
    NatNumeralValue(n);
  }

  lemma {:induction false} ValuesAreWatts(rs: seq<Reading>)
    ensures Values(LiftAll(rs), Discharge) == Finite(DischargeWatts(rs))
    decreases |rs|
  {
    if rs != [] {
      LiftedInit(rs);
      ValuesAreWatts(rs[..|rs| - 1]);
    }
  }

  lemma {:induction false} FiniteCounts(xs: seq<real>, x: real)
    ensures multiset(Finite(xs))[Fin(x)] == multiset(xs)[x]
    decreases |xs|
  {
    if xs != [] {
      var init, y := xs[..|xs| - 1], xs[|xs| - 1];
      FiniteCounts(init, x);
      assert xs == init + [y] && Finite(xs) == Finite(init) + [Fin(y)];
      assert multiset(xs) == multiset(init) + multiset{y};
      assert multiset(Finite(xs)) == multiset(Finite(init)) + multiset{Fin(y)};
    }
  }

  lemma SameValues(a: seq<real>, b: seq<real>)
    requires multiset(Finite(a)) == multiset(Finite(b))
    ensures multiset(a) == multiset(b)
  {
    forall x ensures multiset(a)[x] == multiset(b)[x] {
      FiniteCounts(a, x);
      FiniteCounts(b, x);
    }
  }

  /** The sorted values as plain numbers. */
  lemma SortedValues(xs: seq<real>) returns (t: seq<real>)
    ensures SortedFrom(t, xs) && |t| == |xs| && multiset(Finite(t)) == multiset(Finite(xs))
  {
    var e := Sort(Finite(xs));
    SortSorts(Finite(xs));
    SortKeepsElements(Finite(xs));
    forall i | 0 <= i < |e| ensures e[i].Fin? {
      assert e[i] in multiset(Finite(xs));
    }
    t := seq(|e|, i requires 0 <= i < |e| => if e[i].Fin? then e[i].x else 0.0);
    assert Finite(t) == e;
    SortedAsReals(t);
    SameValues(t, xs);
  }

  lemma SortedAsReals(t: seq<real>)
    requires Sorted(Finite(t))
    ensures SortedReals(t)
  {
    forall i, j | 0 <= i < j < |t| ensures t[i] <= t[j] {
      assert LessEq(Finite(t)[i], Finite(t)[j]);
    }
  }

  lemma MedianSays(s: JVal, key: string, rs: seq<Reading>)
    requires Get(s, key) == Some(OrNull(Median(Values(LiftAll(rs), Discharge)), 3))
    ensures SaysMedian(s, key, rs)
  {
    var xs := DischargeWatts(rs);
    ValuesAreWatts(rs);
    if xs != [] {
      var t := SortedValues(xs);
      MedianIsTheMiddle(Finite(xs), t);
      SmallPowers();
      PrintedSays(s, key, Middle(t), 3);
    }
  }

  lemma ChannelsSay(s: JVal, rs: seq<Reading>, d: Segment, c: Segment)
    requires Get(s, "discharge_median_w") == Some(OrNull(Median(Values(LiftAll(rs), Discharge)), 3))
    requires Get(s, "discharge_wh") == Some(OrNull(EnergyOf(LiftSegment(d)), 4))
    requires Get(s, "charge_wh") == Some(OrNull(EnergyOf(LiftSegment(c)), 4))
    requires Get(s, "discharge_coverage_pct") == Some(OrNull(CoveragePct(LiftSegment(d)), 1))
    requires Get(s, "charge_coverage_pct") == Some(OrNull(CoveragePct(LiftSegment(c)), 1))
    ensures SaysMedian(s, "discharge_median_w", rs)
    ensures SaysEnergy(s, "discharge_wh", d) && SaysEnergy(s, "charge_wh", c)
    ensures SaysCoverage(s, "discharge_coverage_pct", d) && SaysCoverage(s, "charge_coverage_pct", c)
  {
    MedianSays(s, "discharge_median_w", rs);
    EnergySays(s, "discharge_wh", d);
    EnergySays(s, "charge_wh", c);
    CoverageSays(s, "discharge_coverage_pct", d);
    CoverageSays(s, "charge_coverage_pct", c);
  }

  lemma BoundariesSay(s: JVal, d: Segment, kinds: seq<nat>)
    requires |kinds| == 4
    requires Get(s, "discharge_unknown_s") == Some(Printed(Fin(d.unknownSecs), 0))
    requires Get(s, "discharge_unobserved_s") == Some(Printed(Fin(d.unobservedSecs), 0))
    requires Get(s, "discharge_discontinuities") == Some(Nat(d.discontinuities))
    ensures Says(s, "discharge_unknown_s", d.unknownSecs, 1.0)
    ensures Says(s, "discharge_unobserved_s", d.unobservedSecs, 1.0)
    ensures SaysCount(s, "discharge_discontinuities", d.discontinuities)
  {
    SmallPowers();
    PrintedSays(s, "discharge_unknown_s", d.unknownSecs, 0);
    PrintedSays(s, "discharge_unobserved_s", d.unobservedSecs, 0);
    CountSays(s, "discharge_discontinuities", d.discontinuities);
  }

  lemma CountsSay(rs: seq<ExtReading>, f: ExtFooter)
    requires |f.kinds| == 4
    ensures var s := SummaryRecord(rs, f);
            && SaysCount(s, "samples", |rs|) && SaysCount(s, "discharge_n", f.dischargeN)
            && SaysCount(s, "charge_n", f.chargeN)
  {
    var s := SummaryRecord(rs, f);
    SummaryParts(rs, f, "samples");
    SummaryParts(rs, f, "discharge_n");
    SummaryParts(rs, f, "charge_n");
    CountsFields(rs, f);
    CountSays(s, "samples", |rs|);
    CountSays(s, "discharge_n", f.dischargeN);
    CountSays(s, "charge_n", f.chargeN);
  }

  lemma ChannelsOf(rs: seq<Reading>, f: Summary.Footer)
    requires |f.kinds| == 4
    ensures var s := SummaryRecord(LiftAll(rs), LiftFooter(f));
            && SaysMedian(s, "discharge_median_w", rs)
            && SaysEnergy(s, "discharge_wh", f.discharge) && SaysEnergy(s, "charge_wh", f.charge)
            && SaysCoverage(s, "discharge_coverage_pct", f.discharge)
            && SaysCoverage(s, "charge_coverage_pct", f.charge)
  {
    var es, g := LiftAll(rs), LiftFooter(f);
    SummaryParts(es, g, "discharge_median_w");
    SummaryParts(es, g, "discharge_wh");
    SummaryParts(es, g, "charge_wh");
    SummaryParts(es, g, "discharge_coverage_pct");
    SummaryParts(es, g, "charge_coverage_pct");
    ChannelFields(Median(Values(es, Discharge)), g.discharge, g.charge);
    ChannelsSay(SummaryRecord(es, g), rs, f.discharge, f.charge);
  }

  lemma BoundariesOf(rs: seq<Reading>, f: Summary.Footer)
    requires |f.kinds| == 4
    ensures var s := SummaryRecord(LiftAll(rs), LiftFooter(f));
            && Says(s, "discharge_unknown_s", f.discharge.unknownSecs, 1.0)
            && Says(s, "discharge_unobserved_s", f.discharge.unobservedSecs, 1.0)
            && SaysCount(s, "discharge_discontinuities", f.discharge.discontinuities)
            && Get(s, "discharge_discontinuity_kinds") == Some(KindsRecord(f.kinds))
            && Get(s, "recovered") == Some(Bool(true))
  {
    var es, g := LiftAll(rs), LiftFooter(f);
    SummaryParts(es, g, "discharge_unknown_s");
    SummaryParts(es, g, "discharge_unobserved_s");
    SummaryParts(es, g, "discharge_discontinuities");
    SummaryParts(es, g, "discharge_discontinuity_kinds");
    SummaryParts(es, g, "recovered");
    BoundaryFields(g.discharge, g.kinds);
    BoundariesSay(SummaryRecord(es, g), f.discharge, f.kinds);
  }

  /** The printed summary of finite readings, read back, says what it should about them. */
  lemma SummaryTells(rs: seq<Reading>, rule: Rule)
    requires rule.maxSkew >= 0.0
    ensures Tells(SummaryRecord(LiftAll(rs), LiftFooter(FooterOf(rs, rule))), rs, rule)
  {
    var f := FooterOf(rs, rule);
    FooterCounts(rs, rule);
    CountsSay(LiftAll(rs), LiftFooter(f));
    ChannelsOf(rs, f);
    BoundariesOf(rs, f);
    KindFields(f.kinds);
  }

  // ---------------------------------------------------------------- the footer line

  /** The line parses as a recovered footer with this wall clock and line count whose summary tells about rs. */
  ghost predicate IsFooterOf(line: string, wall: nat, lines: nat, rs: seq<Reading>, rule: Rule) {
    && Parse(line).Some?
    && var v := Parse(line).value;
       && StrAt(v, "type") == Some("session_footer") && Get(v, "recovered") == Some(Bool(true))
       && SaysCount(v, "wall_ms", wall) && SaysCount(v, "lines", lines)
       && Get(v, "summary").Some? && Tells(Get(v, "summary").value, rs, rule)
  }

  lemma FooterFields(wall: nat, lines: nat, summary: JVal)
    ensures var v := RecoveredFooterRecord(wall, lines, summary);
            && StrAt(v, "type") == Some("session_footer") && Get(v, "recovered") == Some(Bool(true))
            && SaysCount(v, "wall_ms", wall) && SaysCount(v, "lines", lines) && Get(v, "summary") == Some(summary)
  {
    var v := RecoveredFooterRecord(wall, lines, summary);
    FindAt(v.pairs, 0);
    FindAt(v.pairs, 1);
    FindAt(v.pairs, 2);
    FindAt(v.pairs, 3);
    FindAt(v.pairs, 4);
    CountSays(v, "wall_ms", wall);
    CountSays(v, "lines", lines);
  }

  /** The footer line recovery writes for finite readings is such a line. */
  lemma FooterLineTells(wall: nat, lines: nat, rs: seq<Reading>, rule: Rule)
    requires rule.maxSkew >= 0.0
    ensures var s := SummaryRecord(LiftAll(rs), LiftFooter(FooterOf(rs, rule)));
            IsFooterOf(Write(RecoveredFooterRecord(wall, lines, s)), wall, lines, rs, rule)
  {
    var s := SummaryRecord(LiftAll(rs), LiftFooter(FooterOf(rs, rule)));
    SummaryTells(rs, rule);
    FiniteReadingsPrint(rs, rule);
    LiftedFooter(rs, rule);
    SummarySpells(LiftAll(rs), LiftFooter(FooterOf(rs, rule)));
    RecoveredFooterFits(wall, lines, s);
    WrittenParses(RecoveredFooterRecord(wall, lines, s));
    FooterFields(wall, lines, s);
  }
}

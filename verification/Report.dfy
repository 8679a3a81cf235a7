/** The summary recovery writes into the footer it rebuilds, digit by digit. */
module Report {
  import opened Common
  import opened Extended
  import opened Json
  import opened Numbers
  import Energy

  // ---------------------------------------------------------------- the median

  function Insert(x: Ext, xs: seq<Ext>): seq<Ext> {
    if xs == [] || !Less(xs[0], x) then [x] + xs else [xs[0]] + Insert(x, xs[1..])
  }

  function Sort(xs: seq<Ext>): (r: seq<Ext>)
    ensures |r| == |xs|
  {
    if xs == [] then [] else InsertGrows(xs[|xs| - 1], Sort(xs[..|xs| - 1])); Insert(xs[|xs| - 1], Sort(xs[..|xs| - 1]))
  }

  lemma InsertGrows(x: Ext, xs: seq<Ext>)
    ensures |Insert(x, xs)| == |xs| + 1
    ensures multiset(Insert(x, xs)) == multiset([x] + xs)
  {
    if xs != [] && Less(xs[0], x) {
      InsertGrows(x, xs[1..]);
      assert xs == [xs[0]] + xs[1..];
    }
  }

  /** The known values of a channel. */
  function Values(rs: seq<ExtReading>, c: Energy.Channel): seq<Ext> {
    if rs == [] then []
    else
      var w := ExtWatts(rs[|rs| - 1], c);
      Values(rs[..|rs| - 1], c) + (if w.Some? then [w.value] else [])
  }

  /** The middle value, or the mean of the two middle ones. */
  function Median(xs: seq<Ext>): Option<Ext> {
    if xs == [] then None
    else
      var s, h := Sort(xs), |xs| / 2;
      Some(if |xs| % 2 == 1 then s[h] else Add(Scale(s[h - 1], 0.5), Scale(s[h], 0.5)))
  }

  // ---------------------------------------------------------------- the median is the middle of the sorted values

  lemma {:induction false} SortKeepsElements(xs: seq<Ext>)
    ensures multiset(Sort(xs)) == multiset(xs)
    decreases |xs|
  {
    if xs != [] {
      var init, x := xs[..|xs| - 1], xs[|xs| - 1];
      SortKeepsElements(init);
      InsertGrows(x, Sort(init));
      assert xs == init + [x];
    }
  }

  predicate Numbered(xs: seq<Ext>) { forall i :: 0 <= i < |xs| ==> !xs[i].NaN? }

  predicate Sorted(xs: seq<Ext>) { forall i, j :: 0 <= i < j < |xs| ==> LessEq(xs[i], xs[j]) }

  predicate AtLeast(y: Ext, xs: seq<Ext>) { forall i :: 0 <= i < |xs| ==> LessEq(y, xs[i]) }

  lemma {:induction false} InsertKeepsLeast(y: Ext, x: Ext, xs: seq<Ext>)
    requires AtLeast(y, xs) && LessEq(y, x)
    ensures AtLeast(y, Insert(x, xs))
  {
    if xs != [] && Less(xs[0], x) { InsertKeepsLeast(y, x, xs[1..]); }
  }

  lemma {:induction false} InsertSorts(x: Ext, xs: seq<Ext>)
    requires !x.NaN? && Numbered(xs) && Sorted(xs)
    ensures Numbered(Insert(x, xs)) && Sorted(Insert(x, xs))
  {
    if xs != [] && Less(xs[0], x) {
      InsertSorts(x, xs[1..]);
      assert AtLeast(xs[0], xs[1..]);
      InsertKeepsLeast(xs[0], x, xs[1..]);
      LeastFirst(xs[0], Insert(x, xs[1..]));
    } else {
      if xs != [] { assert LessEq(x, xs[0]) && AtLeast(xs[0], xs[1..]); }
      LeastFirst(x, xs);
    }
  }

  lemma LeastFirst(y: Ext, xs: seq<Ext>)
    requires !y.NaN? && Numbered(xs) && Sorted(xs) && (xs == [] || LessEq(y, xs[0]))
    ensures Numbered([y] + xs) && Sorted([y] + xs)
  {
    var t := [y] + xs;
    forall i, j | 0 <= i < j < |t| ensures LessEq(t[i], t[j]) {
      if i == 0 && j > 1 { assert LessEq(xs[0], xs[j - 1]); }
    }
  }

  lemma {:induction false} SortSorts(xs: seq<Ext>)
    requires Numbered(xs)
    ensures Numbered(Sort(xs)) && Sorted(Sort(xs))
    decreases |xs|
  {
    if xs != [] {
      SortSorts(xs[..|xs| - 1]);
      InsertSorts(xs[|xs| - 1], Sort(xs[..|xs| - 1]));
    }
  }

  lemma FirstIsLeast(s: seq<Ext>, y: Ext)
    requires Numbered(s) && Sorted(s) && y in multiset(s)
    ensures s != [] && LessEq(s[0], y)
  {
    var i :| 0 <= i < |s| && s[i] == y;
  }

  lemma RestOf(s: seq<Ext>)
    requires s != []
    ensures multiset(s[1..]) == multiset(s) - multiset{s[0]}
  {
    assert s == [s[0]] + s[1..];
  }

  lemma SameFirst(s: seq<Ext>, t: seq<Ext>)
    requires Numbered(s) && Numbered(t) && Sorted(s) && Sorted(t) && multiset(s) == multiset(t) && s != [] && t != []
    ensures s[0] == t[0] && multiset(s[1..]) == multiset(t[1..])
  {
    assert s[0] in multiset(s) && t[0] in multiset(t);
    FirstIsLeast(t, s[0]);
    FirstIsLeast(s, t[0]);
    RestOf(s);
    RestOf(t);
  }

  /** Values can be sorted in one way only. */
  lemma {:induction false} SortedOnce(s: seq<Ext>, t: seq<Ext>)
    requires Numbered(s) && Numbered(t) && Sorted(s) && Sorted(t) && multiset(s) == multiset(t)
    ensures s == t
  {
    assert |s| == |multiset(s)| == |multiset(t)| == |t|;
    if s != [] {
      SameFirst(s, t);
      SortedOnce(s[1..], t[1..]);
      assert s == [s[0]] + s[1..] && t == [t[0]] + t[1..];
    }
  }

  function Finite(xs: seq<real>): (es: seq<Ext>)
    ensures |es| == |xs| && forall i :: 0 <= i < |xs| ==> es[i] == Fin(xs[i])
  {
    seq(|xs|, i requires 0 <= i < |xs| => Fin(xs[i]))
  }

  predicate SortedReals(t: seq<real>) { forall i, j :: 0 <= i < j < |t| ==> t[i] <= t[j] }

  /** The middle value, or half way between the two middle ones. */
  function Middle(t: seq<real>): real
    requires t != []
  {
    if |t| % 2 == 1 then t[|t| / 2] else (t[|t| / 2 - 1] + t[|t| / 2]) / 2.0
  }

  /** However the values are sorted, the median is the middle of the sorted list. */
  lemma MedianIsTheMiddle(xs: seq<Ext>, t: seq<real>)
    requires SortedReals(t) && multiset(Finite(t)) == multiset(xs) && t != []
    ensures Median(xs) == Some(Fin(Middle(t)))
  {
    SortGives(xs, t);
    MiddleOf(Finite(t), t);
  }

  lemma MiddleOf(s: seq<Ext>, t: seq<real>)
    requires s == Finite(t) && t != []
    ensures var h := |t| / 2;
            (if |t| % 2 == 1 then s[h] else Add(Scale(s[h - 1], 0.5), Scale(s[h], 0.5))) == Fin(Middle(t))
  {
  }

  lemma SortGives(xs: seq<Ext>, t: seq<real>)
    requires SortedReals(t) && multiset(Finite(t)) == multiset(xs)
    ensures Sort(xs) == Finite(t) && |xs| == |t|
  {
    forall i | 0 <= i < |xs| ensures xs[i].Fin? {
      assert xs[i] in multiset(Finite(t));
    }
    SortSorts(xs);
    SortKeepsElements(xs);
    SortedOnce(Sort(xs), Finite(t));
    assert |xs| == |multiset(xs)| == |t|;
  }

  /** At most half of the values are below the median and at most half are above. */
  lemma MedianHalves(t: seq<real>, below: set<int>, above: set<int>)
    requires SortedReals(t) && t != []
    requires below == set i | 0 <= i < |t| && t[i] < Middle(t)
    requires above == set i | 0 <= i < |t| && t[i] > Middle(t)
    ensures 2 * |below| <= |t| && 2 * |above| <= |t|
  {
    var h := |t| / 2;
    FewBetween(0, h, below);
    FewBetween((|t| + 1) / 2, |t|, above);
  }

  lemma {:induction false} FewBetween(a: int, b: int, s: set<int>)
    requires a <= b && forall i :: i in s ==> a <= i < b
    ensures |s| <= b - a
    decreases b - a
  {
    if a < b {
      FewBetween(a, b - 1, s - {b - 1});
    } else {
      assert s == {};
    }
  }

  // ---------------------------------------------------------------- printing

  function Printed(e: Ext, prec: nat): JVal {
    match e
    case Fin(x) => Num(Fixed(x, prec))
    case Inf(negative) => Num(Odd("inf", negative))
    case NaN => Num(Odd("NaN", false))
  }

  function OrNull(e: Option<Ext>, prec: nat): JVal { if e.Some? then Printed(e.value, prec) else Null }

  /** Energy is reported only over covered time. */
  function EnergyOf(s: ExtSegment): Option<Ext> { if Less(NIL, s.coveredSecs) then Some(s.energyWh) else None }

  /** Covered share of the observed span in percent. */
  function CoveragePct(s: ExtSegment): Option<Ext> {
    var span := Add(s.coveredSecs, s.unknownSecs);
    if LessEq(span, NIL) then None else Some(Scale(Over(s.coveredSecs, span), 100.0))
  }

  function Nat(n: nat): JVal { Num(NatNumeral(n)) }

  function KindsRecord(kinds: seq<nat>): JVal
    requires |kinds| == 4
  {
    Obj([("sampling_gap", Nat(kinds[0])), ("wall_ahead_of_mono", Nat(kinds[1])),
         ("mono_ahead_of_wall", Nat(kinds[2])), ("clock_went_backwards", Nat(kinds[3]))])
  }

  type Fields = seq<(string, JVal)>

  function Counts(rs: seq<ExtReading>, f: ExtFooter): Fields {
    [("samples", Nat(|rs|)), ("discharge_n", Nat(f.dischargeN)), ("charge_n", Nat(f.chargeN))]
  }

  function Channels(median: Option<Ext>, d: ExtSegment, c: ExtSegment): Fields {
    [("discharge_median_w", OrNull(median, 3)),
     ("discharge_wh", OrNull(EnergyOf(d), 4)), ("charge_wh", OrNull(EnergyOf(c), 4)),
     ("discharge_coverage_pct", OrNull(CoveragePct(d), 1)), ("charge_coverage_pct", OrNull(CoveragePct(c), 1))]
  }

  function Boundaries(d: ExtSegment, kinds: seq<nat>): Fields
    requires |kinds| == 4
  {
    [("discharge_unknown_s", Printed(d.unknownSecs, 0)), ("discharge_unobserved_s", Printed(d.unobservedSecs, 0)),
     ("discharge_discontinuities", Nat(d.discontinuities)), ("discharge_discontinuity_kinds", KindsRecord(kinds)),
     ("recovered", Bool(true))]
  }

  function SummaryRecord(rs: seq<ExtReading>, f: ExtFooter): JVal
    requires |f.kinds| == 4
  {
    Obj(Counts(rs, f) + Channels(Median(Values(rs, Energy.Discharge)), f.discharge, f.charge)
        + Boundaries(f.discharge, f.kinds))
  }

  // ---------------------------------------------------------------- when the summary is JSON

  predicate FiniteOrNone(e: Option<Ext>) { e.None? || e.value.Fin? }

  /** Everything the summary prints is a finite number. */
  predicate PrintsFinite(rs: seq<ExtReading>, f: ExtFooter) {
    && FiniteOrNone(Median(Values(rs, Energy.Discharge)))
    && FiniteOrNone(EnergyOf(f.discharge)) && FiniteOrNone(EnergyOf(f.charge))
    && FiniteOrNone(CoveragePct(f.discharge)) && FiniteOrNone(CoveragePct(f.charge))
    && f.discharge.unknownSecs.Fin? && f.discharge.unobservedSecs.Fin?
  }

  lemma PrintedSpells(e: Ext, prec: nat)
    ensures Spelled(Printed(e, prec)) && (Fits(Printed(e, prec), 2) <==> e.Fin?)
  {
    if e.Fin? {
      FixedRounds(e.x, prec);
    } else {
      OddIsNoNumeral(Printed(e, prec).n);
    }
  }

  lemma OddIsNoNumeral(n: Numeral)
    requires IsOdd(n)
    ensures !IsNumeral(n)
  {
    assert !IsDigit(n.whole[0]);
  }

  lemma OrNullSpells(e: Option<Ext>, prec: nat)
    ensures Spelled(OrNull(e, prec)) && (Fits(OrNull(e, prec), 2) <==> FiniteOrNone(e))
  {
    if e.Some? { PrintedSpells(e.value, prec); }
  }

  lemma NatSpells(n: nat, depth: nat)
    requires depth <= MAX_DEPTH
    ensures Spelled(Nat(n)) && Fits(Nat(n), depth)
  {
    NatNumeralValue(n);
  }

  lemma KindsSpell(kinds: seq<nat>)
    requires |kinds| == 4
    ensures Spelled(KindsRecord(kinds)) && Fits(KindsRecord(kinds), 2)
  {
    NatSpells(kinds[0], 3);
    NatSpells(kinds[1], 3);
    NatSpells(kinds[2], 3);
    NatSpells(kinds[3], 3);
  }

  predicate FieldsSpelled(ps: Fields) { forall i :: 0 <= i < |ps| ==> Spelled(ps[i].1) }

  predicate FieldsFit(ps: Fields) { forall i :: 0 <= i < |ps| ==> Fits(ps[i].1, 2) }

  lemma FieldsJoin(a: Fields, b: Fields)
    ensures FieldsSpelled(a + b) <==> FieldsSpelled(a) && FieldsSpelled(b)
    ensures FieldsFit(a + b) <==> FieldsFit(a) && FieldsFit(b)
  {
    var c := a + b;
    assert forall i :: 0 <= i < |a| ==> c[i] == a[i];
    assert forall i :: 0 <= i < |b| ==> c[|a| + i] == b[i];
  }

  lemma CountsSpell(rs: seq<ExtReading>, f: ExtFooter)
    ensures FieldsSpelled(Counts(rs, f)) && FieldsFit(Counts(rs, f))
  {
    NatSpells(|rs|, 2);
    NatSpells(f.dischargeN, 2);
    NatSpells(f.chargeN, 2);
  }

  lemma ChannelsSpell(median: Option<Ext>, d: ExtSegment, c: ExtSegment)
    ensures FieldsSpelled(Channels(median, d, c))
    ensures FieldsFit(Channels(median, d, c)) <==>
              && FiniteOrNone(median) && FiniteOrNone(EnergyOf(d)) && FiniteOrNone(EnergyOf(c))
              && FiniteOrNone(CoveragePct(d)) && FiniteOrNone(CoveragePct(c))
  {
    OrNullSpells(median, 3);
    OrNullSpells(EnergyOf(d), 4);
    OrNullSpells(EnergyOf(c), 4);
    OrNullSpells(CoveragePct(d), 1);
    OrNullSpells(CoveragePct(c), 1);
    FiveFields(Channels(median, d, c));
  }

  lemma FiveFields(ps: Fields)
    requires |ps| == 5
    ensures FieldsSpelled(ps) <==>
              Spelled(ps[0].1) && Spelled(ps[1].1) && Spelled(ps[2].1) && Spelled(ps[3].1) && Spelled(ps[4].1)
    ensures FieldsFit(ps) <==>
              Fits(ps[0].1, 2) && Fits(ps[1].1, 2) && Fits(ps[2].1, 2) && Fits(ps[3].1, 2) && Fits(ps[4].1, 2)
  {
  }

  lemma BoundariesSpell(d: ExtSegment, kinds: seq<nat>)
    requires |kinds| == 4
    ensures FieldsSpelled(Boundaries(d, kinds))
    ensures FieldsFit(Boundaries(d, kinds)) <==> d.unknownSecs.Fin? && d.unobservedSecs.Fin?
  {
    PrintedSpells(d.unknownSecs, 0);
    PrintedSpells(d.unobservedSecs, 0);
    NatSpells(d.discontinuities, 2);
    KindsSpell(kinds);
    FiveFields(Boundaries(d, kinds));
  }

  lemma ObjectOfFields(ps: Fields)
    ensures Spelled(Obj(ps)) <==> FieldsSpelled(ps)
    ensures Fits(Obj(ps), 1) <==> FieldsFit(ps)
  {
  }

  /** The printed summary is JSON exactly when everything it prints is finite. */
  lemma SummarySpells(rs: seq<ExtReading>, f: ExtFooter)
    requires |f.kinds| == 4
    ensures Spelled(SummaryRecord(rs, f)) && (Fits(SummaryRecord(rs, f), 1) <==> PrintsFinite(rs, f))
  {
    var m := Median(Values(rs, Energy.Discharge));
    var a, b, c := Counts(rs, f), Channels(m, f.discharge, f.charge), Boundaries(f.discharge, f.kinds);
    CountsSpell(rs, f);
    ChannelsSpell(m, f.discharge, f.charge);
    BoundariesSpell(f.discharge, f.kinds);
    FieldsJoin(a, b);
    FieldsJoin(a + b, c);
    ObjectOfFields(a + b + c);
  }

  // ---------------------------------------------------------------- a condition on the readings

  predicate AllFin(xs: seq<Ext>) { forall i :: 0 <= i < |xs| ==> xs[i].Fin? }

  lemma FiniteMedian(xs: seq<Ext>)
    requires AllFin(xs)
    ensures FiniteOrNone(Median(xs))
  {
    SortKeepsElements(xs);
    forall i | 0 <= i < |xs| ensures Sort(xs)[i].Fin? {
      assert Sort(xs)[i] in multiset(Sort(xs));
    }
  }

  lemma {:induction false} FiniteValues(rs: seq<Energy.Reading>, c: Energy.Channel)
    ensures AllFin(Values(LiftAll(rs), c))
    decreases |rs|
  {
    if rs != [] {
      LiftedInit(rs);
      FiniteValues(rs[..|rs| - 1], c);
    }
  }

  lemma FiniteCoverage(s: ExtSegment)
    requires s.coveredSecs.Fin? && s.unknownSecs.Fin?
    ensures FiniteOrNone(CoveragePct(s))
  {
  }

  /** Finite readings print a summary that is JSON. */
  lemma FiniteReadingsPrint(rs: seq<Energy.Reading>, rule: Energy.Rule)
    ensures PrintsFinite(LiftAll(rs), ExtFooterOf(LiftAll(rs), rule))
  {
    LiftedFooter(rs, rule);
    FiniteValues(rs, Energy.Discharge);
    FiniteMedian(Values(LiftAll(rs), Energy.Discharge));
    var f := ExtFooterOf(LiftAll(rs), rule);
    FiniteCoverage(f.discharge);
    FiniteCoverage(f.charge);
  }

  /** With a single reading, the summary is JSON exactly when its discharge did not overflow. */
  lemma SingleReadingPrints(r: ExtReading, rule: Energy.Rule)
    ensures PrintsFinite([r], ExtFooterOf([r], rule)) <==> FiniteOrNone(r.discharge)
  {
    var d := r.discharge;
    var xs := Values([r], Energy.Discharge);
    assert [r][..0] == [];
    assert Values([], Energy.Discharge) == [];
    assert xs == (if d.Some? then [d.value] else []);
    if d.Some? {
      assert xs[..0] == [] && Sort([]) == [] && Sort(xs) == Insert(d.value, []);
    }
  }

  /** Both clocks of every reading are finite, and no reading is a not-a-number. */
  predicate FiniteClocks(rs: seq<ExtReading>) {
    forall i :: 0 <= i < |rs| ==>
      rs[i].mono.Fin? && rs[i].wall.Fin? && rs[i].discharge != Some(NaN) && rs[i].charge != Some(NaN)
  }

  /** The pair is integrated and one of its ends is infinite. */
  predicate TouchesInfinity(a: ExtReading, b: ExtReading, c: Energy.Channel, rule: Energy.Rule) {
    var x, y := ExtWatts(a, c), ExtWatts(b, c);
    ExtStepKind(a, b, rule).None? && x.Some? && y.Some? && (x.value.Inf? || y.value.Inf?)
  }

  predicate Touched(rs: seq<ExtReading>, c: Energy.Channel, rule: Energy.Rule) {
    |rs| >= 2 && (Touched(rs[..|rs| - 1], c, rule) || TouchesInfinity(rs[|rs| - 2], rs[|rs| - 1], c, rule))
  }

  lemma PairOfFiniteClocks(a: ExtReading, b: ExtReading, c: Energy.Channel, rule: Energy.Rule)
    requires FiniteClocks([a, b])
    ensures var p := ExtPair(a, b, c, rule);
            && p.coveredSecs.Fin? && p.unknownSecs.Fin? && p.unobservedSecs.Fin?
            && (p.energyWh.Fin? <==> !TouchesInfinity(a, b, c, rule))
  {
    assert FiniteClocks([a, b]) && [a, b][0] == a && [a, b][1] == b;
    if ExtStepKind(a, b, rule).None? {
      var dt := Sub(b.mono, a.mono);
      assert LessEq(dt, Fin(rule.maxGap));
      var x, y := ExtWatts(a, c), ExtWatts(b, c);
      if x.Some? && y.Some? { TrapezoidOfEnds(x.value, y.value, dt.x); }
    }
  }

  lemma TrapezoidOfEnds(x: Ext, y: Ext, dt: real)
    requires !x.NaN? && !y.NaN?
    ensures ExtTrapezoid(x, y, Fin(dt)).Fin? <==> x.Fin? && y.Fin?
  {
  }

  lemma {:induction false} TotalOfFiniteClocks(rs: seq<ExtReading>, c: Energy.Channel, rule: Energy.Rule)
    requires FiniteClocks(rs)
    ensures var t := ExtTotal(rs, c, rule);
            && t.coveredSecs.Fin? && t.unknownSecs.Fin? && t.unobservedSecs.Fin?
            && (t.energyWh.Fin? <==> !Touched(rs, c, rule))
    decreases |rs|
  {
    if |rs| >= 2 {
      TotalOfFiniteClocks(rs[..|rs| - 1], c, rule);
      PairOfFiniteClocks(rs[|rs| - 2], rs[|rs| - 1], c, rule);
    }
  }

  /** The median discharge is finite and no integrated pair of a covered channel has an infinite end. */
  ghost predicate InfinityIsUnseen(rs: seq<ExtReading>, rule: Energy.Rule) {
    && FiniteOrNone(Median(Values(rs, Energy.Discharge)))
    && (Less(NIL, ExtTotal(rs, Energy.Discharge, rule).coveredSecs) ==> !Touched(rs, Energy.Discharge, rule))
    && (Less(NIL, ExtTotal(rs, Energy.Charge, rule).coveredSecs) ==> !Touched(rs, Energy.Charge, rule))
  }

  /** With finite clocks the summary is JSON exactly when it sees no infinite reading. */
  lemma SummaryIsJsonExactly(rs: seq<ExtReading>, rule: Energy.Rule)
    requires FiniteClocks(rs)
    ensures PrintsFinite(rs, ExtFooterOf(rs, rule)) <==> InfinityIsUnseen(rs, rule)
  {
    TotalOfFiniteClocks(rs, Energy.Discharge, rule);
    TotalOfFiniteClocks(rs, Energy.Charge, rule);
    var f := ExtFooterOf(rs, rule);
    FiniteCoverage(f.discharge);
    FiniteCoverage(f.charge);
  }
}

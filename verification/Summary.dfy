/**
 The two footers of a session. The live footer is accumulated record by record; the recovered footer
 is computed after a crash from the battery records that survived, with the interval read back from
 the header. Both are the same function of the same records.
 */
module Summary {
  import opened Common
  import opened Energy

  const RECENT_BATTERY_CAP: nat := 4096

  /** The evidence both footers report, before formatting. */
  datatype Footer = Footer(
    discharge: Segment, charge: Segment, kinds: seq<nat>, dischargeN: nat, chargeN: nat)

  function RuleFor(intervalMs: nat): Rule {
    Rule(MaxGapSecs(intervalMs), MAX_CLOCK_SKEW_SECS)
  }

  /** The reference footer: pairwise totals and counts. */
  function FooterOf(rs: seq<Reading>, rule: Rule): Footer {
    Footer(Total(rs, Discharge, rule), Total(rs, Charge, rule), KindTallies(rs, rule),
           Known(rs, Discharge), Known(rs, Charge))
  }

  datatype Preset = Normal | Low | Deep

  function EffectiveBaseInterval(preset: Preset, intervalMs: nat): nat {
    match preset
    case Low => 5000
    case Deep => if intervalMs < 250 then intervalMs else 250
    case Normal => intervalMs
  }

  // ---------------------------------------------------------------- live side

  class SummaryAccum {
    const energy: EnergyStream
    const rule: Rule
    var dischargeN: nat
    var chargeN: nat
    var recent: seq<Reading>

    ghost predicate Valid()
      reads this, energy
    {
      && energy.Valid(rule)
      && dischargeN == Known(energy.seen, Discharge)
      && chargeN == Known(energy.seen, Charge)
      && recent == LastN(energy.seen, RECENT_BATTERY_CAP)
    }

    constructor (baseInterval: nat)
      ensures Valid() && fresh(energy) && energy.seen == [] && rule == RuleFor(baseInterval)
    {
      var e := new EnergyStream();
      energy := e;
      rule := RuleFor(baseInterval);
      dischargeN, chargeN, recent := 0, 0, [];
    }

    method RecordBattery(r: Reading)
      requires Valid()
      modifies this, energy
      ensures Valid() && energy.seen == old(energy.seen) + [r]
      ensures recent == LastN(energy.seen, 4096)
    {
      SnocKnown(energy.seen, r);
      SlideWindow(energy.seen, r, RECENT_BATTERY_CAP);
      energy.Push(r, rule);
      if r.discharge.Some? { dischargeN := dischargeN + 1; }
      if r.charge.Some? { chargeN := chargeN + 1; }
      if |recent| >= RECENT_BATTERY_CAP { recent := recent[1..]; }
      recent := recent + [r];
    }

    method LiveFooter() returns (f: Footer)
      requires Valid()
      ensures f == FooterOf(energy.seen, rule)
    {
      f := Footer(energy.discharge, energy.charge, energy.kinds, dischargeN, chargeN);
    }
  }

  /** A whole live session: every successful battery read is recorded, then the footer is written. */
  method RunLive(rs: seq<Reading>, baseInterval: nat) returns (f: Footer)
    ensures f == FooterOf(rs, RuleFor(baseInterval))
  {
    var acc := new SummaryAccum(baseInterval);
    for i := 0 to |rs|
      invariant acc.Valid() && fresh(acc) && fresh(acc.energy) && acc.rule == RuleFor(baseInterval)
      invariant acc.energy.seen == rs[..i]
    {
      acc.RecordBattery(rs[i]);
    }
    assert rs[..|rs|] == rs;
    f := acc.LiveFooter();
  }

  // ---------------------------------------------------------------- recovered side

  /** The interval recovery reads from the header: ignored below 1, truncated otherwise, 1000 by default. */
  function RecoveredInterval(header: Option<real>): (iv: nat)
    ensures header.None? ==> iv == 1000
  {
    if header.Some? && header.value >= 1.0 then header.value.Floor else 1000
  }

  /** The recovery loop: parallel columns from the kept battery records, then the batch integrator. */
  method RecoverFooter(rs: seq<Reading>, header: Option<real>) returns (f: Footer)
    ensures f == FooterOf(rs, RuleFor(RecoveredInterval(header)))
  {
    var times: seq<real>, walls: seq<real> := [], [];
    var watts: seq<Option<real>>, charges: seq<Option<real>> := [], [];
    var dischargeN, chargeN := 0, 0;
    for i := 0 to |rs|
      invariant |times| == |walls| == |watts| == |charges| == i
      invariant forall j :: 0 <= j < i ==> times[j] == rs[j].mono && walls[j] == rs[j].wall
      invariant forall j :: 0 <= j < i ==> watts[j] == rs[j].discharge && charges[j] == rs[j].charge
      invariant dischargeN == Known(rs[..i], Discharge) && chargeN == Known(rs[..i], Charge)
    {
      SnocKnown(rs[..i], rs[i]);
      assert rs[..i + 1] == rs[..i] + [rs[i]];
      times := times + [rs[i].mono];
      walls := walls + [rs[i].wall];
      watts := watts + [rs[i].discharge];
      charges := charges + [rs[i].charge];
      if rs[i].discharge.Some? { dischargeN := dischargeN + 1; }
      if rs[i].charge.Some? { chargeN := chargeN + 1; }
    }
    assert rs[..|rs|] == rs;
    var rule := RuleFor(RecoveredInterval(header));
    var dseg := IntegrateSegmentedClocks(times, walls, watts, rule);
    var cseg := IntegrateSegmentedClocks(times, walls, charges, rule);
    TotalReadsOneColumn(Zip(times, walls, watts), Discharge, rs, Discharge, rule);
    TotalReadsOneColumn(Zip(times, walls, charges), Discharge, rs, Charge, rule);
    var kinds := TallyKinds(times, walls, rule);
    TalliesReadClocks(Zip(times, walls, []), rs, rule);
    f := Footer(dseg, cseg, kinds, dischargeN, chargeN);
  }

  method TallyKinds(times: seq<real>, walls: seq<real>, rule: Rule) returns (kinds: seq<nat>)
    ensures kinds == KindTallies(Zip(times, walls, []), rule)
  {
    var disc := Discontinuities(times, walls, rule);
    kinds := [0, 0, 0, 0];
    for j := 0 to |disc|
      invariant |kinds| == 4
      invariant forall k :: 0 <= k < 4 ==> kinds[k] == CountKind(disc[..j], k)
    {
      assert disc[..j + 1][..j] == disc[..j];
      kinds := kinds[Index(disc[j].kind) := kinds[Index(disc[j].kind)] + 1];
    }
    assert disc[..|disc|] == disc;
    forall k: nat | k < 4 ensures CountKind(disc, k) == KindTally(Zip(times, walls, []), k, rule) {
      BoundariesCountKinds(Zip(times, walls, []), k, rule);
    }
  }

  function CountKind(disc: seq<Discontinuity>, k: nat): nat {
    if disc == [] then 0
    else CountKind(disc[..|disc| - 1], k) + (if Index(disc[|disc| - 1].kind) == k then 1 else 0)
  }

  lemma {:induction false} BoundariesCountKinds(rs: seq<Reading>, k: nat, rule: Rule)
    ensures CountKind(Boundaries(rs, rule), k) == KindTally(rs, k, rule)
    decreases |rs|
  {
    if |rs| >= 2 {
      BoundariesCountKinds(rs[..|rs| - 1], k, rule);
      var d := Boundaries(rs, rule);
      if StepKind(rs[|rs| - 2], rs[|rs| - 1], rule).Some? {
        assert d[..|d| - 1] == Boundaries(rs[..|rs| - 1], rule);
      } else {
        assert d == Boundaries(rs[..|rs| - 1], rule);
      }
    }
  }

  lemma {:induction false} TalliesReadClocks(a: seq<Reading>, b: seq<Reading>, rule: Rule)
    requires |a| == |b| && forall i :: 0 <= i < |a| ==> a[i].mono == b[i].mono && a[i].wall == b[i].wall
    ensures KindTallies(a, rule) == KindTallies(b, rule)
    decreases |a|
  {
    if |a| >= 2 { TalliesReadClocks(a[..|a| - 1], b[..|b| - 1], rule); }
  }

  /** The header carries the effective base interval, so recovery applies the live gap rule, whatever the interval. */
  lemma RecoveredRuleIsTheLiveRule(preset: Preset, intervalMs: nat)
    ensures var base := EffectiveBaseInterval(preset, intervalMs);
            RuleFor(RecoveredInterval(Some(base as real))) == RuleFor(base)
  {
  }

  /** Clean and recovered footers agree for every list of records and every surviving prefix of it. */
  method CleanAndRecoveredAgree(rs: seq<Reading>, kept: nat, preset: Preset, intervalMs: nat)
    returns (clean: Footer, recovered: Footer)
    requires kept <= |rs|
    ensures clean == recovered == FooterOf(rs[..kept], RuleFor(EffectiveBaseInterval(preset, intervalMs)))
  {
    var base := EffectiveBaseInterval(preset, intervalMs);
    clean := RunLive(rs[..kept], base);
    RecoveredRuleIsTheLiveRule(preset, intervalMs);
    recovered := RecoverFooter(rs[..kept], Some(base as real));
  }

  // ---------------------------------------------------------------- the footer on the readings themselves

  ghost function DischargeReadings(rs: seq<Reading>, n: nat): set<int>
    requires n <= |rs|
  {
    set i | 0 <= i < n && rs[i].discharge.Some?
  }

  ghost function ChargeReadings(rs: seq<Reading>, n: nat): set<int>
    requires n <= |rs|
  {
    set i | 0 <= i < n && rs[i].charge.Some?
  }

  lemma DischargeReadingsGrow(rs: seq<Reading>, n: nat)
    requires n < |rs|
    ensures |DischargeReadings(rs, n + 1)| == |DischargeReadings(rs, n)| + (if rs[n].discharge.Some? then 1 else 0)
  {
    assert DischargeReadings(rs, n + 1) == DischargeReadings(rs, n) + (if rs[n].discharge.Some? then {n} else {});
  }

  lemma ChargeReadingsGrow(rs: seq<Reading>, n: nat)
    requires n < |rs|
    ensures |ChargeReadings(rs, n + 1)| == |ChargeReadings(rs, n)| + (if rs[n].charge.Some? then 1 else 0)
  {
    assert ChargeReadings(rs, n + 1) == ChargeReadings(rs, n) + (if rs[n].charge.Some? then {n} else {});
  }

  lemma {:induction false} KnownAreCounted(rs: seq<Reading>, n: nat)
    requires n <= |rs|
    ensures Known(rs[..n], Discharge) == |DischargeReadings(rs, n)|
    ensures Known(rs[..n], Charge) == |ChargeReadings(rs, n)|
  {
    if n == 0 {
      assert DischargeReadings(rs, n) == {} && ChargeReadings(rs, n) == {};
    } else {
      var r := rs[n - 1];
      KnownAreCounted(rs, n - 1);
      assert rs[..n] == rs[..n - 1] + [r];
      SnocKnown(rs[..n - 1], r);
      DischargeReadingsGrow(rs, n - 1);
      ChargeReadingsGrow(rs, n - 1);
    }
  }

  /** The counts of the footer: readings with a value, broken steps, and broken steps of each kind. */
  lemma FooterCounts(rs: seq<Reading>, rule: Rule)
    requires rule.maxSkew >= 0.0
    ensures var f, n := FooterOf(rs, rule), |rs|;
            && f.dischargeN == |DischargeReadings(rs, n)| && f.chargeN == |ChargeReadings(rs, n)|
            && f.discharge.discontinuities == f.charge.discontinuities == |BrokenSteps(rs, n, rule)|
            && f.kinds == [|StepsCalled(rs, n, SamplingGap, rule)|, |StepsCalled(rs, n, WallAheadOfMono, rule)|,
                           |StepsCalled(rs, n, MonoAheadOfWall, rule)|,
                           |StepsCalled(rs, n, ClockWentBackwards, rule)|]
  {
    assert rs[..|rs|] == rs;
    KnownAreCounted(rs, |rs|);
    DiscontinuitiesAreBrokenSteps(rs, |rs|, Discharge, rule);
    DiscontinuitiesAreBrokenSteps(rs, |rs|, Charge, rule);
    TallyIsStepsCalled(rs, |rs|, 0, SamplingGap, rule);
    TallyIsStepsCalled(rs, |rs|, 1, WallAheadOfMono, rule);
    TallyIsStepsCalled(rs, |rs|, 2, MonoAheadOfWall, rule);
    TallyIsStepsCalled(rs, |rs|, 3, ClockWentBackwards, rule);
  }

  /** The discharge follows a line in time, and there is no charge. */
  predicate DischargesAlong(rs: seq<Reading>, w: real, q: real) {
    forall i :: 0 <= i < |rs| ==>
      rs[i].discharge == Some(Line(w, q, rs[i].mono - rs[0].mono)) && rs[i].charge == None
  }

  predicate ChargesAlong(rs: seq<Reading>, w: real, q: real) {
    forall i :: 0 <= i < |rs| ==>
      rs[i].charge == Some(Line(w, q, rs[i].mono - rs[0].mono)) && rs[i].discharge == None
  }

  /** The footer of an unbroken session on battery: the area under the line as discharge, and no charge. */
  lemma FooterOfDischarge(rs: seq<Reading>, rule: Rule, w: real, q: real)
    requires rs != [] && rule.maxSkew >= 0.0 && AllUnbroken(rs, rule) && DischargesAlong(rs, w, q)
    ensures FooterOf(rs, rule) == Footer(Segment(RampWh(w, q, Span(rs)), Span(rs), 0.0, 0.0, 0),
                                         Segment(0.0, 0.0, Span(rs), 0.0, 0), [0, 0, 0, 0], |rs|, 0)
  {
    RampIsIntegrated(rs, Discharge, rule, w, q);
    SilenceIsUnknown(rs, Charge, rule);
    BoundariesAreTallied(rs, rule);
    AllOrNoneKnown(rs, Discharge, Charge);
  }

  /** And on the charger the other way round. */
  lemma FooterOfCharge(rs: seq<Reading>, rule: Rule, w: real, q: real)
    requires rs != [] && rule.maxSkew >= 0.0 && AllUnbroken(rs, rule) && ChargesAlong(rs, w, q)
    ensures FooterOf(rs, rule) == Footer(Segment(0.0, 0.0, Span(rs), 0.0, 0),
                                         Segment(RampWh(w, q, Span(rs)), Span(rs), 0.0, 0.0, 0), [0, 0, 0, 0], 0, |rs|)
  {
    RampIsIntegrated(rs, Charge, rule, w, q);
    SilenceIsUnknown(rs, Discharge, rule);
    BoundariesAreTallied(rs, rule);
    AllOrNoneKnown(rs, Charge, Discharge);
  }

  lemma {:induction false} AllOrNoneKnown(rs: seq<Reading>, all: Channel, none: Channel)
    requires forall i :: 0 <= i < |rs| ==> Watts(rs[i], all).Some? && Watts(rs[i], none).None?
    ensures Known(rs, all) == |rs| && Known(rs, none) == 0
    decreases |rs|
  {
    if rs != [] { AllOrNoneKnown(rs[..|rs| - 1], all, none); }
  }

  /** A step is within the gap if it is at most three intervals or at most five seconds; the clocks may part by two. */
  lemma GapRule(intervalMs: nat, secs: real)
    ensures secs <= RuleFor(intervalMs).maxGap <==> secs * 1000.0 <= (3 * intervalMs) as real || secs <= 5.0
    ensures RuleFor(intervalMs).maxSkew == 2.0
  {
  }

  /** What the presets allow: 15 s in low power, the floor of 5 s in deep, the interval's own gap otherwise. */
  lemma PresetGaps(intervalMs: nat)
    ensures RuleFor(EffectiveBaseInterval(Low, intervalMs)).maxGap == 15.0
    ensures RuleFor(EffectiveBaseInterval(Deep, intervalMs)).maxGap == 5.0
    ensures RuleFor(EffectiveBaseInterval(Normal, intervalMs)) == RuleFor(intervalMs)
  {
  }

  /** The interval used after a crash is the one written, and 1000 if the header has none that counts. */
  lemma IntervalIsReadBack(intervalMs: nat, header: Option<real>)
    ensures RecoveredInterval(Some(intervalMs as real)) == if intervalMs == 0 then 1000 else intervalMs
    ensures header.None? || header.value < 1.0 ==> RecoveredInterval(header) == 1000
    ensures header.Some? && header.value >= 1.0 ==>
              0.0 <= header.value - RecoveredInterval(header) as real < 1.0
  {
  }
}

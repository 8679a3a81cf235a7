/**
 Reals with the infinities and the not-a-number of f64: what the recovery arithmetic does with a reading that
 overflowed. On finite readings it is the real arithmetic of the energy model.
 */
module Extended {
  import opened Common
  import opened Energy
  import Summary

  datatype Ext = Fin(x: real) | Inf(negative: bool) | NaN

  const NIL := Fin(0.0)

  predicate Less(a: Ext, b: Ext) {
    if a.NaN? || b.NaN? then false
    else if a.Fin? && b.Fin? then a.x < b.x
    else if a.Inf? && b.Inf? then a.negative && !b.negative
    else if a.Inf? then a.negative
    else !b.negative
  }

  predicate LessEq(a: Ext, b: Ext) { Less(a, b) || (a == b && !a.NaN?) }

  function Add(a: Ext, b: Ext): Ext {
    if a.NaN? || b.NaN? then NaN
    else if a.Fin? && b.Fin? then Fin(a.x + b.x)
    else if a.Fin? then b
    else if b.Fin? || a == b then a
    else NaN
  }

  function Minus(a: Ext): Ext {
    match a
    case Fin(x) => Fin(-x)
    case Inf(negative) => Inf(!negative)
    case NaN => NaN
  }

  function Sub(a: Ext, b: Ext): Ext { if a.Fin? && b.Fin? then Fin(a.x - b.x) else Add(a, Minus(b)) }

  /** Product with a finite number. */
  function Scale(a: Ext, k: real): Ext {
    match a
    case Fin(x) => Fin(x * k)
    case Inf(negative) => if k == 0.0 then NaN else Inf(negative != (k < 0.0))
    case NaN => NaN
  }

  function Times(a: Ext, b: Ext): Ext {
    if a.NaN? || b.NaN? then NaN
    else if b.Fin? then Scale(a, b.x)
    else if a.Fin? then Scale(b, a.x)
    else Inf(a.negative != b.negative)
  }

  /** Quotient by something that is not at most zero. */
  function Over(a: Ext, b: Ext): Ext
    requires !LessEq(b, NIL)
  {
    if a.NaN? || b.NaN? then NaN
    else if b.Fin? then (if a.Fin? then Fin(a.x / b.x) else a)
    else if a.Fin? then NIL
    else NaN
  }

  /** The larger one; not-a-number loses. */
  function Larger(a: Ext, b: Ext): Ext {
    if a.NaN? then b else if b.NaN? then a else if Less(a, b) then b else a
  }

  // ---------------------------------------------------------------- readings and segments

  datatype ExtReading = ExtReading(mono: Ext, wall: Ext, discharge: Option<Ext>, charge: Option<Ext>)

  datatype ExtSegment = ExtSegment(energyWh: Ext, coveredSecs: Ext, unknownSecs: Ext, unobservedSecs: Ext,
                                   discontinuities: nat)

  function ExtWatts(r: ExtReading, c: Channel): Option<Ext> { if c.Discharge? then r.discharge else r.charge }

  function ExtWallStep(a: ExtReading, b: ExtReading): Option<Ext> {
    if Less(NIL, a.wall) && Less(NIL, b.wall) then Some(Sub(b.wall, a.wall)) else None
  }

  function ExtClassify(monoDt: Ext, wallDt: Option<Ext>, rule: Rule): Option<Kind> {
    if Less(monoDt, NIL) || (wallDt.Some? && Less(wallDt.value, NIL)) then Some(ClockWentBackwards)
    else if wallDt.Some? then
      var w := wallDt.value;
      if Less(Fin(rule.maxSkew), Sub(w, monoDt)) then Some(WallAheadOfMono)
      else if Less(Fin(rule.maxSkew), Sub(monoDt, w)) then Some(MonoAheadOfWall)
      else if Less(Fin(rule.maxGap), monoDt) || Less(Fin(rule.maxGap), w) then Some(SamplingGap)
      else None
    else if Less(Fin(rule.maxGap), monoDt) then Some(SamplingGap)
    else None
  }

  function ExtStepKind(a: ExtReading, b: ExtReading, rule: Rule): Option<Kind> {
    ExtClassify(Sub(b.mono, a.mono), ExtWallStep(a, b), rule)
  }

  function ExtUnobserved(a: ExtReading, b: ExtReading): Ext {
    var dt, w := Sub(b.mono, a.mono), ExtWallStep(a, b);
    Larger(if w.Some? then Larger(dt, w.value) else dt, NIL)
  }

  /** The trapezoid of two readings dt apart. */
  function ExtTrapezoid(a: Ext, b: Ext, dt: Ext): Ext {
    Over(Times(Scale(Add(a, b), 0.5), dt), Fin(3600.0))
  }

  function ExtPair(a: ExtReading, b: ExtReading, c: Channel, rule: Rule): ExtSegment {
    var dt := Sub(b.mono, a.mono);
    var x, y := ExtWatts(a, c), ExtWatts(b, c);
    if ExtStepKind(a, b, rule).Some? then
      ExtSegment(NIL, NIL, if Less(NIL, dt) then dt else NIL, ExtUnobserved(a, b), 1)
    else if x.Some? && y.Some? && LessEq(dt, Fin(rule.maxGap)) then
      ExtSegment(ExtTrapezoid(x.value, y.value, dt), dt, NIL, NIL, 0)
    else ExtSegment(NIL, NIL, dt, NIL, 0)
  }

  function ExtPlus(a: ExtSegment, b: ExtSegment): ExtSegment {
    ExtSegment(Add(a.energyWh, b.energyWh), Add(a.coveredSecs, b.coveredSecs), Add(a.unknownSecs, b.unknownSecs),
               Add(a.unobservedSecs, b.unobservedSecs), a.discontinuities + b.discontinuities)
  }

  const NO_SEGMENT := ExtSegment(NIL, NIL, NIL, NIL, 0)

  function ExtTotal(rs: seq<ExtReading>, c: Channel, rule: Rule): ExtSegment {
    if |rs| < 2 then NO_SEGMENT
    else ExtPlus(ExtTotal(rs[..|rs| - 1], c, rule), ExtPair(rs[|rs| - 2], rs[|rs| - 1], c, rule))
  }

  function ExtKindTally(rs: seq<ExtReading>, k: nat, rule: Rule): nat {
    if |rs| < 2 then 0
    else
      var step := ExtStepKind(rs[|rs| - 2], rs[|rs| - 1], rule);
      ExtKindTally(rs[..|rs| - 1], k, rule) + (if step.Some? && Index(step.value) == k then 1 else 0)
  }

  function ExtKnown(rs: seq<ExtReading>, c: Channel): nat {
    if rs == [] then 0
    else ExtKnown(rs[..|rs| - 1], c) + (if ExtWatts(rs[|rs| - 1], c).Some? then 1 else 0)
  }

  /** The evidence of the recovered footer, before printing. */
  datatype ExtFooter = ExtFooter(
    discharge: ExtSegment, charge: ExtSegment, kinds: seq<nat>, dischargeN: nat, chargeN: nat)

  function ExtFooterOf(rs: seq<ExtReading>, rule: Rule): ExtFooter {
    ExtFooter(ExtTotal(rs, Discharge, rule), ExtTotal(rs, Charge, rule),
              [ExtKindTally(rs, 0, rule), ExtKindTally(rs, 1, rule),
               ExtKindTally(rs, 2, rule), ExtKindTally(rs, 3, rule)],
              ExtKnown(rs, Discharge), ExtKnown(rs, Charge))
  }

  // ---------------------------------------------------------------- finite readings

  function LiftWatts(w: Option<real>): Option<Ext> { if w.Some? then Some(Fin(w.value)) else None }

  function Lift(r: Reading): ExtReading {
    ExtReading(Fin(r.mono), Fin(r.wall), LiftWatts(r.discharge), LiftWatts(r.charge))
  }

  function LiftAll(rs: seq<Reading>): (r: seq<ExtReading>)
    ensures |r| == |rs| && forall i :: 0 <= i < |rs| ==> r[i] == Lift(rs[i])
  {
    seq(|rs|, i requires 0 <= i < |rs| => Lift(rs[i]))
  }

  function LiftSegment(s: Segment): ExtSegment {
    ExtSegment(Fin(s.energyWh), Fin(s.coveredSecs), Fin(s.unknownSecs), Fin(s.unobservedSecs), s.discontinuities)
  }

  function LiftFooter(f: Summary.Footer): ExtFooter {
    ExtFooter(LiftSegment(f.discharge), LiftSegment(f.charge), f.kinds, f.dischargeN, f.chargeN)
  }

  lemma LiftedStep(a: Reading, b: Reading, rule: Rule)
    ensures ExtStepKind(Lift(a), Lift(b), rule) == StepKind(a, b, rule)
    ensures ExtUnobserved(Lift(a), Lift(b)) == Fin(Unobserved(a, b))
  {
  }

  lemma LiftedPair(a: Reading, b: Reading, c: Channel, rule: Rule)
    ensures ExtPair(Lift(a), Lift(b), c, rule) == LiftSegment(Pair(a, b, c, rule))
  {
    LiftedStep(a, b, rule);
    if StepKind(a, b, rule).None? {
      ContinuousPairIsInRange(a, b, rule);
      if Watts(a, c).Some? && Watts(b, c).Some? {
        LiftedTrapezoid(Watts(a, c).value, Watts(b, c).value, b.mono - a.mono, Pair(a, b, c, rule).energyWh);
      }
    }
  }

  lemma LiftedTrapezoid(x: real, y: real, dt: real, e: real)
    requires e == 0.5 * (x + y) * dt / 3600.0
    ensures ExtTrapezoid(Fin(x), Fin(y), Fin(dt)) == Fin(e)
  {
    assert (x + y) * 0.5 == 0.5 * (x + y);
  }

  lemma LiftedPlus(a: Segment, b: Segment)
    ensures ExtPlus(LiftSegment(a), LiftSegment(b)) == LiftSegment(Plus(a, b))
  {
  }

  lemma LiftedInit(rs: seq<Reading>)
    requires rs != []
    ensures LiftAll(rs)[..|rs| - 1] == LiftAll(rs[..|rs| - 1])
  {
  }

  lemma LiftedLast(es: seq<ExtReading>, t: Segment, a: Reading, b: Reading, c: Channel, rule: Rule)
    requires |es| >= 2 && es[|es| - 2] == Lift(a) && es[|es| - 1] == Lift(b)
    requires ExtTotal(es[..|es| - 1], c, rule) == LiftSegment(t)
    ensures ExtTotal(es, c, rule) == LiftSegment(Plus(t, Pair(a, b, c, rule)))
  {
    LiftedPair(a, b, c, rule);
    LiftedPlus(t, Pair(a, b, c, rule));
  }

  lemma {:induction false} LiftedTotal(rs: seq<Reading>, c: Channel, rule: Rule)
    ensures ExtTotal(LiftAll(rs), c, rule) == LiftSegment(Total(rs, c, rule))
    decreases |rs|
  {
    if |rs| >= 2 {
      LiftedInit(rs);
      LiftedTotal(rs[..|rs| - 1], c, rule);
      LiftedLast(LiftAll(rs), Total(rs[..|rs| - 1], c, rule), rs[|rs| - 2], rs[|rs| - 1], c, rule);
    }
  }

  lemma {:induction false} LiftedTally(rs: seq<Reading>, k: nat, rule: Rule)
    ensures ExtKindTally(LiftAll(rs), k, rule) == KindTally(rs, k, rule)
    decreases |rs|
  {
    if |rs| >= 2 {
      LiftedInit(rs);
      LiftedTally(rs[..|rs| - 1], k, rule);
      LiftedStep(rs[|rs| - 2], rs[|rs| - 1], rule);
    }
  }

  lemma {:induction false} LiftedKnown(rs: seq<Reading>, c: Channel)
    ensures ExtKnown(LiftAll(rs), c) == Known(rs, c)
    decreases |rs|
  {
    if rs != [] {
      LiftedInit(rs);
      LiftedKnown(rs[..|rs| - 1], c);
    }
  }

  /** On finite readings the extended footer is the reference footer. */
  lemma LiftedFooter(rs: seq<Reading>, rule: Rule)
    ensures ExtFooterOf(LiftAll(rs), rule) == LiftFooter(Summary.FooterOf(rs, rule))
  {
    LiftedTotal(rs, Discharge, rule);
    LiftedTotal(rs, Charge, rule);
    LiftedKnown(rs, Discharge);
    LiftedKnown(rs, Charge);
    forall k: nat | k < 4 ensures ExtKindTally(LiftAll(rs), k, rule) == KindTally(rs, k, rule)
    {
      LiftedTally(rs, k, rule);
    }
  }
}

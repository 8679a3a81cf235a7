/** The records of a session log as JSON values, and how one line of a log is classified. */
module Records {
  import opened Common
  import opened Extended
  import opened Json
  import opened Numbers
  import opened Report
  import opened Text

  // ---------------------------------------------------------------- reading a value

  function Find(pairs: seq<(string, JVal)>, key: string): Option<JVal> {
    if pairs == [] then None else if pairs[0].0 == key then Some(pairs[0].1) else Find(pairs[1..], key)
  }

  /** The first member with this key. */
  function Get(v: JVal, key: string): Option<JVal> { if v.Obj? then Find(v.pairs, key) else None }

  function StrAt(v: JVal, key: string): Option<string> {
    var m := Get(v, key);
    if m.Some? && m.value.Str? then Some(m.value.s) else None
  }

  function NumOf(v: JVal): Option<real> { if v.Num? then Some(NumeralValue(v.n)) else None }

  function NumAt(v: JVal, key: string): Option<real> {
    var m := Get(v, key);
    if m.Some? then NumOf(m.value) else None
  }

  /** A cast to u64: truncation, clamped at both ends. */
  function AsU64(x: real): nat {
    if x <= 0.0 then 0 else if x.Floor > U64_MAX then U64_MAX else x.Floor
  }

  // ---------------------------------------------------------------- classifying a line

  datatype Line = Empty | Bad | Footer | Other | Record(v: JVal)

  function Type(v: JVal): string {
    var t := StrAt(v, "type");
    if t.Some? then t.value else ""
  }

  predicate IsHeader(v: JVal) { Type(v) == "session_header" }

  predicate IsSample(v: JVal) { StrAt(v, "collector").Some? }

  function ClassOf(v: JVal): Line {
    if Type(v) == "session_footer" then Footer
    else if IsSample(v) || Type(v) == "event" || IsHeader(v) then Record(v)
    else Other
  }

  /** What recovery makes of one line of a log. */
  function Classify(line: string): Line {
    if Trim(line) == [] then Empty
    else
      match Parse(Trim(line))
      case None => Bad
      case Some(v) => ClassOf(v)
  }

  /** The f64 a token is read as. */
  function ExtOf(n: Numeral): Ext { if Overflows(n) then Inf(n.negative) else Fin(NumeralValue(n)) }

  function ExtAt(v: JVal, key: string): Option<Ext> {
    var m := Get(v, key);
    if m.Some? && m.value.Num? then Some(ExtOf(m.value.n)) else None
  }

  /** Milliseconds of a member as seconds, zero if missing. */
  function SecondsAt(v: JVal, key: string): Ext {
    var m := ExtAt(v, key);
    if m.None? then NIL else if m.value.Fin? then Fin(m.value.x / 1000.0) else m.value
  }

  /** The battery reading a record carries, if it is one. */
  function ReadingOf(v: JVal): Option<ExtReading> {
    if StrAt(v, "collector") != Some("battery") then None
    else Some(ExtReading(SecondsAt(v, "mono_ms"), SecondsAt(v, "wall_ms"),
                         Channel(v, "discharge_w"), Channel(v, "charge_w")))
  }

  function Channel(v: JVal, key: string): Option<Ext> {
    var m := Get(v, key);
    if m.Some? then ExtAt(m.value, "v") else None
  }

  // ---------------------------------------------------------------- the records the writer emits

  function HeaderRecord(wall: nat, version: string, interval: nat, note: string): JVal {
    Obj([("type", Str("session_header")), ("wall_ms", Nat(wall)), ("tool", Str("power-forensics")),
         ("version", Str(version)), ("format", Str("pf-jsonl-2")), ("interval_ms", Nat(interval)), ("note", Str(note))])
  }

  function EventRecord(wall: nat, mono: nat, kind: string, detail: string): JVal {
    Obj([("type", Str("event")), ("wall_ms", Nat(wall)), ("mono_ms", Nat(mono)), ("kind", Str(kind)),
         ("detail", Str(detail))])
  }

  function FooterRecord(wall: nat, lines: nat, summary: JVal): JVal {
    Obj([("type", Str("session_footer")), ("wall_ms", Nat(wall)), ("lines", Nat(lines)), ("summary", summary)])
  }

  function RecoveredFooterRecord(wall: nat, lines: nat, summary: JVal): JVal {
    Obj([("type", Str("session_footer")), ("wall_ms", Nat(wall)), ("lines", Nat(lines)), ("recovered", Bool(true)),
         ("summary", summary)])
  }

  // ---------------------------------------------------------------- what a written line looks like

  /** One line of ink from brace to brace that reads as an object. */
  predicate WrittenLine(l: string) {
    && OneLine(l) && |l| >= 2 && l[0] == '{' && l[|l| - 1] == '}'
    && Parse(l).Some? && Parse(l).value.Obj?
  }

  /** No control character appears. */
  predicate Printable(s: string) { forall i :: 0 <= i < |s| ==> s[i] >= ' ' }

  lemma {:induction false} EscapeIsPrintable(s: string)
    ensures Printable(EscapeJson(s))
  {
    if s != [] { EscapeIsPrintable(s[1..]); }
  }

  lemma QuoteIsPrintable(s: string)
    ensures Printable(Quote(s))
  {
    EscapeIsPrintable(s);
  }

  lemma DigitsArePrintable(d: string)
    requires AllDigits(d)
    ensures Printable(d)
  {
    forall i | 0 <= i < |d| ensures d[i] >= ' ' { assert IsDigit(d[i]); }
  }

  lemma NumeralIsPrintable(n: Numeral)
    requires IsNumeral(n) || IsOdd(n)
    ensures Printable(NumeralText(n))
  {
    if IsOdd(n) { return; }
    DigitsArePrintable(n.whole);
    DigitsArePrintable(OrEmpty(n.fraction));
    if n.exponent.Exponent? { DigitsArePrintable(n.exponent.digits); }
  }

  /** A written value holds no newline or other control character, whatever its strings hold. */
  lemma {:induction false} WriteIsPrintable(v: JVal)
    requires Spelled(v)
    ensures Printable(Write(v))
    decreases v, 1, 0
  {
    match v
    case Num(n) => NumeralIsPrintable(n);
    case Str(s) => QuoteIsPrintable(s);
    case Arr(items) => ItemsArePrintable(items, 0);
    case Obj(pairs) => PairsArePrintable(pairs, 0);
    case _ =>
  }

  lemma {:induction false} ItemsArePrintable(items: seq<JVal>, k: nat)
    requires k <= |items| && forall i :: 0 <= i < |items| ==> Spelled(items[i])
    ensures Printable(WriteItems(items, k))
    decreases items, 0, |items| - k
  {
    if k < |items| {
      WriteIsPrintable(items[k]);
      ItemsArePrintable(items, k + 1);
    }
  }

  lemma {:induction false} PairsArePrintable(pairs: seq<(string, JVal)>, k: nat)
    requires k <= |pairs| && forall i :: 0 <= i < |pairs| ==> Spelled(pairs[i].1)
    ensures Printable(WritePairs(pairs, k))
    decreases pairs, 0, |pairs| - k
  {
    if k < |pairs| {
      PairIsPrintable(pairs[k]);
      PairsArePrintable(pairs, k + 1);
    }
  }

  lemma {:induction false} PairIsPrintable(p: (string, JVal))
    requires Spelled(p.1)
    ensures Printable(WritePair(p))
    decreases p, 0, 0
  {
    QuoteIsPrintable(p.0);
    WriteIsPrintable(p.1);
  }

  /** Every object within the nesting cap is written as one line that reads back as that object. */
  lemma WrittenObject(v: JVal)
    requires v.Obj? && WellFormed(v) && Fits(v, 0)
    ensures WrittenLine(Write(v)) && Parse(Write(v)) == Some(v)
  {
    WellFormedIsSpelled(v);
    WriteIsPrintable(v);
    WrittenParses(v);
  }

  lemma WrittenLineIsSolid(l: string)
    requires WrittenLine(l)
    ensures Trim(l) == l && StripCr(l) == l && Classify(l) == ClassOf(Parse(l).value)
  {
    TrimKeepsSolid(l);
  }

  /** A written line cut anywhere inside is either nothing or not a record at all. */
  lemma TornLineIsBad(l: string, k: nat)
    requires WrittenLine(l) && 0 < k < |l|
    ensures Classify(l[..k]) == Bad
  {
    TrimIsPrefix(l[..k]);
    var m := |Trim(l[..k])|;
    assert Trim(l[..k]) == l[..m];
    assert l[..m] + l[m..] == l;
    TornTextIsRejected(l[..m], l[m..]);
  }

  // ---------------------------------------------------------------- the writer's own records

  lemma {:induction false} FindAt(pairs: seq<(string, JVal)>, i: nat)
    requires i < |pairs| && forall j :: 0 <= j < i ==> pairs[j].0 != pairs[i].0
    ensures Find(pairs, pairs[i].0) == Some(pairs[i].1)
  {
    if i > 0 { FindAt(pairs[1..], i - 1); }
  }

  lemma {:induction false} FindNothing(pairs: seq<(string, JVal)>, key: string)
    requires forall j :: 0 <= j < |pairs| ==> pairs[j].0 != key
    ensures Find(pairs, key) == None
  {
    if pairs != [] { FindNothing(pairs[1..], key); }
  }

  predicate Lacks(pairs: Fields, key: string) { forall j :: 0 <= j < |pairs| ==> pairs[j].0 != key }

  /** Looking through two parts: the first that has the key decides. */
  lemma {:induction false} FindInParts(a: Fields, b: Fields, key: string)
    ensures Lacks(a, key) ==> Find(a + b, key) == Find(b, key)
    ensures Find(a, key).Some? ==> Find(a + b, key) == Find(a, key)
  {
    if a == [] {
      assert a + b == b;
    } else {
      FindInParts(a[1..], b, key);
      assert (a + b)[1..] == a[1..] + b;
    }
  }

  lemma TypeIs(v: JVal, t: string)
    requires v.Obj? && v.pairs != [] && v.pairs[0] == ("type", Str(t))
    ensures Type(v) == t
  {
  }

  lemma RecordLine(v: JVal, t: string)
    requires v.Obj? && WellFormed(v) && Fits(v, 0) && v.pairs != [] && v.pairs[0] == ("type", Str(t))
    ensures WrittenLine(Write(v)) && Parse(Write(v)) == Some(v) && Type(v) == t && Classify(Write(v)) == ClassOf(v)
  {
    TypeIs(v, t);
    WrittenObject(v);
    WrittenLineIsSolid(Write(v));
  }

  lemma HeaderFields(wall: nat, version: string, interval: nat, note: string)
    ensures var v := HeaderRecord(wall, version, interval, note);
            NumAt(v, "wall_ms") == Some(wall as real) && NumAt(v, "interval_ms") == Some(interval as real)
  {
    var v := HeaderRecord(wall, version, interval, note);
    NatNumeralValue(wall);
    NatNumeralValue(interval);
    FindAt(v.pairs, 1);
    FindAt(v.pairs, 5);
  }

  /** A header reads back as a header with its wall clock and interval, whatever the version and note hold. */
  lemma HeaderReads(wall: nat, version: string, interval: nat, note: string)
    ensures var v := HeaderRecord(wall, version, interval, note);
            && WrittenLine(Write(v)) && Parse(Write(v)) == Some(v) && Classify(Write(v)) == Record(v)
            && IsHeader(v)
            && NumAt(v, "wall_ms") == Some(wall as real)
            && NumAt(v, "interval_ms") == Some(interval as real)
  {
    NatNumeralValue(wall);
    NatNumeralValue(interval);
    HeaderFields(wall, version, interval, note);
    RecordLine(HeaderRecord(wall, version, interval, note), "session_header");
  }

  lemma EventFields(wall: nat, mono: nat, kind: string, detail: string)
    ensures var v := EventRecord(wall, mono, kind, detail);
            && NumAt(v, "wall_ms") == Some(wall as real) && NumAt(v, "mono_ms") == Some(mono as real)
            && StrAt(v, "kind") == Some(kind) && StrAt(v, "detail") == Some(detail)
  {
    var v := EventRecord(wall, mono, kind, detail);
    NatNumeralValue(wall);
    NatNumeralValue(mono);
    FindAt(v.pairs, 1);
    FindAt(v.pairs, 2);
    FindAt(v.pairs, 3);
    FindAt(v.pairs, 4);
  }

  /** An event reads back as an event, whatever its kind and detail hold: no text can forge a record. */
  lemma EventReads(wall: nat, mono: nat, kind: string, detail: string)
    ensures var v := EventRecord(wall, mono, kind, detail);
            && WrittenLine(Write(v)) && Parse(Write(v)) == Some(v) && Classify(Write(v)) == Record(v) && !IsHeader(v)
            && NumAt(v, "wall_ms") == Some(wall as real) && NumAt(v, "mono_ms") == Some(mono as real)
            && StrAt(v, "kind") == Some(kind) && StrAt(v, "detail") == Some(detail)
  {
    NatNumeralValue(wall);
    NatNumeralValue(mono);
    EventFields(wall, mono, kind, detail);
    RecordLine(EventRecord(wall, mono, kind, detail), "event");
  }

  /** The clean footer is recognised as a footer, for any well-formed summary. */
  lemma FooterReads(wall: nat, lines: nat, summary: JVal)
    requires WellFormed(summary) && Fits(summary, 1)
    ensures var v := FooterRecord(wall, lines, summary); WrittenLine(Write(v)) && Classify(Write(v)) == Footer
  {
    NatNumeralValue(wall);
    NatNumeralValue(lines);
    RecordLine(FooterRecord(wall, lines, summary), "session_footer");
  }

  /** So is the reconstructed one if its summary is JSON; otherwise it reads as a torn line. */
  lemma RecoveredFooterReads(wall: nat, lines: nat, summary: JVal)
    requires Spelled(summary)
    ensures var l := Write(RecoveredFooterRecord(wall, lines, summary));
            && OneLine(l)
            && (Fits(summary, 1) ==> Classify(l) == Footer)
            && (!Fits(summary, 1) ==> Classify(l) == Bad)
  {
    var v := RecoveredFooterRecord(wall, lines, summary);
    RecoveredFooterFits(wall, lines, summary);
    WriteIsPrintable(v);
    WrittenParses(v);
    TrimKeepsSolid(Write(v));
    TypeIs(v, "session_footer");
  }

  lemma RecoveredFooterFits(wall: nat, lines: nat, summary: JVal)
    requires Spelled(summary)
    ensures var v := RecoveredFooterRecord(wall, lines, summary); Spelled(v) && (Fits(v, 0) <==> Fits(summary, 1))
  {
    NatNumeralValue(wall);
    NatNumeralValue(lines);
    var v := RecoveredFooterRecord(wall, lines, summary);
    assert Fits(v, 0) ==> Fits(v.pairs[4].1, 1);
  }

  // ---------------------------------------------------------------- records without a reading

  lemma HeaderIsNoReading(wall: nat, version: string, interval: nat, note: string)
    ensures ReadingOf(HeaderRecord(wall, version, interval, note)) == None
  {
    FindNothing(HeaderRecord(wall, version, interval, note).pairs, "collector");
  }

  lemma EventIsNoReading(wall: nat, mono: nat, kind: string, detail: string)
    ensures ReadingOf(EventRecord(wall, mono, kind, detail)) == None
  {
    FindNothing(EventRecord(wall, mono, kind, detail).pairs, "collector");
  }

  // ---------------------------------------------------------------- the battery record

  /** The envelope of a reading: its value, or null with the reason for its absence. */
  function Envelope(n: Option<Numeral>, rest: Fields): JVal {
    Obj([("v", if n.Some? then Num(n.value) else Null)] + rest)
  }

  /** A battery sample, with whatever other fields the collector adds between and behind. */
  function BatteryRecord(wall: nat, mono: nat, mid: Fields, discharge: JVal, charge: JVal, tail: Fields): JVal {
    Obj([("collector", Str("battery")), ("wall_ms", Nat(wall)), ("mono_ms", Nat(mono))]
        + mid + [("discharge_w", discharge), ("charge_w", charge)] + tail)
  }

  lemma BatteryClocks(wall: nat, mono: nat, rest: Fields)
    ensures var ps := [("collector", Str("battery")), ("wall_ms", Nat(wall)), ("mono_ms", Nat(mono))] + rest;
            && Find(ps, "collector") == Some(Str("battery"))
            && Find(ps, "wall_ms") == Some(Nat(wall)) && Find(ps, "mono_ms") == Some(Nat(mono))
            && Find(ps, "discharge_w") == Find(rest, "discharge_w") && Find(ps, "charge_w") == Find(rest, "charge_w")
  {
    var head: Fields := [("collector", Str("battery")), ("wall_ms", Nat(wall)), ("mono_ms", Nat(mono))];
    FindAt(head, 0);
    FindAt(head, 1);
    FindAt(head, 2);
    FindInParts(head, rest, "collector");
    FindInParts(head, rest, "wall_ms");
    FindInParts(head, rest, "mono_ms");
    FindInParts(head, rest, "discharge_w");
    FindInParts(head, rest, "charge_w");
  }

  lemma BatteryChannels(mid: Fields, discharge: JVal, charge: JVal, tail: Fields)
    requires Lacks(mid, "discharge_w") && Lacks(mid, "charge_w")
    ensures var ps := mid + ([("discharge_w", discharge), ("charge_w", charge)] + tail);
            Find(ps, "discharge_w") == Some(discharge) && Find(ps, "charge_w") == Some(charge)
  {
    var two: Fields := [("discharge_w", discharge), ("charge_w", charge)];
    FindAt(two, 0);
    FindAt(two, 1);
    FindInParts(two, tail, "discharge_w");
    FindInParts(two, tail, "charge_w");
    FindInParts(mid, two + tail, "discharge_w");
    FindInParts(mid, two + tail, "charge_w");
  }

  lemma EnvelopeReads(n: Option<Numeral>, rest: Fields)
    ensures ExtAt(Envelope(n, rest), "v") == if n.Some? then Some(ExtOf(n.value)) else None
  {
    FindAt(Envelope(n, rest).pairs, 0);
  }

  /** A stamp of 64 bits is read exactly. */
  lemma StampReads(ms: nat)
    requires ms <= U64_MAX
    ensures ExtOf(NatNumeral(ms)) == Fin(ms as real)
  {
    NatNumeralValue(ms);
    assert F64_LIMIT > U64_MAX as real;
  }

  lemma ReadingFrom(v: JVal, wall: nat, mono: nat)
    requires StrAt(v, "collector") == Some("battery") && wall <= U64_MAX && mono <= U64_MAX
    requires Get(v, "wall_ms") == Some(Nat(wall)) && Get(v, "mono_ms") == Some(Nat(mono))
    ensures ReadingOf(v) == Some(ExtReading(Fin(mono as real / 1000.0), Fin(wall as real / 1000.0),
                                            Channel(v, "discharge_w"), Channel(v, "charge_w")))
  {
    StampReads(wall);
    StampReads(mono);
  }

  /**
   A battery record reads as its reading: both clocks in seconds, discharge and charge from their own envelopes, an
   absent value as none.
   */
  lemma BatteryRecordReads(wall: nat, mono: nat, mid: Fields, discharge: Option<Numeral>, d: Fields,
                           charge: Option<Numeral>, c: Fields, tail: Fields)
    requires wall <= U64_MAX && mono <= U64_MAX && Lacks(mid, "discharge_w") && Lacks(mid, "charge_w")
    ensures var v := BatteryRecord(wall, mono, mid, Envelope(discharge, d), Envelope(charge, c), tail);
            ReadingOf(v) == Some(ExtReading(Fin(mono as real / 1000.0), Fin(wall as real / 1000.0),
                                            if discharge.Some? then Some(ExtOf(discharge.value)) else None,
                                            if charge.Some? then Some(ExtOf(charge.value)) else None))
  {
    var e, g := Envelope(discharge, d), Envelope(charge, c);
    var head: Fields := [("collector", Str("battery")), ("wall_ms", Nat(wall)), ("mono_ms", Nat(mono))];
    var two: Fields := [("discharge_w", e), ("charge_w", g)];
    assert head + mid + two + tail == head + (mid + (two + tail));
    BatteryClocks(wall, mono, mid + (two + tail));
    BatteryChannels(mid, e, g, tail);
    EnvelopeReads(discharge, d);
    EnvelopeReads(charge, c);
    ReadingFrom(BatteryRecord(wall, mono, mid, e, g, tail), wall, mono);
  }
}

/**
 Rebuilding a session whose footer is missing: salvage the leading records, stop at the first line that is torn
 or unknown, and append a footer computed from what was kept.
 */
module Recovery {
  import opened Common
  import opened Extended
  import opened Footers
  import opened Json
  import opened Numbers
  import opened Records
  import opened Report
  import opened Text
  import Energy
  import Summary

  datatype RecoverError = AlreadyHasFooter | NoHeader

  /** How lines are read; recovery uses Classify. */
  type Reader = string -> Line

  // ---------------------------------------------------------------- the specification

  /** The records before the first line that is neither blank nor a record. */
  function Salvage(lines: seq<string>, read: Reader): seq<string> {
    if lines == [] then []
    else if read(lines[0]).Empty? then Salvage(lines[1..], read)
    else if read(lines[0]).Record? then [lines[0]] + Salvage(lines[1..], read)
    else []
  }

  /** That first other line is a footer. */
  predicate EndsInFooter(lines: seq<string>, read: Reader) {
    lines != [] &&
    if read(lines[0]).Empty? || read(lines[0]).Record? then EndsInFooter(lines[1..], read)
    else read(lines[0]).Footer?
  }

  predicate HeaderLine(l: Line) { l.Record? && IsHeader(l.v) }

  predicate HasHeader(kept: seq<string>, read: Reader) { exists i :: 0 <= i < |kept| && HeaderLine(read(kept[i])) }

  function NatMax(a: nat, b: nat): nat { if a < b then b else a }

  function WallOf(l: Line): nat {
    var w := if l.Record? then NumAt(l.v, "wall_ms") else None;
    if w.Some? then AsU64(w.value) else 0
  }

  /** The largest wall stamp of the kept records. */
  function LastWall(kept: seq<string>, read: Reader): nat {
    if kept == [] then 0 else NatMax(LastWall(kept[..|kept| - 1], read), WallOf(read(kept[|kept| - 1])))
  }

  function IntervalOf(l: Line): (iv: Option<nat>)
    ensures iv.Some? ==> iv.value >= 1
  {
    var iv := if HeaderLine(l) then NumAt(l.v, "interval_ms") else None;
    if iv.Some? && iv.value >= 1.0 then Some(AsU64(iv.value)) else None
  }

  /** The interval of the last header that has one. */
  function Interval(kept: seq<string>, read: Reader): (iv: nat)
    ensures iv >= 1
  {
    if kept == [] then 1000
    else
      var iv := IntervalOf(read(kept[|kept| - 1]));
      if iv.Some? then iv.value else Interval(kept[..|kept| - 1], read)
  }

  function Readings(kept: seq<string>, read: Reader): seq<ExtReading> {
    if kept == [] then []
    else Readings(kept[..|kept| - 1], read) + BatteryOf(read(kept[|kept| - 1]))
  }

  function BatteryOf(l: Line): seq<ExtReading> {
    if l.Record? && ReadingOf(l.v).Some? then [ReadingOf(l.v).value] else []
  }

  /** The evidence of the footer: the reference footer of the battery readings under the recorded interval. */
  function Evidence(kept: seq<string>, read: Reader): (f: ExtFooter)
    ensures |f.kinds| == 4
  {
    ExtFooterOf(Readings(kept, read), Summary.RuleFor(Interval(kept, read)))
  }

  /** The footer recovery appends to these records. */
  function RebuiltFooter(kept: seq<string>, now: nat, read: Reader): JVal {
    var wall := if LastWall(kept, read) > 0 then LastWall(kept, read) else now;
    RecoveredFooterRecord(wall, |kept| + 1, SummaryRecord(Readings(kept, read), Evidence(kept, read)))
  }

  function Recover(original: string, now: nat, read: Reader): Result<string, RecoverError> {
    var lines := Lines(original);
    var kept := Salvage(lines, read);
    if EndsInFooter(lines, read) then Err(AlreadyHasFooter)
    else if !HasHeader(kept, read) then Err(NoHeader)
    else Ok(Join(kept) + "\n" + Write(RebuiltFooter(kept, now, read)) + "\n")
  }

  // ---------------------------------------------------------------- the code

  method RecoverSessionText(original: string, now: nat) returns (r: Result<string, RecoverError>)
    ensures r == Recover(original, now, Classify)
  {
    r := RecoverWith(original, now, Classify);
  }

  /** What the scan knows of the records it has kept. */
  datatype Scan = Scan(kept: seq<string>, hasHeader: bool, lastWall: nat, interval: nat)

  function ScanOf(kept: seq<string>, read: Reader): Scan {
    Scan(kept, HasHeader(kept, read), LastWall(kept, read), Interval(kept, read))
  }

  method RecoverWith(original: string, now: nat, read: Reader) returns (r: Result<string, RecoverError>)
    ensures r == Recover(original, now, read)
  {
    var s := ScanLines(Lines(original), read);
    if s.Err? { return Err(s.error); }
    if !s.value.hasHeader { return Err(NoHeader); }
    var kept, lastWall := s.value.kept, s.value.lastWall;
    var wall := if lastWall > 0 then lastWall else now;
    var rs := CollectReadings(kept, read);
    var f := Integrate(rs, s.value.interval);
    r := Ok(Join(kept) + "\n" + Write(RecoveredFooterRecord(wall, |kept| + 1, SummaryRecord(rs, f))) + "\n");
  }

  /** Finite readings go through the batch integrator; a reading that overflowed takes the extended arithmetic. */
  method Integrate(rs: seq<ExtReading>, interval: nat) returns (f: ExtFooter)
    requires interval >= 1
    ensures f == ExtFooterOf(rs, Summary.RuleFor(interval))
  {
    var finite := Lower(rs);
    if finite.Some? {
      LiftedFooter(finite.value, Summary.RuleFor(interval));
      var g := Summary.RecoverFooter(finite.value, Some(interval as real));
      f := LiftFooter(g);
    } else {
      f := ExtFooterOf(rs, Summary.RuleFor(interval));
    }
  }

  method Lower(rs: seq<ExtReading>) returns (r: Option<seq<Energy.Reading>>)
    ensures r.Some? ==> LiftAll(r.value) == rs
  {
    var out: seq<Energy.Reading> := [];
    for i := 0 to |rs|
      invariant LiftAll(out) == rs[..i]
    {
      var x := rs[i];
      if !FiniteReading(x) { return None; }
      out := out + [LowerReading(x)];
      assert LiftAll(out) == LiftAll(out[..i]) + [x];
    }
    assert rs[..|rs|] == rs;
    return Some(out);
  }

  predicate FiniteReading(r: ExtReading) {
    r.mono.Fin? && r.wall.Fin? && FiniteOrNone(r.discharge) && FiniteOrNone(r.charge)
  }

  function LowerReading(r: ExtReading): (x: Energy.Reading)
    requires FiniteReading(r)
    ensures Lift(x) == r
  {
    Energy.Reading(r.mono.x, r.wall.x, if r.discharge.Some? then Some(r.discharge.value.x) else None,
                   if r.charge.Some? then Some(r.charge.value.x) else None)
  }

  method ScanLines(lines: seq<string>, read: Reader) returns (r: Result<Scan, RecoverError>)
    ensures r == if EndsInFooter(lines, read) then Err(AlreadyHasFooter) else Ok(ScanOf(Salvage(lines, read), read))
  {
    var s := Scan([], false, 0, 1000);
    var i := 0;
    assert lines[0..] == lines;
    while i < |lines|
      invariant i <= |lines|
      invariant Salvages(lines, i, s.kept, read)
      invariant s == ScanOf(s.kept, read)
    {
      var l := read(lines[i]);
      ScanStep(lines, i, s.kept, read);
      if l.Footer? { return Err(AlreadyHasFooter); }
      if l.Bad? || l.Other? { return Ok(s); }
      if l.Record? { s := Keep(s, lines[i], l.v, read); }
      i := i + 1;
    }
    SalvageEnds(lines, s.kept, read);
    return Ok(s);
  }

  /** After the first i lines these are kept and the rest decides. */
  ghost predicate Salvages(lines: seq<string>, i: nat, kept: seq<string>, read: Reader)
    requires i <= |lines|
  {
    && Salvage(lines, read) == kept + Salvage(lines[i..], read)
    && EndsInFooter(lines, read) == EndsInFooter(lines[i..], read)
  }

  lemma SalvageEnds(lines: seq<string>, kept: seq<string>, read: Reader)
    requires Salvages(lines, |lines|, kept, read)
    ensures Salvage(lines, read) == kept && !EndsInFooter(lines, read)
  {
    assert lines[|lines|..] == [];
  }

  lemma ScanStep(lines: seq<string>, i: nat, kept: seq<string>, read: Reader)
    requires i < |lines| && Salvages(lines, i, kept, read)
    ensures read(lines[i]).Empty? ==> Salvages(lines, i + 1, kept, read)
    ensures read(lines[i]).Record? ==> Salvages(lines, i + 1, kept + [lines[i]], read)
    ensures read(lines[i]).Footer? ==> EndsInFooter(lines, read)
    ensures read(lines[i]).Bad? || read(lines[i]).Other? ==> Salvage(lines, read) == kept && !EndsInFooter(lines, read)
  {
    assert lines[i..][1..] == lines[i + 1..];
    assert kept + [lines[i]] + Salvage(lines[i + 1..], read) == kept + ([lines[i]] + Salvage(lines[i + 1..], read));
  }

  method Keep(s: Scan, line: string, v: JVal, read: Reader) returns (t: Scan)
    requires s == ScanOf(s.kept, read) && read(line) == Record(v)
    ensures t == ScanOf(s.kept + [line], read)
  {
    KeepStep(s.kept, line, read);
    var hasHeader, lastWall, interval := s.hasHeader, s.lastWall, s.interval;
    if IsHeader(v) {
      hasHeader := true;
      var iv := NumAt(v, "interval_ms");
      if iv.Some? && iv.value >= 1.0 { interval := AsU64(iv.value); }
    }
    var w := NumAt(v, "wall_ms");
    if w.Some? && w.value > 0.0 { lastWall := NatMax(lastWall, AsU64(w.value)); }
    t := Scan(s.kept + [line], hasHeader, lastWall, interval);
  }

  method CollectReadings(kept: seq<string>, read: Reader) returns (rs: seq<ExtReading>)
    ensures rs == Readings(kept, read)
  {
    rs := [];
    for i := 0 to |kept|
      invariant rs == Readings(kept[..i], read)
    {
      assert kept[..i + 1][..i] == kept[..i];
      var l := read(kept[i]);
      if l.Record? {
        var r := ReadingOf(l.v);
        if r.Some? { rs := rs + [r.value]; }
      }
    }
    assert kept[..|kept|] == kept;
  }

  lemma KeepStep(kept: seq<string>, line: string, read: Reader)
    ensures HasHeader(kept + [line], read) <==> HasHeader(kept, read) || HeaderLine(read(line))
    ensures LastWall(kept + [line], read) == NatMax(LastWall(kept, read), WallOf(read(line)))
    ensures Interval(kept + [line], read) ==
      if IntervalOf(read(line)).Some? then IntervalOf(read(line)).value else Interval(kept, read)
  {
    assert (kept + [line])[..|kept|] == kept;
    if HasHeader(kept, read) {
      var i :| 0 <= i < |kept| && HeaderLine(read(kept[i]));
      assert HeaderLine(read((kept + [line])[i]));
    }
    if HeaderLine(read(line)) { assert HeaderLine(read((kept + [line])[|kept|])); }
  }

  // ---------------------------------------------------------------- what recovery promises

  ghost predicate AllRecords(lines: seq<string>, read: Reader) {
    forall i :: 0 <= i < |lines| ==> read(lines[i]).Record?
  }

  lemma {:induction false} SalvageTakesRecords(lines: seq<string>, rest: seq<string>, read: Reader)
    requires AllRecords(lines, read)
    ensures Salvage(lines + rest, read) == lines + Salvage(rest, read)
    ensures EndsInFooter(lines + rest, read) == EndsInFooter(rest, read)
  {
    if lines == [] {
      assert lines + rest == rest;
    } else {
      SalvageTakesRecords(lines[1..], rest, read);
      assert (lines + rest)[1..] == lines[1..] + rest;
      assert lines + Salvage(rest, read) == [lines[0]] + (lines[1..] + Salvage(rest, read));
    }
  }

  /** Only records are kept, each a line of the input. */
  lemma {:induction false} SalvageKeepsRecords(lines: seq<string>, read: Reader)
    ensures AllRecords(Salvage(lines, read), read)
    ensures forall i :: 0 <= i < |Salvage(lines, read)| ==> Salvage(lines, read)[i] in lines
  {
    if lines != [] { SalvageKeepsRecords(lines[1..], read); }
  }

  /** A line recovery passes over or keeps. */
  predicate Goes(l: Line) { l.Empty? || l.Record? }

  /** The records among these lines, in order. */
  function RecordsOf(lines: seq<string>, read: Reader): seq<string> {
    if lines == [] then []
    else RecordsOf(lines[..|lines| - 1], read) + (if read(lines[|lines| - 1]).Record? then [lines[|lines| - 1]] else [])
  }

  lemma {:induction false} RecordsOfSplits(l: string, rest: seq<string>, read: Reader)
    ensures RecordsOf([l] + rest, read) == (if read(l).Record? then [l] else []) + RecordsOf(rest, read)
    decreases |rest|
  {
    if rest == [] {
      assert [l] + rest == [l] && [l][..0] == [];
    } else {
      RecordsOfSplits(l, rest[..|rest| - 1], read);
      assert ([l] + rest)[..|rest|] == [l] + rest[..|rest| - 1];
    }
  }

  /** What is kept: all records up to the first line that is neither blank nor a record; a footer there refuses. */
  lemma {:induction false} SalvageIsTheFirstRun(lines: seq<string>, read: Reader) returns (k: nat)
    ensures k <= |lines| && (forall i :: 0 <= i < k ==> Goes(read(lines[i])))
    ensures k < |lines| ==> !Goes(read(lines[k]))
    ensures Salvage(lines, read) == RecordsOf(lines[..k], read)
    ensures EndsInFooter(lines, read) <==> k < |lines| && read(lines[k]).Footer?
  {
    if lines == [] || !Goes(read(lines[0])) {
      k := 0;
    } else {
      var n := SalvageIsTheFirstRun(lines[1..], read);
      k := n + 1;
      assert lines[..k] == [lines[0]] + lines[1..][..n];
      RecordsOfSplits(lines[0], lines[1..][..n], read);
    }
  }

  lemma {:induction false} FooterStops(lines: seq<string>, rest: seq<string>, read: Reader)
    requires forall i :: 0 <= i < |lines| ==> read(lines[i]).Record? || read(lines[i]).Footer?
    requires !AllRecords(lines, read)
    ensures EndsInFooter(lines + rest, read)
  {
    assert lines != [];
    assert (lines + rest)[1..] == lines[1..] + rest;
    if read(lines[0]).Record? {
      assert !AllRecords(lines[1..], read) by {
        var i :| 0 <= i < |lines| && !read(lines[i]).Record?;
        assert lines[1..][i - 1] == lines[i];
      }
      FooterStops(lines[1..], rest, read);
    }
  }

  lemma {:induction false} StrippedRecords(lines: seq<string>, read: Reader)
    requires AllRecords(lines, read) && forall l :: read(StripCr(l)) == read(l)
    ensures AllRecords(Stripped(lines), read)
  {
  }

  lemma LinesAfter(kept: seq<string>, l: string)
    requires OneLine(l) && forall i :: 0 <= i < |kept| ==> OneLine(kept[i])
    ensures Lines(Unlines(kept + [l])) == Stripped(kept) + [StripCr(l)]
  {
    LinesOfLog(kept + [l], []);
    assert Unlines(kept + [l]) + [] == Unlines(kept + [l]);
    StrippedSnoc(kept, l);
  }

  lemma StrippedSnoc(kept: seq<string>, l: string)
    ensures Stripped(kept + [l]) + Tail([]) == Stripped(kept) + [StripCr(l)]
  {
  }

  /** A footer after records is found again, whatever carriage returns the records end in. */
  lemma FooterIsFound(kept: seq<string>, footer: string, read: Reader)
    requires AllRecords(kept, read) && read(footer).Footer? && forall l :: read(StripCr(l)) == read(l)
    requires OneLine(footer) && forall i :: 0 <= i < |kept| ==> OneLine(kept[i])
    ensures EndsInFooter(Lines(Unlines(kept + [footer])), read)
  {
    LinesAfter(kept, footer);
    StrippedRecords(kept, read);
    SalvageTakesRecords(Stripped(kept), [StripCr(footer)], read);
  }

  lemma ClassifyIgnoresCr(l: string)
    ensures Classify(StripCr(l)) == Classify(l)
  {
    TrimIgnoresCr(l);
  }

  /** The recovered text is the kept records and one footer, each on its own line. */
  lemma RecoveredShape(kept: seq<string>, footer: string)
    requires kept != []
    ensures Join(kept) + "\n" + footer + "\n" == Unlines(kept + [footer])
  {
    JoinIsUnlines(kept);
    UnlinesSplits(kept, [footer]);
    assert Unlines([footer]) == footer + "\n" + [];
  }

  /** The rebuilt footer line is one line; it is recognised exactly when everything it prints is finite. */
  lemma RebuiltFooterReads(kept: seq<string>, now: nat, read: Reader)
    ensures var l := Write(RebuiltFooter(kept, now, read));
            OneLine(l) && Classify(l) == if FooterIsFinite(kept, read) then Footer else Bad
  {
    var wall := if LastWall(kept, read) > 0 then LastWall(kept, read) else now;
    var rs, f := Readings(kept, read), Evidence(kept, read);
    SummarySpells(rs, f);
    RecoveredFooterReads(wall, |kept| + 1, SummaryRecord(rs, f));
  }

  /** A line that is not JSON after records ends the scan there. */
  lemma BadLineEnds(kept: seq<string>, l: string, read: Reader)
    requires AllRecords(kept, read) && read(l).Bad? && forall x :: read(StripCr(x)) == read(x)
    requires OneLine(l) && forall i :: 0 <= i < |kept| ==> OneLine(kept[i])
    ensures var lines := Lines(Unlines(kept + [l]));
            !EndsInFooter(lines, read) && Salvage(lines, read) == Stripped(kept)
  {
    LinesAfter(kept, l);
    StrippedRecords(kept, read);
    SalvageTakesRecords(Stripped(kept), [StripCr(l)], read);
    assert Salvage([StripCr(l)], read) == [] && Stripped(kept) + [] == Stripped(kept);
  }

  lemma StrippedHeader(kept: seq<string>, read: Reader)
    requires HasHeader(kept, read) && forall x :: read(StripCr(x)) == read(x)
    ensures HasHeader(Stripped(kept), read)
  {
    var i :| 0 <= i < |kept| && HeaderLine(read(kept[i]));
    assert HeaderLine(read(Stripped(kept)[i]));
  }

  /** Reading back records and a last line: a footer is refused, a line that is not JSON is dropped. */
  lemma RecordsAndLine(kept: seq<string>, l: string, later: nat)
    requires AllRecords(kept, Classify) && HasHeader(kept, Classify) && (Classify(l).Footer? || Classify(l).Bad?)
    requires OneLine(l) && forall i :: 0 <= i < |kept| ==> OneLine(kept[i])
    ensures var again := Recover(Unlines(kept + [l]), later, Classify);
            if Classify(l).Footer? then again == Err(AlreadyHasFooter) else again.Ok?
  {
    forall x ensures Classify(StripCr(x)) == Classify(x) { ClassifyIgnoresCr(x); }
    if Classify(l).Footer? {
      FooterIsFound(kept, l, Classify);
    } else {
      BadLineEnds(kept, l, Classify);
      StrippedHeader(kept, Classify);
    }
  }

  lemma KeptLines(original: string, read: Reader)
    ensures var kept := Salvage(Lines(original), read);
            AllRecords(kept, read) && forall i :: 0 <= i < |kept| ==> OneLine(kept[i])
  {
    SalvageKeepsRecords(Lines(original), read);
    LinesAreOneLine(original);
  }

  /** What recovery returns, as lines. */
  lemma RecoveredLines(original: string, now: nat, read: Reader)
    requires Recover(original, now, read).Ok?
    ensures var kept := Salvage(Lines(original), read);
            && HasHeader(kept, read)
            && Recover(original, now, read).value == Unlines(kept + [Write(RebuiltFooter(kept, now, read))])
  {
    var kept := Salvage(Lines(original), read);
    RecoveredShape(kept, Write(RebuiltFooter(kept, now, read)));
  }

  /** Everything the summary of these records prints is finite. */
  ghost predicate FooterIsFinite(kept: seq<string>, read: Reader) {
    PrintsFinite(Readings(kept, read), Evidence(kept, read))
  }

  /**
   Recovering a recovered text is refused exactly when everything its summary prints is finite: otherwise the rebuilt
   footer is not JSON, reads as a torn line, and the text is recovered again.
   */
  lemma RecoveredTextIsRefused(original: string, now: nat, later: nat)
    requires Recover(original, now, Classify).Ok?
    ensures var again := Recover(Recover(original, now, Classify).value, later, Classify);
            if FooterIsFinite(Salvage(Lines(original), Classify), Classify)
            then again == Err(AlreadyHasFooter)
            else again.Ok?
  {
    var kept := Salvage(Lines(original), Classify);
    RecoveredLines(original, now, Classify);
    KeptLines(original, Classify);
    RebuiltFooterReads(kept, now, Classify);
    RecordsAndLine(kept, Write(RebuiltFooter(kept, now, Classify)), later);
  }

  /** No number a kept battery record is read for overflows. */
  predicate FiniteReadings(rs: seq<ExtReading>) { forall i :: 0 <= i < |rs| ==> FiniteReading(rs[i]) }

  lemma {:induction false} FiniteIsLifted(rs: seq<ExtReading>) returns (x: seq<Energy.Reading>)
    requires FiniteReadings(rs)
    ensures LiftAll(x) == rs
  {
    x := seq(|rs|, i requires 0 <= i < |rs| => LowerReading(rs[i]));
  }

  /** The wall stamp of the rebuilt footer. */
  function FooterWall(kept: seq<string>, now: nat, read: Reader): nat {
    if LastWall(kept, read) > 0 then LastWall(kept, read) else now
  }

  /** With finite readings the rebuilt footer prints their reference footer. */
  lemma RebuiltFromFinite(kept: seq<string>, now: nat, read: Reader, rs: seq<Energy.Reading>, rule: Energy.Rule)
    requires Readings(kept, read) == LiftAll(rs) && Summary.RuleFor(Interval(kept, read)) == rule
    ensures RebuiltFooter(kept, now, read) ==
              RecoveredFooterRecord(FooterWall(kept, now, read), |kept| + 1,
                                    SummaryRecord(LiftAll(rs), LiftFooter(Summary.FooterOf(rs, rule))))
  {
    LiftedFooter(rs, rule);
  }

  /** The footer line is solid: no carriage return at its end. */
  lemma FooterLineIsSolid(kept: seq<string>, now: nat, read: Reader)
    ensures var l := Write(RebuiltFooter(kept, now, read)); StripCr(l) == l && OneLine(l)
  {
    RebuiltFooterReads(kept, now, read);
    ObjectEnds(RebuiltFooter(kept, now, read));
  }

  lemma ObjectEnds(v: JVal)
    requires v.Obj?
    ensures StripCr(Write(v)) == Write(v)
  {
    assert Write(v)[|Write(v)| - 1] == '}';
  }

  /**
   What a recovered text says. For every text that is recovered and whose readings do not overflow: its lines are the
   salvaged ones and then one footer, which parses, counts the lines, carries the wall clock, and whose summary read
   back key by key tells the counts, median, energies, coverage, lost time and broken steps of the readings.
   */
  lemma RecoveredFooterTells(original: string, now: nat, rs: seq<Energy.Reading>)
    requires Recover(original, now, Classify).Ok?
    requires Readings(Salvage(Lines(original), Classify), Classify) == LiftAll(rs)
    ensures var kept := Salvage(Lines(original), Classify);
            var lines := Lines(Recover(original, now, Classify).value);
            && |lines| == |kept| + 1 && lines[..|kept|] == Stripped(kept)
            && IsFooterOf(lines[|kept|], FooterWall(kept, now, Classify), |lines|, rs,
                          Summary.RuleFor(Interval(kept, Classify)))
  {
    var kept := Salvage(Lines(original), Classify);
    var rule := Summary.RuleFor(Interval(kept, Classify));
    RecoveredLines(original, now, Classify);
    KeptLines(original, Classify);
    FooterLineIsSolid(kept, now, Classify);
    LinesAfter(kept, Write(RebuiltFooter(kept, now, Classify)));
    RebuiltFromFinite(kept, now, Classify, rs, rule);
    FooterLineTells(FooterWall(kept, now, Classify), |kept| + 1, rs, rule);
  }

  /** The wall clock of the footer: the latest stamp of the kept records, and the present if none has one. */
  lemma {:induction false} LastWallIsTheLatest(kept: seq<string>, read: Reader)
    ensures forall i :: 0 <= i < |kept| ==> WallOf(read(kept[i])) <= LastWall(kept, read)
    ensures LastWall(kept, read) == 0 || exists i :: 0 <= i < |kept| && WallOf(read(kept[i])) == LastWall(kept, read)
    decreases |kept|
  {
    if kept != [] {
      var init := kept[..|kept| - 1];
      LastWallIsTheLatest(init, read);
      if LastWall(init, read) > 0 {
        var i :| 0 <= i < |init| && WallOf(read(init[i])) == LastWall(init, read);
        assert WallOf(read(kept[i])) == LastWall(init, read);
      }
    }
  }

  /** The interval: that of the last kept header which has one, and a second if none has. */
  lemma {:induction false} IntervalIsTheLastOne(kept: seq<string>, read: Reader) returns (i: int)
    ensures -1 <= i < |kept| && forall j :: i < j < |kept| ==> IntervalOf(read(kept[j])).None?
    ensures i >= 0 ==> IntervalOf(read(kept[i])) == Some(Interval(kept, read))
    ensures i < 0 ==> Interval(kept, read) == 1000
    decreases |kept|
  {
    if kept == [] {
      i := -1;
    } else if IntervalOf(read(kept[|kept| - 1])).Some? {
      i := |kept| - 1;
    } else {
      i := IntervalIsTheLastOne(kept[..|kept| - 1], read);
      assert forall j :: 0 <= j < |kept| - 1 ==> kept[..|kept| - 1][j] == kept[j];
    }
  }

  /** So with finite readings it is always refused. */
  lemma FiniteSessionIsRefused(original: string, now: nat, later: nat)
    requires Recover(original, now, Classify).Ok?
    requires FiniteReadings(Readings(Salvage(Lines(original), Classify), Classify))
    ensures Recover(Recover(original, now, Classify).value, later, Classify) == Err(AlreadyHasFooter)
  {
    var kept := Salvage(Lines(original), Classify);
    var rs := FiniteIsLifted(Readings(kept, Classify));
    FiniteReadingsPrint(rs, Summary.RuleFor(Interval(kept, Classify)));
    RecoveredTextIsRefused(original, now, later);
  }

  /** No clock of a reading overflows. */
  predicate ClocksFit(rs: seq<ExtReading>) { forall i :: 0 <= i < |rs| ==> rs[i].mono.Fin? && rs[i].wall.Fin? }

  /** A number in a record is finite or an overflow, never a not-a-number. */
  lemma {:induction false} ReadingsAreNumbers(kept: seq<string>, read: Reader)
    ensures forall i :: 0 <= i < |Readings(kept, read)| ==>
              Readings(kept, read)[i].discharge != Some(NaN) && Readings(kept, read)[i].charge != Some(NaN)
  {
    if kept != [] { ReadingsAreNumbers(kept[..|kept| - 1], read); }
  }

  /**
   With clocks that do not overflow it is refused exactly when the summary sees no overflowing reading: the median
   discharge is finite and no integrated pair of a covered channel has an overflowing end.
   */
  lemma RefusedExactly(original: string, now: nat, later: nat)
    requires Recover(original, now, Classify).Ok?
    requires ClocksFit(Readings(Salvage(Lines(original), Classify), Classify))
    ensures var kept := Salvage(Lines(original), Classify);
            var rs, rule := Readings(kept, Classify), Summary.RuleFor(Interval(kept, Classify));
            InfinityIsUnseen(rs, rule) <==>
              Recover(Recover(original, now, Classify).value, later, Classify) == Err(AlreadyHasFooter)
  {
    var kept := Salvage(Lines(original), Classify);
    ReadingsAreNumbers(kept, Classify);
    assert FiniteClocks(Readings(kept, Classify));
    SummaryIsJsonExactly(Readings(kept, Classify), Summary.RuleFor(Interval(kept, Classify)));
    RecoveredTextIsRefused(original, now, later);
  }

  /** With a single battery record it is refused exactly when the discharge of that record does not overflow. */
  lemma SingleRecordIsRefused(original: string, now: nat, later: nat, r: ExtReading)
    requires Recover(original, now, Classify).Ok?
    requires Readings(Salvage(Lines(original), Classify), Classify) == [r]
    ensures FiniteOrNone(r.discharge) <==>
              Recover(Recover(original, now, Classify).value, later, Classify) == Err(AlreadyHasFooter)
  {
    var kept := Salvage(Lines(original), Classify);
    SingleReadingPrints(r, Summary.RuleFor(Interval(kept, Classify)));
    RecoveredTextIsRefused(original, now, later);
  }

  // ---------------------------------------------------------------- a log cut short

  /** A log of records and footers as the writer leaves it. */
  ghost predicate Log(recs: seq<string>) {
    forall i :: 0 <= i < |recs| ==> WrittenLine(recs[i]) && (Classify(recs[i]).Record? || Classify(recs[i]).Footer?)
  }

  /** The lines of a cut log: the complete records and at most one torn line, which reads as nothing. */
  lemma LinesOfCutLog(recs: seq<string>, n: nat) returns (torn: seq<string>)
    requires Log(recs) && n <= |Unlines(recs)|
    ensures Lines(Unlines(recs)[..n]) == recs[..Complete(recs, n)] + torn
    ensures torn == [] || (|torn| == 1 && Classify(torn[0]) == Bad)
  {
    forall i | 0 <= i < |recs| ensures Plain(recs[i]) { WrittenLineIsSolid(recs[i]); }
    var m := LinesOfCut(recs, n);
    if m == 0 {
      torn := [];
    } else {
      torn := [recs[Complete(recs, n)][..m]];
      TornLineIsBad(recs[Complete(recs, n)], m);
    }
  }

  /**
   Crash safety. However a log is cut: with a complete footer recovery is refused, without a complete header it is
   refused, and otherwise it returns exactly the complete records, in order, and one footer.
   */
  lemma CutLogIsRecovered(recs: seq<string>, n: nat, now: nat)
    requires Log(recs) && n <= |Unlines(recs)|
    ensures var kept := recs[..Complete(recs, n)];
            Recover(Unlines(recs)[..n], now, Classify) ==
              if !AllRecords(kept, Classify) then Err(AlreadyHasFooter)
              else if !HasHeader(kept, Classify) then Err(NoHeader)
              else Ok(Unlines(kept + [Write(RebuiltFooter(kept, now, Classify))]))
  {
    var kept := recs[..Complete(recs, n)];
    var torn := LinesOfCutLog(recs, n);
    if AllRecords(kept, Classify) {
      SalvageTakesRecords(kept, torn, Classify);
      assert Salvage(torn, Classify) == [] && kept + [] == kept;
      if HasHeader(kept, Classify) { RecoveredShape(kept, Write(RebuiltFooter(kept, now, Classify))); }
    } else {
      FooterStops(kept, torn, Classify);
    }
  }

  // ---------------------------------------------------------------- a reading that overflows

  /** A battery record whose discharge is 1e999. */
  const HUGE_RECORD := Obj([("collector", Str("battery")), ("discharge_w", Obj([("v", Num(HUGE))]))])

  lemma HugeRecordReads()
    ensures WrittenLine(Write(HUGE_RECORD)) && Classify(Write(HUGE_RECORD)) == Record(HUGE_RECORD)
    ensures !IsHeader(HUGE_RECORD) && ReadingOf(HUGE_RECORD).Some?
    ensures ReadingOf(HUGE_RECORD).value.discharge == Some(Inf(false))
  {
    HugeOverflows();
    var v := HUGE_RECORD;
    FindAt(v.pairs, 0);
    FindAt(v.pairs, 1);
    FindNothing(v.pairs, "type");
    FindAt([("v", Num(HUGE))], 0);
    WrittenObject(v);
    WrittenLineIsSolid(Write(v));
  }

  /** A log with one battery record whose discharge overflows is recovered, and so is the recovered text. */
  lemma OverflowingLog(recs: seq<string>, r: ExtReading, now: nat, later: nat)
    requires Log(recs) && AllRecords(recs, Classify) && HasHeader(recs, Classify)
    requires Readings(recs, Classify) == [r] && !FiniteOrNone(r.discharge)
    ensures var once := Recover(Unlines(recs), now, Classify);
            once.Ok? && Recover(once.value, later, Classify).Ok?
  {
    WholeLog(recs, now);
    SingleReadingPrints(r, Summary.RuleFor(Interval(recs, Classify)));
    RecoveredTextIsRefused(Unlines(recs), now, later);
  }

  lemma HeaderAndReading(h: string, b: string, v: JVal, w: JVal, r: ExtReading, read: Reader)
    requires read(h) == Record(v) && IsHeader(v) && ReadingOf(v) == None
    requires read(b) == Record(w) && ReadingOf(w) == Some(r)
    ensures AllRecords([h, b], read) && HasHeader([h, b], read) && Readings([h, b], read) == [r]
  {
    assert HeaderLine(read([h, b][0]));
    assert [h, b][..1] == [h] && [h][..0] == [];
    assert Readings([], read) == [] && Readings([h], read) == [] + [];
  }

  lemma LogOfTwo(h: string, b: string)
    requires WrittenLine(h) && Classify(h).Record? && WrittenLine(b) && Classify(b).Record?
    ensures Log([h, b])
  {
  }

  /** A header and a battery record whose discharge overflows. */
  lemma OverflowingRecord(h: string, b: string, v: JVal, w: JVal, now: nat, later: nat)
    requires WrittenLine(h) && Classify(h) == Record(v) && IsHeader(v) && ReadingOf(v) == None
    requires WrittenLine(b) && Classify(b) == Record(w) && ReadingOf(w).Some?
    requires !FiniteOrNone(ReadingOf(w).value.discharge)
    ensures var once := Recover(Unlines([h, b]), now, Classify);
            once.Ok? && Recover(once.value, later, Classify).Ok?
  {
    LogOfTwo(h, b);
    HeaderAndReading(h, b, v, w, ReadingOf(w).value, Classify);
    OverflowingLog([h, b], ReadingOf(w).value, now, later);
  }

  lemma HeaderAndHuge(v: JVal, now: nat, later: nat)
    requires WrittenLine(Write(v)) && Classify(Write(v)) == Record(v) && IsHeader(v) && ReadingOf(v) == None
    ensures var once := Recover(Unlines([Write(v), Write(HUGE_RECORD)]), now, Classify);
            once.Ok? && Recover(once.value, later, Classify).Ok?
  {
    HugeRecordReads();
    OverflowingRecord(Write(v), Write(HUGE_RECORD), v, HUGE_RECORD, now, later);
  }

  /** At 1e999 recovery writes a footer that is not JSON, and so recovers its own output again. */
  lemma OverflowIsRecoveredTwice(wall: nat, version: string, interval: nat, note: string, now: nat, later: nat)
    ensures var text := Unlines([Write(HeaderRecord(wall, version, interval, note)), Write(HUGE_RECORD)]);
            var once := Recover(text, now, Classify);
            once.Ok? && Recover(once.value, later, Classify).Ok?
  {
    HeaderReads(wall, version, interval, note);
    HeaderIsNoReading(wall, version, interval, note);
    HeaderAndHuge(HeaderRecord(wall, version, interval, note), now, later);
  }

  /** An uncut log of records with a header is recovered, all of it kept. */
  lemma WholeLog(recs: seq<string>, now: nat)
    requires Log(recs) && AllRecords(recs, Classify) && HasHeader(recs, Classify)
    ensures Salvage(Lines(Unlines(recs)), Classify) == recs && Recover(Unlines(recs), now, Classify).Ok?
  {
    forall i | 0 <= i < |recs| ensures Plain(recs[i]) { WrittenLineIsSolid(recs[i]); }
    LinesOfLog(recs, []);
    StrippedPlain(recs);
    assert Unlines(recs) + [] == Unlines(recs);
    assert recs + Tail([]) == recs;
    SalvageTakesRecords(recs, [], Classify);
    assert recs + [] == recs;
  }
}

/** The session writer: buffered appends with a bound on what a kill can lose, and recovery of what survived. */
module SessionLog {
  import opened Common
  import opened Extended
  import opened Footers
  import opened Json
  import opened Records
  import opened Recovery
  import opened Report
  import opened Text
  import opened Utf8
  import Energy
  import Summary

  /** Capacity of the buffered writer. */
  const CAPACITY: nat := 8192

  /** What a log of these lines looks like on disk. */
  ghost function Image(lines: seq<string>): Bytes { Encode(Unlines(lines)) }

  lemma ImageGrows(lines: seq<string>, line: string)
    ensures Image(lines + [line]) == Image(lines) + Encode(line) + Encode("\n")
  {
    UnlinesSplits(lines, [line]);
    assert Unlines([line]) == line + "\n" + [] == line + "\n";
    EncodeSplits(Unlines(lines), line + "\n");
    EncodeSplits(line, "\n");
    Associates(Image(lines), Encode(line), Encode("\n"));
  }

  class SessionWriter {
    var file: Bytes
    var buffer: Bytes
    var sinceFlush: nat
    const flushEvery: nat
    var lines: nat
    ghost var written: seq<string>

    /**
     Disk and buffer together hold exactly the lines written, in order; the buffer is bounded; and every line
     but the last sinceFlush is wholly on disk.
     */
    ghost predicate Valid()
      reads this
    {
      && sinceFlush < flushEvery
      && |buffer| <= CAPACITY
      && lines == |written| && sinceFlush <= |written|
      && file + buffer == Image(written)
      && Image(written[..|written| - sinceFlush]) <= file
    }

    constructor (every: nat)
      ensures Valid() && written == [] && flushEvery == (if every < 1 then 1 else every)
    {
      file, buffer, sinceFlush, lines := [], [], 0, 0;
      flushEvery := if every < 1 then 1 else every;
      written := [];
    }

    /** Buffered write: a piece that does not fit first empties the buffer, and a piece as large as it bypasses it. */
    method WriteAll(bytes: Bytes)
      requires |buffer| <= CAPACITY
      modifies this`file, this`buffer
      ensures file + buffer == old(file) + old(buffer) + bytes
      ensures old(file) <= file && |buffer| <= CAPACITY
    {
      if |bytes| > CAPACITY - |buffer| {
        file := file + buffer;
        buffer := [];
      }
      if |bytes| >= CAPACITY {
        assert buffer == [];
        file := file + bytes;
      } else {
        buffer := buffer + bytes;
      }
    }

    method Flush()
      requires sinceFlush <= |written| && |buffer| <= CAPACITY && 0 < flushEvery
      requires lines == |written| && file + buffer == Image(written)
      modifies this`file, this`buffer, this`sinceFlush
      ensures Valid() && buffer == [] && sinceFlush == 0 && file == old(file) + old(buffer)
    {
      file := file + buffer;
      buffer := [];
      sinceFlush := 0;
      assert written[..|written|] == written;
    }

    method WriteLine(line: string)
      requires Valid()
      modifies this
      ensures Valid() && written == old(written) + [line]
      ensures old(file) <= file
      ensures old(sinceFlush) + 1 == flushEvery ==> buffer == []
    {
      ghost var before := written;
      ImageGrows(written, line);
      WriteAll(Encode(line));
      WriteAll(Encode("\n"));
      lines := lines + 1;
      sinceFlush := sinceFlush + 1;
      written := written + [line];
      assert written[..|written| - sinceFlush] == before[..|before| - old(sinceFlush)];
      if sinceFlush >= flushEvery { Flush(); }
    }

    method Header(wall: nat, version: string, interval: nat, note: string)
      requires Valid()
      modifies this
      ensures Valid() && written == old(written) + [Write(HeaderRecord(wall, version, interval, note))]
    {
      WriteLine(Write(HeaderRecord(wall, version, interval, note)));
    }

    method Event(wall: nat, mono: nat, kind: string, detail: string)
      requires Valid()
      modifies this
      ensures Valid() && written == old(written) + [Write(EventRecord(wall, mono, kind, detail))]
    {
      WriteLine(Write(EventRecord(wall, mono, kind, detail)));
    }

    /** The clean end: everything is on disk, and the footer counts itself. */
    method Footer(wall: nat, summary: JVal)
      requires Valid()
      modifies this
      ensures Valid() && written == old(written) + [Write(FooterRecord(wall, |written|, summary))]
      ensures buffer == [] && file == Image(written)
    {
      WriteLine(Write(FooterRecord(wall, lines + 1, summary)));
      Flush();
    }
  }

  // ---------------------------------------------------------------- what a kill can lose

  datatype FileError = Unreadable | Refused(error: RecoverError)

  /** The recover command: read the file as text, then rebuild. */
  ghost function RecoverFile(bytes: Bytes, now: nat): Result<string, FileError> {
    match Decode(bytes)
    case None => Err(Unreadable)
    case Some(text) =>
      match Recover(text, now, Classify)
      case Err(e) => Err(Refused(e))
      case Ok(out) => Ok(out)
  }

  /** Lines wholly inside a prefix of the text are complete in it. */
  lemma {:induction false} CompleteCovers(lines: seq<string>, k: nat, n: nat)
    requires k <= |lines| && n >= |Unlines(lines[..k])|
    ensures Complete(lines, n) >= k
    decreases k
  {
    if k > 0 {
      assert lines[..k][1..] == lines[1..][..k - 1];
      CompleteCovers(lines[1..], k - 1, n - |lines[0]| - 1);
    }
  }

  /**
   The loss bound. Whatever a kill leaves on disk between the last flush and the last write, it is a prefix of the
   log; at most the lines since that flush are missing.
   */
  lemma FlushedLinesSurvive(written: seq<string>, flushed: nat, m: nat)
    requires flushed <= |written| && |Image(written[..flushed])| <= m <= |Image(written)|
    ensures Complete(written, WholeChars(Unlines(written), m)) >= flushed
  {
    var a, b := Unlines(written[..flushed]), Unlines(written[flushed..]);
    UnlinesSplits(written[..flushed], written[flushed..]);
    assert written[..flushed] + written[flushed..] == written;
    WholeCharsCover(a, b, m);
    CompleteCovers(written, flushed, WholeChars(Unlines(written), m));
  }

  /**
   Crash safety end to end. The disk holds any prefix of the log at least as long as the last flush left it. The file
   can be read exactly when the cut is between two characters; then recovery returns the complete surviving records
   in order and one footer, all flushed lines among them, unless a complete footer or no header survives.
   */
  lemma CrashIsRecovered(written: seq<string>, flushed: nat, m: nat, now: nat)
    requires Log(written)
    requires flushed <= |written| && |Image(written[..flushed])| <= m <= |Image(written)|
    ensures var k := Complete(written, WholeChars(Unlines(written), m));
            var kept := written[..k];
            && k >= flushed
            && RecoverFile(Image(written)[..m], now) ==
                 if !Boundary(Unlines(written), m) then Err(Unreadable)
                 else if !AllRecords(kept, Classify) then Err(Refused(AlreadyHasFooter))
                 else if !HasHeader(kept, Classify) then Err(Refused(NoHeader))
                 else Ok(Unlines(kept + [Write(RebuiltFooter(kept, now, Classify))]))
  {
    FlushedLinesSurvive(written, flushed, m);
    PrefixDecodes(Unlines(written), m);
    CutLogIsRecovered(written, WholeChars(Unlines(written), m), now);
  }

  /** A cut one byte into a character outside ASCII: the command refuses the file, however much of it survived. */
  lemma CutInsideCharacterIsUnreadable(written: seq<string>, a: string, c: char, b: string, now: nat)
    requires Unlines(written) == a + [c] + b && |EncodeChar(c)| > 1
    ensures |Encode(a)| + 1 <= |Image(written)|
    ensures RecoverFile(Image(written)[..|Encode(a)| + 1], now) == Err(Unreadable)
  {
    EncodeSplits(a + [c], b);
    EncodeSplits(a, [c]);
    assert Encode([c]) == EncodeChar(c) + [];
    CutInsideCharacter(a, c, b);
    PrefixDecodes(Unlines(written), |Encode(a)| + 1);
  }

  /** The writer's own state meets the hypotheses: the bound is flushEvery - 1 lines and the buffer's capacity. */
  lemma WriterLossIsBounded(w: SessionWriter, m: nat)
    requires w.Valid() && |w.file| <= m <= |Image(w.written)|
    ensures |w.written| - Complete(w.written, WholeChars(Unlines(w.written), m)) <= w.flushEvery - 1
    ensures |Image(w.written)| - |w.file| <= 8192 && w.file <= Image(w.written)
  {
    FlushedLinesSurvive(w.written, |w.written| - w.sinceFlush, m);
  }

  // ---------------------------------------------------------------- a whole session

  datatype Entry =
    | HeaderEntry(wall: nat, version: string, interval: nat, note: string)
    | EventEntry(wall: nat, mono: nat, kind: string, detail: string)
    | SampleEntry(v: JVal)
    | FooterEntry(wall: nat, lines: nat, summary: JVal)

  /** Samples and summaries come as JSON objects within the nesting cap. */
  ghost predicate Sound(e: Entry) {
    match e
    case SampleEntry(v) => v.Obj? && WellFormed(v) && Fits(v, 0) && IsSample(v) && Type(v) != "session_footer"
    case FooterEntry(_, _, summary) => WellFormed(summary) && Fits(summary, 1)
    case HeaderEntry(_, _, interval, _) => interval <= U64_MAX
    case EventEntry(_, _, _, _) => true
  }

  function Line(e: Entry): string {
    match e
    case HeaderEntry(wall, version, interval, note) => Write(HeaderRecord(wall, version, interval, note))
    case EventEntry(wall, mono, kind, detail) => Write(EventRecord(wall, mono, kind, detail))
    case SampleEntry(v) => Write(v)
    case FooterEntry(wall, lines, summary) => Write(FooterRecord(wall, lines, summary))
  }

  /** Whatever strings the entries carry, each becomes one written line of its own kind. */
  lemma EntryIsLogged(e: Entry)
    requires Sound(e)
    ensures WrittenLine(Line(e))
    ensures e.FooterEntry? ==> Classify(Line(e)) == Records.Footer
    ensures !e.FooterEntry? ==> Classify(Line(e)).Record?
    ensures HeaderLine(Classify(Line(e))) <==> e.HeaderEntry? || (e.SampleEntry? && IsHeader(e.v))
  {
    match e
    case HeaderEntry(wall, version, interval, note) => HeaderReads(wall, version, interval, note);
    case EventEntry(wall, mono, kind, detail) => EventReads(wall, mono, kind, detail);
    case SampleEntry(v) =>
      WrittenObject(v);
      WrittenLineIsSolid(Write(v));
    case FooterEntry(wall, lines, summary) => FooterReads(wall, lines, summary);
  }

  /** One header, first. */
  ghost predicate Session(es: seq<Entry>) {
    && es != [] && es[0].HeaderEntry?
    && (forall i :: 0 <= i < |es| ==> Sound(es[i]))
    && (forall i :: 0 < i < |es| ==> !es[i].HeaderEntry? && (es[i].SampleEntry? ==> !IsHeader(es[i].v)))
  }

  function LinesOf(es: seq<Entry>): (ls: seq<string>)
    ensures |ls| == |es| && forall i :: 0 <= i < |es| ==> ls[i] == Line(es[i])
  {
    seq(|es|, i requires 0 <= i < |es| => Line(es[i]))
  }

  lemma SessionIsLog(es: seq<Entry>)
    requires Session(es)
    ensures Log(LinesOf(es)) && HeaderLine(Classify(LinesOf(es)[0]))
    ensures forall i :: 0 <= i < |es| ==> (Classify(LinesOf(es)[i]).Record? <==> !es[i].FooterEntry?)
    ensures forall i :: 0 < i < |es| ==> !HeaderLine(Classify(LinesOf(es)[i]))
  {
    forall i | 0 <= i < |es|
      ensures WrittenLine(LinesOf(es)[i]) && (Classify(LinesOf(es)[i]).Record? <==> !es[i].FooterEntry?)
      ensures Classify(LinesOf(es)[i]).Record? || Classify(LinesOf(es)[i]).Footer?
      ensures HeaderLine(Classify(LinesOf(es)[i])) <==> i == 0
    {
      EntryIsLogged(es[i]);
    }
  }

  /** Only the first line decides the interval. */
  lemma {:induction false} IntervalOfFirst(kept: seq<string>, read: Reader)
    requires kept != [] && forall i :: 0 < i < |kept| ==> !HeaderLine(read(kept[i]))
    ensures Interval(kept, read) == if IntervalOf(read(kept[0])).Some? then IntervalOf(read(kept[0])).value else 1000
  {
    if |kept| > 1 {
      IntervalOfFirst(kept[..|kept| - 1], read);
    } else {
      assert kept[..0] == [];
    }
  }

  lemma SessionInterval(es: seq<Entry>, k: nat)
    requires Session(es) && 0 < k <= |es|
    ensures Summary.RuleFor(Interval(LinesOf(es)[..k], Classify)) == Summary.RuleFor(es[0].interval)
  {
    var kept, e := LinesOf(es)[..k], es[0];
    SessionIsLog(es);
    IntervalOfFirst(kept, Classify);
    HeaderReads(e.wall, e.version, e.interval, e.note);
  }

  /**
   A whole session killed anywhere. If the surviving bytes are text and hold the header but no complete footer, the
   recovered session is the complete surviving records, all flushed ones among them, and a footer computed with the
   gap rule of the live session; otherwise it is refused.
   */
  lemma SessionIsRecovered(es: seq<Entry>, flushed: nat, m: nat, now: nat)
    requires Session(es)
    requires flushed <= |es| && |Image(LinesOf(es)[..flushed])| <= m <= |Image(LinesOf(es))|
    requires Boundary(Unlines(LinesOf(es)), m)
    ensures var k := Complete(LinesOf(es), WholeChars(Unlines(LinesOf(es)), m));
            var kept := LinesOf(es)[..k];
            var r := RecoverFile(Image(LinesOf(es))[..m], now);
            && flushed <= k <= |es|
            && (k == 0 ==> r == Err(Refused(NoHeader)))
            && ((exists i :: 0 <= i < k && es[i].FooterEntry?) ==> r == Err(Refused(AlreadyHasFooter)))
            && (k > 0 && (forall i :: 0 <= i < k ==> !es[i].FooterEntry?) ==>
                  && Summary.RuleFor(Interval(kept, Classify)) == Summary.RuleFor(es[0].interval)
                  && r == Ok(Unlines(kept + [Write(RebuiltFooter(kept, now, Classify))])))
  {
    var written := LinesOf(es);
    var k := Complete(written, WholeChars(Unlines(written), m));
    SessionIsLog(es);
    CrashIsRecovered(written, flushed, m, now);
    KeptOf(es, k);
    if k > 0 { SessionInterval(es, k); }
  }

  lemma KeptOf(es: seq<Entry>, k: nat)
    requires Session(es) && k <= |es|
    ensures AllRecords(LinesOf(es)[..k], Classify) <==> forall i :: 0 <= i < k ==> !es[i].FooterEntry?
    ensures HasHeader(LinesOf(es)[..k], Classify) <==> k > 0
  {
    SessionIsLog(es);
    var kept := LinesOf(es)[..k];
    assert forall i :: 0 <= i < k ==> kept[i] == LinesOf(es)[i];
    if k > 0 { assert HeaderLine(Classify(kept[0])); }
  }

  // ---------------------------------------------------------------- the rebuilt footer is the live footer

  /** The battery reading an entry carries. */
  function EntryReading(e: Entry): seq<ExtReading> {
    if e.SampleEntry? && ReadingOf(e.v).Some? then [ReadingOf(e.v).value] else []
  }

  function EntryReadings(es: seq<Entry>): seq<ExtReading> {
    if es == [] then [] else EntryReadings(es[..|es| - 1]) + EntryReading(es[|es| - 1])
  }

  lemma EntryReadingIsRead(e: Entry)
    requires Sound(e)
    ensures BatteryOf(Classify(Line(e))) == EntryReading(e)
  {
    match e
    case HeaderEntry(wall, version, interval, note) =>
      HeaderReads(wall, version, interval, note);
      HeaderIsNoReading(wall, version, interval, note);
    case EventEntry(wall, mono, kind, detail) =>
      EventReads(wall, mono, kind, detail);
      EventIsNoReading(wall, mono, kind, detail);
    case SampleEntry(v) =>
      WrittenObject(v);
      WrittenLineIsSolid(Write(v));
    case FooterEntry(wall, lines, summary) => FooterReads(wall, lines, summary);
  }

  /** Reading the lines back gives the readings of the entries, if each line gives that of its entry. */
  lemma {:induction false} ReadingsOf(es: seq<Entry>, lines: seq<string>, read: Reader)
    requires |lines| == |es| && forall i :: 0 <= i < |es| ==> BatteryOf(read(lines[i])) == EntryReading(es[i])
    ensures Readings(lines, read) == EntryReadings(es)
    decreases |es|
  {
    if es != [] { ReadingsOf(es[..|es| - 1], lines[..|lines| - 1], read); }
  }

  /** The readings recovery extracts from the surviving lines are those of the entries written. */
  lemma ReadingsAreTheEntries(es: seq<Entry>, k: nat)
    requires Session(es) && k <= |es|
    ensures Readings(LinesOf(es)[..k], Classify) == EntryReadings(es[..k])
  {
    forall i | 0 <= i < k ensures BatteryOf(Classify(LinesOf(es)[..k][i])) == EntryReading(es[..k][i]) {
      EntryReadingIsRead(es[i]);
    }
    ReadingsOf(es[..k], LinesOf(es)[..k], Classify);
  }

  /** How many entries survive a kill that leaves m bytes. */
  ghost function Survivors(es: seq<Entry>, m: nat): nat {
    Complete(LinesOf(es), WholeChars(Unlines(LinesOf(es)), m))
  }

  lemma RebuiltFromEntries(es: seq<Entry>, k: nat, now: nat, rs: seq<Energy.Reading>)
    requires Session(es) && 0 < k <= |es| && LiftAll(rs) == EntryReadings(es[..k])
    ensures IsFooterOf(Write(RebuiltFooter(LinesOf(es)[..k], now, Classify)),
                       FooterWall(LinesOf(es)[..k], now, Classify), k + 1, rs, Summary.RuleFor(es[0].interval))
  {
    var kept, rule := LinesOf(es)[..k], Summary.RuleFor(es[0].interval);
    ReadingsAreTheEntries(es, k);
    SessionInterval(es, k);
    RebuiltFromFinite(kept, now, Classify, rs, rule);
    FooterLineTells(FooterWall(kept, now, Classify), k + 1, rs, rule);
  }

  /** A kill that leaves the header, no complete footer and readable text. */
  ghost predicate Killed(es: seq<Entry>, flushed: nat, m: nat) {
    && Session(es) && flushed <= |es| && |Image(LinesOf(es)[..flushed])| <= m <= |Image(LinesOf(es))|
    && Boundary(Unlines(LinesOf(es)), m)
    && Survivors(es, m) > 0 && forall i :: 0 <= i < Survivors(es, m) ==> !es[i].FooterEntry?
  }

  lemma KilledSessionIsRebuilt(es: seq<Entry>, flushed: nat, m: nat, now: nat)
    requires Killed(es, flushed, m)
    ensures var k := Survivors(es, m);
            RecoverFile(Image(LinesOf(es))[..m], now)
              == Ok(Unlines(LinesOf(es)[..k] + [Write(RebuiltFooter(LinesOf(es)[..k], now, Classify))]))
  {
    SessionIsRecovered(es, flushed, m, now);
  }

  /** The summary says what the segments of the live accumulators hold. */
  ghost predicate SaysSegments(s: JVal, live: Summary.Footer) {
    && SaysEnergy(s, "discharge_wh", live.discharge) && SaysEnergy(s, "charge_wh", live.charge)
    && SaysCoverage(s, "discharge_coverage_pct", live.discharge)
    && SaysCoverage(s, "charge_coverage_pct", live.charge)
    && Says(s, "discharge_unknown_s", live.discharge.unknownSecs, 1.0)
    && Says(s, "discharge_unobserved_s", live.discharge.unobservedSecs, 1.0)
  }

  /** And their counts, the boundary kinds by name. */
  ghost predicate SaysCounts(s: JVal, live: Summary.Footer) {
    && |live.kinds| == 4
    && SaysCount(s, "discharge_n", live.dischargeN) && SaysCount(s, "charge_n", live.chargeN)
    && SaysCount(s, "discharge_discontinuities", live.discharge.discontinuities)
    && Get(s, "discharge_discontinuity_kinds").Some?
    && var k := Get(s, "discharge_discontinuity_kinds").value;
       && SaysCount(k, "sampling_gap", live.kinds[0]) && SaysCount(k, "wall_ahead_of_mono", live.kinds[1])
       && SaysCount(k, "mono_ahead_of_wall", live.kinds[2]) && SaysCount(k, "clock_went_backwards", live.kinds[3])
  }

  /** The summary of the footer line says what the live accumulators hold. */
  ghost predicate SaysLive(line: string, live: Summary.Footer) {
    && Parse(line).Some? && Get(Parse(line).value, "summary").Some?
    && var s := Get(Parse(line).value, "summary").value; SaysSegments(s, live) && SaysCounts(s, live)
  }

  lemma TellsIsLive(s: JVal, rs: seq<Energy.Reading>, rule: Energy.Rule)
    requires rule.maxSkew >= 0.0 && Tells(s, rs, rule)
    ensures SaysSegments(s, Summary.FooterOf(rs, rule)) && SaysCounts(s, Summary.FooterOf(rs, rule))
  {
    Summary.FooterCounts(rs, rule);
  }

  lemma TellsIsSaysLive(line: string, wall: nat, lines: nat, rs: seq<Energy.Reading>, rule: Energy.Rule)
    requires rule.maxSkew >= 0.0 && IsFooterOf(line, wall, lines, rs, rule)
    ensures SaysLive(line, Summary.FooterOf(rs, rule))
  {
    TellsIsLive(Get(Parse(line).value, "summary").value, rs, rule);
  }

  /**
   The footer rebuilt after a kill says what the accumulators of the live session held at the last surviving battery
   record: the live program run over the surviving readings gives the evidence that the recovered file, read back,
   reports key by key.
   */
  method KilledSessionKeepsTheLiveFooter(es: seq<Entry>, flushed: nat, m: nat, now: nat, rs: seq<Energy.Reading>)
    returns (live: Summary.Footer, ghost line: string)
    requires Killed(es, flushed, m)
    requires LiftAll(rs) == EntryReadings(es[..Survivors(es, m)])
    ensures var k := Survivors(es, m);
            && RecoverFile(Image(LinesOf(es))[..m], now) == Ok(Unlines(LinesOf(es)[..k] + [line]))
            && IsFooterOf(line, FooterWall(LinesOf(es)[..k], now, Classify), k + 1, rs,
                          Summary.RuleFor(es[0].interval))
            && SaysLive(line, live)
  {
    live := Summary.RunLive(rs, es[0].interval);
    ghost var k := Survivors(es, m);
    line := Write(RebuiltFooter(LinesOf(es)[..k], now, Classify));
    KilledSessionIsRebuilt(es, flushed, m, now);
    RebuiltFromEntries(es, k, now, rs);
    TellsIsSaysLive(line, FooterWall(LinesOf(es)[..k], now, Classify), k + 1, rs, Summary.RuleFor(es[0].interval));
  }
}

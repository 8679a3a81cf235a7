/**
 The agent service as two threads over shared cells: the main thread, which starts the service, runs the writer loop
 and stops it, and the pipe dispatcher, which pauses, resumes, stops, takes markers and reports status. Every lock
 acquisition and every write is a step of its own.
 */
module Service {
  import opened Common

  const MARKER_RECENT_CAP: nat := 64
  const MARKER_PENDING_CAP: nat := 1024

  datatype Marker = Marker(wall: nat, text: string)

  // ---------------------------------------------------------------- shared cells

  /** The lifecycle state and the two flags the writer loop reads. */
  datatype Flags = Flags(running: bool, paused: bool, pause: bool, stop: bool)

  /**
   The pending queue and the status counters. The last three fields are history: every marker pushed, every marker
   drained, and for each marker that has left the queue whether it was drained.
   */
  datatype Marks = Marks(
    queue: seq<Marker>, recent: seq<Marker>, total: nat, dropped: nat,
    pushed: seq<Marker>, drained: seq<Marker>, fate: seq<bool>)

  datatype Lock = MarkersLock | StateLock | PathLock

  /** The nesting order of the locks. */
  function Rank(l: Lock): nat {
    match l
    case MarkersLock => 0
    case StateLock => 1
    case PathLock => 2
  }

  // ---------------------------------------------------------------- program counters

  /** Where a thread is; a counter names what the thread does next. */
  datatype Pc =
    | Idle
    | PauseWait | PauseTest | PauseFlag
    | ResumeWait | ResumeClear | ResumeStore
    | StopWait | StopRunning | StopPaused | StopPause | StopFlag
    | MarkWait(m: Marker) | MarkCheck(m: Marker) | DropWait(m: Marker) | DropCount(m: Marker) | MarkPush(m: Marker)
    | TallyWait(m: Marker) | TallyTotal(m: Marker) | TallyRecent(m: Marker)
    | StatusWait | StatusPath | StatusRead
    | StartWait | StartReset | StartPath | StartClear | StartPause | StartStop
    | PathWait(p: Option<string>) | PathWrite(p: Option<string>)
    | DrainWait | DrainTake

  function Held(pc: Pc): set<Lock> {
    match pc
    case PauseTest | PauseFlag | ResumeClear => {StateLock}
    case StopRunning | StopPaused | StopPause | StopFlag => {StateLock}
    case MarkCheck(_) | DropWait(_) | MarkPush(_) => {MarkersLock}
    case DropCount(_) => {MarkersLock, StateLock}
    case TallyTotal(_) | TallyRecent(_) => {StateLock}
    case StatusPath => {StateLock}
    case StatusRead => {StateLock, PathLock}
    case StartReset | StartPath | StartPause | StartStop => {StateLock}
    case StartClear => {StateLock, PathLock}
    case PathWrite(_) => {PathLock}
    case DrainTake => {MarkersLock}
    case _ => {}
  }

  /** The lock a thread needs before its next step. */
  function Wants(pc: Pc): Option<Lock> {
    match pc
    case PauseWait | ResumeWait | StopWait | DropWait(_) | TallyWait(_) | StatusWait | StartWait => Some(StateLock)
    case MarkWait(_) | DrainWait => Some(MarkersLock)
    case StatusPath | StartPath | PathWait(_) => Some(PathLock)
    case _ => None
  }

  /** The counter after the step; f and k are the cells before it. */
  function NextPc(pc: Pc, f: Flags, k: Marks): Pc {
    match pc
    case Idle => Idle
    case PauseWait => PauseTest
    case PauseTest => if f.running then PauseFlag else Idle
    case PauseFlag => Idle
    case ResumeWait => ResumeClear
    case ResumeClear => ResumeStore
    case ResumeStore => Idle
    case StopWait => StopRunning
    case StopRunning => StopPaused
    case StopPaused => StopPause
    case StopPause => StopFlag
    case StopFlag => Idle
    case MarkWait(m) => MarkCheck(m)
    case MarkCheck(m) => if |k.queue| >= MARKER_PENDING_CAP then DropWait(m) else MarkPush(m)
    case DropWait(m) => DropCount(m)
    case DropCount(m) => MarkPush(m)
    case MarkPush(m) => TallyWait(m)
    case TallyWait(m) => TallyTotal(m)
    case TallyTotal(m) => TallyRecent(m)
    case TallyRecent(m) => Idle
    case StatusWait => StatusPath
    case StatusPath => StatusRead
    case StatusRead => Idle
    case StartWait => StartReset
    case StartReset => StartPath
    case StartPath => StartClear
    case StartClear => StartPause
    case StartPause => StartStop
    case StartStop => Idle
    case PathWait(p) => PathWrite(p)
    case PathWrite(p) => Idle
    case DrainWait => DrainTake
    case DrainTake => Idle
  }

  function FlagsAfter(f: Flags, pc: Pc): Flags {
    match pc
    case PauseTest => if f.running then f.(paused := true) else f
    case PauseFlag => f.(pause := true)
    case ResumeClear => f.(paused := false)
    case ResumeStore => f.(pause := false)
    case StopRunning => f.(running := false)
    case StopPaused => f.(paused := false)
    case StopPause => f.(pause := false)
    case StopFlag => f.(stop := true)
    case StartReset => f.(running := true, paused := false)
    case StartPause => f.(pause := false)
    case StartStop => f.(stop := false)
    case _ => f
  }

  function Trues(n: nat): (r: seq<bool>)
    ensures |r| == n && forall i :: 0 <= i < n ==> r[i]
  {
    seq(n, i => true)
  }

  function MarksAfter(k: Marks, pc: Pc): Marks {
    match pc
    case MarkCheck(m) =>
      if |k.queue| >= MARKER_PENDING_CAP then k.(queue := k.queue[1..], fate := k.fate + [false]) else k
    case DropCount(m) => k.(dropped := k.dropped + 1)
    case MarkPush(m) => k.(queue := k.queue + [m], pushed := k.pushed + [m])
    case TallyTotal(m) => k.(total := k.total + 1)
    case TallyRecent(m) =>
      k.(recent := (if |k.recent| >= MARKER_RECENT_CAP then k.recent[1..] else k.recent) + [m])
    case StartReset => k.(recent := [], total := 0, dropped := 0)
    case DrainTake => k.(queue := [], drained := k.drained + k.queue, fate := k.fate + Trues(|k.queue|))
    case _ => k
  }

  // ---------------------------------------------------------------- the machine

  datatype Thread = Main | Dispatcher

  /** Before start, while the writer loop runs, after it, and after the final stop. */
  datatype Phase = Launching | Serving | Ending | Ended

  datatype State = State(phase: Phase, main: Pc, disp: Pc, f: Flags, k: Marks)

  const INITIAL: State :=
    State(Launching, Idle, Idle, Flags(false, false, false, false), Marks([], [], 0, 0, [], [], []))

  /** What an idle thread may begin: the main thread in program order, the dispatcher any verb once it is spawned. */
  predicate MayBegin(s: State, t: Thread, pc: Pc) {
    match t
    case Main =>
      (match s.phase
       case Launching => pc.StartWait?
       case Serving => pc.PathWait? || pc.DrainWait?
       case Ending => pc.StopWait?
       case Ended => false)
    case Dispatcher =>
      !s.phase.Launching? && (pc.PauseWait? || pc.ResumeWait? || pc.StopWait? || pc.MarkWait? || pc.StatusWait?)
  }

  /** One scheduling choice: a thread runs its next step, an idle thread begins a call, or the writer loop returns. */
  datatype Choice = Run(t: Thread) | Begin(t: Thread, pc: Pc) | LoopEnds

  function PcOf(s: State, t: Thread): Pc { if t.Main? then s.main else s.disp }

  function Other(s: State, t: Thread): Pc { if t.Main? then s.disp else s.main }

  predicate Blocked(pc: Pc, other: Pc) { Wants(pc).Some? && Wants(pc).value in Held(other) }

  function SetPc(s: State, t: Thread, pc: Pc): State { if t.Main? then s.(main := pc) else s.(disp := pc) }

  /** The end of start and of the final stop moves the main thread on. */
  function PhaseAfter(s: State, t: Thread): Phase {
    if t.Main? && s.main.StartStop? then Serving
    else if t.Main? && s.main.StopFlag? then Ended
    else s.phase
  }

  function RunStep(s: State, t: Thread): State {
    var pc := PcOf(s, t);
    var moved := SetPc(s, t, NextPc(pc, s.f, s.k));
    moved.(phase := PhaseAfter(s, t), f := FlagsAfter(s.f, pc), k := MarksAfter(s.k, pc))
  }

  /** A choice that is not possible changes nothing. */
  function Step(s: State, c: Choice): State {
    match c
    case Run(t) => if Blocked(PcOf(s, t), Other(s, t)) then s else RunStep(s, t)
    case Begin(t, pc) => if PcOf(s, t).Idle? && MayBegin(s, t, pc) then SetPc(s, t, pc) else s
    case LoopEnds => if s.phase.Serving? && s.main.Idle? then s.(phase := Ending) else s
  }

  function Exec(s: State, cs: seq<Choice>): State {
    if cs == [] then s else Step(Exec(s, cs[..|cs| - 1]), cs[|cs| - 1])
  }

  // ---------------------------------------------------------------- lock order

  /** Locks are only ever taken in rank order. */
  lemma LocksAreOrdered(pc: Pc)
    ensures Wants(pc).Some? ==> forall l :: l in Held(pc) ==> Rank(l) < Rank(Wants(pc).value)
  {
  }

  /** Thread i is blocked by the next one, the last by the first. */
  ghost predicate BlockedByNext(pcs: seq<Pc>, i: nat)
    requires i < |pcs|
  {
    Blocked(pcs[i], if i + 1 < |pcs| then pcs[i + 1] else pcs[0])
  }

  /** Threads waiting for each other in a ring. */
  ghost predicate Ring(pcs: seq<Pc>) {
    pcs != [] && forall i :: 0 <= i < |pcs| ==> BlockedByNext(pcs, i)
  }

  lemma {:induction false} RanksRise(pcs: seq<Pc>, i: nat)
    requires Ring(pcs) && i < |pcs|
    ensures Wants(pcs[0]).Some? && Wants(pcs[i]).Some?
    ensures Rank(Wants(pcs[i]).value) >= Rank(Wants(pcs[0]).value) + i
  {
    assert BlockedByNext(pcs, 0) && BlockedByNext(pcs, i);
    if i > 0 {
      RanksRise(pcs, i - 1);
      assert BlockedByNext(pcs, i - 1);
      LocksAreOrdered(pcs[i]);
    }
  }

  /** No ring of any number of threads, each blocked on the next, can exist. */
  lemma NoCyclicWait(pcs: seq<Pc>)
    ensures !Ring(pcs)
  {
    if Ring(pcs) {
      var n := |pcs| - 1;
      RanksRise(pcs, n);
      assert BlockedByNext(pcs, n);
      LocksAreOrdered(pcs[0]);
    }
  }

  // ---------------------------------------------------------------- the invariant

  /** Steps of the main thread. */
  predicate IsMain(pc: Pc) {
    pc.Idle? || InStart(pc) || InStop(pc) || pc.PathWait? || pc.PathWrite? || pc.DrainWait? || pc.DrainTake?
  }

  /** Steps of the dispatcher. */
  predicate IsDispatcher(pc: Pc) {
    || pc.Idle? || InStop(pc) || InMarker(pc) || pc.StatusWait? || pc.StatusPath? || pc.StatusRead?
    || pc.PauseWait? || pc.PauseTest? || pc.PauseFlag? || pc.ResumeWait? || pc.ResumeClear? || pc.ResumeStore?
  }

  predicate InStart(pc: Pc) {
    pc.StartWait? || pc.StartReset? || pc.StartPath? || pc.StartClear? || pc.StartPause? || pc.StartStop?
  }

  predicate InStop(pc: Pc) { pc.StopWait? || pc.StopRunning? || pc.StopPaused? || pc.StopPause? || pc.StopFlag? }

  predicate InMarker(pc: Pc) {
    || pc.MarkWait? || pc.MarkCheck? || pc.DropWait? || pc.DropCount? || pc.MarkPush?
    || pc.TallyWait? || pc.TallyTotal? || pc.TallyRecent?
  }

  /** In pause, resume, stop or start. */
  predicate InLifecycle(pc: Pc) {
    || InStart(pc) || InStop(pc) || pc.PauseWait? || pc.PauseTest? || pc.PauseFlag?
    || pc.ResumeWait? || pc.ResumeClear? || pc.ResumeStore?
  }

  predicate Exclusive(a: Pc, b: Pc) { Held(a) !! Held(b) }

  /** The program order of the main thread. */
  ghost predicate Ordered(s: State) {
    && IsMain(s.main) && IsDispatcher(s.disp)
    && (s.phase.Launching? ==> s.disp.Idle? && (s.main.Idle? || InStart(s.main)))
    && (!s.phase.Launching? ==> !InStart(s.main))
    && (InStop(s.main) ==> s.phase.Ending?)
  }

  /** What a thread inside a lifecycle call still owes the flags. */
  datatype Debt = Nothing | PauseOwes | ResumeOwes | StopOwesPaused | StopOwesPause | StopOwesStop

  function DebtOf(pc: Pc): Debt {
    match pc
    case PauseFlag => PauseOwes
    case ResumeStore => ResumeOwes
    case StopPaused => StopOwesPaused
    case StopPause => StopOwesPause
    case StopFlag => StopOwesStop
    case _ => Nothing
  }

  predicate Either(a: Debt, b: Debt, d: Debt) { a == d || b == d }

  /** The flag agrees with the state, or somebody is about to make it agree. */
  ghost predicate FlagSettles(f: Flags, a: Debt, b: Debt) {
    || f.pause == f.paused
    || (!f.paused && (Either(a, b, ResumeOwes) || Either(a, b, StopOwesPause)))
    || (f.paused && Either(a, b, PauseOwes))
  }

  ghost predicate FlagsInv(f: Flags, a: Debt, b: Debt) {
    && FlagSettles(f, a, b)
    && (f.paused ==> f.running || Either(a, b, StopOwesPaused))
    && (f.running ==> !f.stop)
    && (Either(a, b, StopOwesPaused) || Either(a, b, StopOwesPause) || Either(a, b, StopOwesStop) ==> !f.running)
    && (Either(a, b, StopOwesPause) || Either(a, b, StopOwesStop) || Either(a, b, ResumeOwes) ==> !f.paused)
    && (Either(a, b, PauseOwes) ==> f.paused && f.running)
  }

  /** The elements whose mark is true, in order. */
  function Select<T>(xs: seq<T>, mask: seq<bool>): seq<T>
    requires |xs| == |mask|
  {
    if xs == [] then []
    else Select(xs[..|xs| - 1], mask[..|mask| - 1]) + (if mask[|mask| - 1] then [xs[|xs| - 1]] else [])
  }

  function Falses(mask: seq<bool>): nat {
    if mask == [] then 0 else Falses(mask[..|mask| - 1]) + (if mask[|mask| - 1] then 0 else 1)
  }

  /** The queue is the tail of what was pushed; what left it was drained or dropped, as its fate says. */
  ghost predicate QueueInv(k: Marks) {
    && |k.fate| <= |k.pushed| && k.queue == k.pushed[|k.fate|..]
    && k.drained == Select(k.pushed[..|k.fate|], k.fate)
    && |k.queue| <= MARKER_PENDING_CAP
  }

  /** What the dispatcher inside an add_marker has not yet counted. */
  datatype Lag = Even | DropUncounted | RoomMade | TotalUncounted(m: Marker) | RecentUncounted(m: Marker)

  function LagOf(pc: Pc): Lag {
    match pc
    case DropWait(_) | DropCount(_) => DropUncounted
    case MarkPush(_) => RoomMade
    case TallyWait(m) => TotalUncounted(m)
    case TallyTotal(m) => TotalUncounted(m)
    case TallyRecent(m) => RecentUncounted(m)
    case _ => Even
  }

  predicate Untold(lag: Lag) { lag.TotalUncounted? || lag.RecentUncounted? }

  /** The markers the status view has been told about. */
  ghost function Told(pushed: seq<Marker>, lag: Lag): seq<Marker> {
    if Untold(lag) && pushed != [] then pushed[..|pushed| - 1] else pushed
  }

  /** The counters lag behind the queue only inside an add_marker. */
  ghost predicate CountersInv(k: Marks, lag: Lag) {
    && Falses(k.fate) == k.dropped + (if lag.DropUncounted? then 1 else 0)
    && (Untold(lag) ==> k.pushed != [] && k.pushed[|k.pushed| - 1] == lag.m)
    && k.total == |k.pushed| - (if lag.TotalUncounted? then 1 else 0)
    && k.recent == LastN(Told(k.pushed, lag), MARKER_RECENT_CAP)
    && (lag.DropUncounted? || lag.RoomMade? ==> |k.queue| < MARKER_PENDING_CAP)
  }

  ghost predicate Inv(s: State) {
    && Ordered(s) && Exclusive(s.main, s.disp)
    && FlagsInv(s.f, DebtOf(s.main), DebtOf(s.disp))
    && QueueInv(s.k) && CountersInv(s.k, LagOf(s.disp))
    && (s.phase.Launching? ==> s.k == INITIAL.k && !s.f.stop && !s.f.pause && !s.f.paused)
  }

  lemma InitialInv()
    ensures Inv(INITIAL)
  {
  }

  // ---------------------------------------------------------------- lifecycle steps keep it

  lemma NextHolds(pc: Pc, f: Flags, k: Marks)
    ensures Held(NextPc(pc, f, k)) <= Held(pc) + (if Wants(pc).Some? then {Wants(pc).value} else {})
  {
  }

  lemma StepIsExclusive(pc: Pc, other: Pc, f: Flags, k: Marks)
    requires Exclusive(pc, other) && !Blocked(pc, other)
    ensures Exclusive(NextPc(pc, f, k), other)
  {
    NextHolds(pc, f, k);
  }

  /** One step of a lifecycle call; pausing is safe because the other thread never resumes. */
  lemma StepKeepsFlags(f: Flags, k: Marks, pc: Pc, d: Debt)
    requires FlagsInv(f, DebtOf(pc), d) && !InStart(pc)
    requires StateLock in Held(pc) ==> d.Nothing? || d.ResumeOwes?
    requires pc.PauseTest? || pc.PauseFlag? ==> d.Nothing?
    ensures FlagsInv(FlagsAfter(f, pc), DebtOf(NextPc(pc, f, k)), d)
  {
  }

  lemma FlagsInvSwaps(f: Flags, a: Debt, b: Debt)
    requires FlagsInv(f, a, b)
    ensures FlagsInv(f, b, a)
  {
  }

  // ---------------------------------------------------------------- marker steps keep it

  lemma FateGrows(k: Marks, keep: bool)
    requires QueueInv(k) && k.queue != []
    ensures var n := |k.fate|; var x := k.pushed[n];
            && k.queue[0] == x && k.pushed[..n + 1] == k.pushed[..n] + [x] && k.queue[1..] == k.pushed[n + 1..]
            && Select(k.pushed[..n + 1], k.fate + [keep]) == k.drained + (if keep then [x] else [])
            && Falses(k.fate + [keep]) == Falses(k.fate) + (if keep then 0 else 1)
  {
    var n := |k.fate|;
    assert k.pushed[..n + 1][..n] == k.pushed[..n] && (k.fate + [keep])[..n] == k.fate;
  }

  lemma DropKeepsQueue(k: Marks, m: Marker)
    requires QueueInv(k)
    ensures QueueInv(MarksAfter(k, MarkCheck(m)))
    ensures CountersInv(k, Even) ==>
              CountersInv(MarksAfter(k, MarkCheck(m)),
                          if |k.queue| >= MARKER_PENDING_CAP then DropUncounted else RoomMade)
  {
    if |k.queue| >= MARKER_PENDING_CAP { FateGrows(k, false); }
  }

  lemma PushKeepsQueue(k: Marks, m: Marker)
    requires QueueInv(k) && |k.queue| < MARKER_PENDING_CAP
    ensures QueueInv(MarksAfter(k, MarkPush(m)))
    ensures CountersInv(k, RoomMade) ==> CountersInv(MarksAfter(k, MarkPush(m)), TotalUncounted(m))
  {
    var p := k.pushed + [m];
    assert p[..|k.fate|] == k.pushed[..|k.fate|] && p[|k.fate|..] == k.queue + [m];
    assert p[..|p| - 1] == k.pushed;
  }

  lemma TotalIsCounted(k: Marks, m: Marker)
    requires CountersInv(k, TotalUncounted(m))
    ensures CountersInv(MarksAfter(k, TallyTotal(m)), RecentUncounted(m))
  {
    assert Told(k.pushed, TotalUncounted(m)) == Told(k.pushed, RecentUncounted(m));
  }

  lemma RecentIsCounted(k: Marks, m: Marker)
    requires CountersInv(k, RecentUncounted(m))
    ensures CountersInv(MarksAfter(k, TallyRecent(m)), Even)
  {
    SlideWindow(Told(k.pushed, RecentUncounted(m)), m, MARKER_RECENT_CAP);
    assert k.pushed == Told(k.pushed, RecentUncounted(m)) + [m];
  }

  /** Draining one marker at a time, front first, is what draining all of them comes to. */
  lemma {:induction false} DrainAll(pushed: seq<Marker>, fate: seq<bool>, n: nat)
    requires |fate| + n <= |pushed|
    ensures Select(pushed[..|fate| + n], fate + Trues(n)) == Select(pushed[..|fate|], fate) + pushed[|fate|..|fate| + n]
    ensures Falses(fate + Trues(n)) == Falses(fate)
  {
    if n == 0 {
      assert fate + Trues(0) == fate;
    } else {
      DrainAll(pushed, fate, n - 1);
      var xs, mask := pushed[..|fate| + n], fate + Trues(n);
      assert xs[..|xs| - 1] == pushed[..|fate| + n - 1] && mask[..|mask| - 1] == fate + Trues(n - 1);
      assert pushed[|fate|..|fate| + n] == pushed[|fate|..|fate| + n - 1] + [pushed[|fate| + n - 1]];
    }
  }

  /** Drained and pending together are the markers pushed, in order, without the dropped ones. */
  lemma DrainedAndPending(k: Marks)
    requires QueueInv(k)
    ensures k.drained + k.queue == Select(k.pushed, k.fate + Trues(|k.queue|))
    ensures Falses(k.fate + Trues(|k.queue|)) == Falses(k.fate)
    ensures |k.pushed| == Falses(k.fate) + |k.drained| + |k.queue|
  {
    var n := |k.queue|;
    DrainAll(k.pushed, k.fate, n);
    assert k.pushed[..|k.fate| + n] == k.pushed && k.pushed[|k.fate|..|k.fate| + n] == k.queue;
    SelectCounts(k.pushed, k.fate + Trues(n));
  }

  lemma DrainKeepsQueue(k: Marks)
    requires QueueInv(k)
    ensures QueueInv(MarksAfter(k, DrainTake)) && Falses(MarksAfter(k, DrainTake).fate) == Falses(k.fate)
  {
    DrainedAndPending(k);
    assert k.pushed[..|k.pushed|] == k.pushed;
  }

  lemma DrainKeepsCounters(k: Marks, lag: Lag)
    requires CountersInv(k, lag) && Falses(MarksAfter(k, DrainTake).fate) == Falses(k.fate)
    ensures CountersInv(MarksAfter(k, DrainTake), lag)
  {
  }

  lemma QuietMarks(k: Marks, pc: Pc, f: Flags)
    requires !InMarker(pc) && !pc.StartReset? && !pc.DrainTake?
    ensures MarksAfter(k, pc) == k && LagOf(pc).Even? && LagOf(NextPc(pc, f, k)).Even?
  {
  }

  lemma DropCountKeeps(k: Marks, m: Marker)
    requires QueueInv(k) && CountersInv(k, DropUncounted)
    ensures QueueInv(MarksAfter(k, DropCount(m))) && CountersInv(MarksAfter(k, DropCount(m)), RoomMade)
  {
  }

  /** The step at this counter keeps the marker invariants. */
  ghost predicate StepKeepsMarks(k: Marks, b: Pc, f: Flags) {
    QueueInv(MarksAfter(k, b)) && CountersInv(MarksAfter(k, b), LagOf(NextPc(b, f, k)))
  }

  lemma MarkCheckKeeps(k: Marks, m: Marker, f: Flags)
    requires QueueInv(k) && CountersInv(k, Even)
    ensures StepKeepsMarks(k, MarkCheck(m), f)
  {
    DropKeepsQueue(k, m);
  }

  lemma DropCountStepKeeps(k: Marks, m: Marker, f: Flags)
    requires QueueInv(k) && CountersInv(k, DropUncounted)
    ensures StepKeepsMarks(k, DropCount(m), f)
  {
    DropCountKeeps(k, m);
  }

  lemma MarkPushKeeps(k: Marks, m: Marker, f: Flags)
    requires QueueInv(k) && CountersInv(k, RoomMade)
    ensures StepKeepsMarks(k, MarkPush(m), f)
  {
    PushKeepsQueue(k, m);
    assert LagOf(NextPc(MarkPush(m), f, k)) == TotalUncounted(m);
  }

  lemma TallyTotalKeeps(k: Marks, m: Marker, f: Flags)
    requires QueueInv(k) && CountersInv(k, TotalUncounted(m))
    ensures StepKeepsMarks(k, TallyTotal(m), f)
  {
    TotalIsCounted(k, m);
    assert LagOf(NextPc(TallyTotal(m), f, k)) == RecentUncounted(m);
  }

  lemma TallyRecentKeeps(k: Marks, m: Marker, f: Flags)
    requires QueueInv(k) && CountersInv(k, RecentUncounted(m))
    ensures StepKeepsMarks(k, TallyRecent(m), f)
  {
    RecentIsCounted(k, m);
  }

  lemma MarkerStepKeeps(k: Marks, b: Pc, f: Flags)
    requires QueueInv(k) && CountersInv(k, LagOf(b)) && InMarker(b)
    ensures StepKeepsMarks(k, b, f)
  {
    match b
    case MarkCheck(m) => MarkCheckKeeps(k, m, f);
    case DropCount(m) => DropCountStepKeeps(k, m, f);
    case MarkPush(m) => MarkPushKeeps(k, m, f);
    case TallyTotal(m) => TallyTotalKeeps(k, m, f);
    case TallyRecent(m) => TallyRecentKeeps(k, m, f);
    case _ =>
  }

  // ---------------------------------------------------------------- every run keeps it

  lemma StartStepKeepsInv(s: State)
    requires Inv(s) && InStart(s.main)
    ensures Inv(RunStep(s, Main))
  {
    StepIsExclusive(s.main, s.disp, s.f, s.k);
    StartIsQuiet(s.main, s.f, s.k);
    assert MarksAfter(INITIAL.k, s.main) == INITIAL.k;
  }

  lemma StartIsQuiet(pc: Pc, f: Flags, k: Marks)
    requires InStart(pc)
    ensures DebtOf(pc).Nothing? && DebtOf(NextPc(pc, f, k)).Nothing? && LagOf(pc).Even?
    ensures NextPc(pc, f, k).Idle? <==> pc.StartStop?
    ensures InStart(NextPc(pc, f, k)) <==> !pc.StartStop?
    ensures !f.stop && !f.pause && !f.paused ==>
              var g := FlagsAfter(f, pc); !g.stop && !g.pause && !g.paused && (g.running || g == f)
  {
  }

  lemma MainKeepsOrder(s: State)
    requires Ordered(s) && !InStart(s.main)
    ensures Ordered(RunStep(s, Main)) && RunStep(s, Main).phase.Launching? == s.phase.Launching?
    ensures s.phase.Launching? ==> RunStep(s, Main) == s
  {
  }

  lemma MainStepKeepsInv(s: State)
    requires Inv(s) && !Blocked(s.main, s.disp) && !InStart(s.main)
    ensures Inv(RunStep(s, Main))
  {
    MainKeepsOrder(s);
    StepIsExclusive(s.main, s.disp, s.f, s.k);
    MainDebts(s.main, s.disp);
    StepKeepsFlags(s.f, s.k, s.main, DebtOf(s.disp));
    if s.main.DrainTake? {
      DrainKeepsQueue(s.k);
      DrainKeepsCounters(s.k, LagOf(s.disp));
    } else {
      QuietMarks(s.k, s.main, s.f);
    }
  }

  lemma MainDebts(main: Pc, disp: Pc)
    requires IsMain(main) && Exclusive(main, disp)
    ensures StateLock in Held(main) ==> DebtOf(disp).Nothing? || DebtOf(disp).ResumeOwes?
    ensures StateLock in Held(disp) ==> DebtOf(main).Nothing?
    ensures !main.PauseTest? && !main.PauseFlag? && !InMarker(main)
  {
  }

  lemma DispatcherKeepsOrder(s: State)
    requires Ordered(s)
    ensures Ordered(RunStep(s, Dispatcher)) && RunStep(s, Dispatcher).phase == s.phase
    ensures s.phase.Launching? ==> RunStep(s, Dispatcher) == s
  {
  }

  lemma DispatcherStepKeepsInv(s: State)
    requires Inv(s) && !Blocked(s.disp, s.main)
    ensures Inv(RunStep(s, Dispatcher))
  {
    DispatcherKeepsOrder(s);
    StepIsExclusive(s.disp, s.main, s.f, s.k);
    MainDebts(s.main, s.disp);
    FlagsInvSwaps(s.f, DebtOf(s.main), DebtOf(s.disp));
    StepKeepsFlags(s.f, s.k, s.disp, DebtOf(s.main));
    FlagsInvSwaps(FlagsAfter(s.f, s.disp), DebtOf(NextPc(s.disp, s.f, s.k)), DebtOf(s.main));
    if InMarker(s.disp) { MarkerStepKeeps(s.k, s.disp, s.f); } else { QuietMarks(s.k, s.disp, s.f); }
  }

  lemma BeginIsQuiet(s: State, t: Thread, pc: Pc)
    requires MayBegin(s, t, pc)
    ensures Held(pc) == {} && DebtOf(pc).Nothing? && LagOf(pc).Even?
    ensures if t.Main? then IsMain(pc) else IsDispatcher(pc)
  {
  }

  lemma BeginKeepsOrder(s: State, t: Thread, pc: Pc)
    requires Ordered(s) && PcOf(s, t).Idle? && MayBegin(s, t, pc)
    ensures Ordered(SetPc(s, t, pc))
  {
    BeginIsQuiet(s, t, pc);
  }

  lemma BeginKeepsInv(s: State, t: Thread, pc: Pc)
    requires Inv(s) && PcOf(s, t).Idle? && MayBegin(s, t, pc)
    ensures Inv(SetPc(s, t, pc))
  {
    BeginIsQuiet(s, t, pc);
    BeginKeepsOrder(s, t, pc);
  }

  lemma StepKeepsInv(s: State, c: Choice)
    requires Inv(s)
    ensures Inv(Step(s, c))
  {
    match c
    case Run(t) =>
      if !Blocked(PcOf(s, t), Other(s, t)) {
        if t.Dispatcher? { DispatcherStepKeepsInv(s); }
        else if InStart(s.main) { StartStepKeepsInv(s); }
        else { MainStepKeepsInv(s); }
      }
    case Begin(t, pc) => if PcOf(s, t).Idle? && MayBegin(s, t, pc) { BeginKeepsInv(s, t, pc); }
    case LoopEnds =>
  }

  lemma {:induction false} ExecKeepsInv(cs: seq<Choice>)
    ensures Inv(Exec(INITIAL, cs))
    decreases |cs|
  {
    if cs == [] {
      InitialInv();
    } else {
      ExecKeepsInv(cs[..|cs| - 1]);
      StepKeepsInv(Exec(INITIAL, cs[..|cs| - 1]), cs[|cs| - 1]);
    }
  }

  // ---------------------------------------------------------------- what every run keeps

  /** Whenever no pause, resume, stop or start is under way: flag and state agree, and stopped is not running. */
  lemma LifecycleIsConsistent(cs: seq<Choice>)
    ensures var s := Exec(INITIAL, cs);
            !InLifecycle(s.main) && !InLifecycle(s.disp) ==>
              s.f.pause == s.f.paused && (s.f.paused ==> s.f.running) && (s.f.running ==> !s.f.stop)
  {
    ExecKeepsInv(cs);
  }

  /** Running and the stop flag exclude each other at every instant. */
  lemma RunningIsNeverStopped(cs: seq<Choice>)
    ensures !(Exec(INITIAL, cs).f.running && Exec(INITIAL, cs).f.stop)
  {
    ExecKeepsInv(cs);
  }

  /** The pending queue is bounded at every instant. */
  lemma PendingIsBounded(cs: seq<Choice>)
    ensures |Exec(INITIAL, cs).k.queue| <= 1024
  {
    ExecKeepsInv(cs);
  }

  /**
   Whenever no add_marker is under way: every accepted marker is dropped, drained or pending, and counted as such;
   drained and pending together are the accepted markers in order without the dropped ones; and the status view
   shows exactly the last 64.
   */
  lemma MarkersAreAccounted(cs: seq<Choice>)
    requires !InMarker(Exec(INITIAL, cs).disp)
    ensures var k := Exec(INITIAL, cs).k;
            && k.total == |k.pushed| == k.dropped + |k.drained| + |k.queue|
            && k.recent == LastN(k.pushed, 64)
            && |k.fate + Trues(|k.queue|)| == |k.pushed|
            && k.drained + k.queue == Select(k.pushed, k.fate + Trues(|k.queue|))
            && Falses(k.fate + Trues(|k.queue|)) == k.dropped
  {
    ExecKeepsInv(cs);
    Accounted(Exec(INITIAL, cs).k);
  }

  lemma Accounted(k: Marks)
    requires QueueInv(k) && CountersInv(k, Even)
    ensures k.total == |k.pushed| == k.dropped + |k.drained| + |k.queue|
    ensures k.recent == LastN(k.pushed, MARKER_RECENT_CAP)
    ensures k.drained + k.queue == Select(k.pushed, k.fate + Trues(|k.queue|))
    ensures Falses(k.fate + Trues(|k.queue|)) == k.dropped
  {
    DrainedAndPending(k);
  }

  lemma {:induction false} SelectCounts<T>(xs: seq<T>, mask: seq<bool>)
    requires |xs| == |mask|
    ensures |Select(xs, mask)| + Falses(mask) == |xs|
    decreases |xs|
  {
    if xs != [] { SelectCounts(xs[..|xs| - 1], mask[..|mask| - 1]); }
  }

  predicate CanRun(s: State, t: Thread) { !PcOf(s, t).Idle? && !Blocked(PcOf(s, t), Other(s, t)) }

  /** No reachable state is deadlocked: while any thread is inside a call, some thread can take its next step. */
  lemma NeverDeadlocked(cs: seq<Choice>)
    ensures var s := Exec(INITIAL, cs); !s.main.Idle? || !s.disp.Idle? ==> CanRun(s, Main) || CanRun(s, Dispatcher)
  {
    var s := Exec(INITIAL, cs);
    if Blocked(s.main, s.disp) && Blocked(s.disp, s.main) {
      assert BlockedByNext([s.main, s.disp], 0) && BlockedByNext([s.main, s.disp], 1);
      NoCyclicWait([s.main, s.disp]);
    }
  }

  // ---------------------------------------------------------------- two dispatchers

  /** Two dispatchers over the same cells and locks. */
  datatype Pair = Pair(a: Pc, b: Pc, f: Flags, k: Marks)

  /** One step of the first or the second, if no lock blocks it. */
  function PairStep(s: Pair, first: bool): Pair {
    var pc, other := if first then s.a else s.b, if first then s.b else s.a;
    if Blocked(pc, other) then s
    else
      var next := NextPc(pc, s.f, s.k);
      var t := s.(f := FlagsAfter(s.f, pc), k := MarksAfter(s.k, pc));
      if first then t.(a := next) else t.(b := next)
  }

  function PairRun(s: Pair, turns: seq<bool>): Pair
    decreases |turns|
  {
    if turns == [] then s else PairRun(PairStep(s, turns[0]), turns[1..])
  }

  /**
   Why there is one dispatcher: with two, this interleaving under the locks runs a whole pause between the unlock of
   resume and its flag store, and both calls return with the session paused and the flag clear.
   */
  lemma OneDispatcherIsNeeded(k: Marks)
    ensures var s := PairRun(Pair(ResumeWait, PauseWait, Flags(true, false, false, false), k),
                             [true, true, false, false, false, true]);
            s.a.Idle? && s.b.Idle? && s.f.running && s.f.paused && !s.f.pause
  {
    var s0 := Pair(ResumeWait, PauseWait, Flags(true, false, false, false), k);
    var s1 := PairStep(s0, true);
    var s2 := PairStep(s1, true);
    assert s2 == Pair(ResumeStore, PauseWait, Flags(true, false, false, false), k);
    var s3 := PairStep(s2, false);
    var s4 := PairStep(s3, false);
    var s5 := PairStep(s4, false);
    assert s5 == Pair(ResumeStore, Idle, Flags(true, true, true, false), k);
    var s6 := PairStep(s5, true);
    assert s6 == Pair(Idle, Idle, Flags(true, true, false, false), k);
    assert PairRun(s6, []) == s6;
    assert PairRun(s5, [true]) == s6;
    assert PairRun(s4, [false, true]) == s6;
    assert PairRun(s3, [false, false, true]) == s6;
    assert PairRun(s2, [false, false, false, true]) == s6;
    assert PairRun(s1, [true, false, false, false, true]) == s6;
  }

  // ---------------------------------------------------------------- the methods, uncontended

  /** Steps left before the call returns, at most. */
  function Left(pc: Pc): nat {
    match pc
    case Idle => 0
    case PauseFlag | ResumeStore | StopFlag | TallyRecent(_) | StatusRead | StartStop | PathWrite(_) | DrainTake => 1
    case PauseTest | ResumeClear | StopPause | TallyTotal(_) | StatusPath | StartPause | PathWait(_) | DrainWait => 2
    case PauseWait | ResumeWait | StopPaused | TallyWait(_) | StatusWait | StartClear => 3
    case StopRunning | MarkPush(_) | StartPath => 4
    case StopWait | DropCount(_) | StartReset => 5
    case DropWait(_) | StartWait => 6
    case MarkCheck(_) => 7
    case MarkWait(_) => 8
  }

  /** A call run to its end by a thread that nobody disturbs. */
  function Alone(pc: Pc, f: Flags, k: Marks): (Flags, Marks)
    decreases Left(pc)
  {
    if pc.Idle? then (f, k) else Alone(NextPc(pc, f, k), FlagsAfter(f, pc), MarksAfter(k, pc))
  }

  lemma StartAlone(f: Flags, k: Marks)
    ensures Alone(StartWait, f, k) == (Flags(true, false, false, false), k.(recent := [], total := 0, dropped := 0))
  {
    var g, k' := FlagsAfter(f, StartReset), MarksAfter(k, StartReset);
    StartPathAlone(g, k');
    assert Alone(StartWait, f, k) == Alone(StartReset, f, k) == Alone(StartPath, g, k');
  }

  lemma StartPathAlone(g: Flags, k: Marks)
    ensures Alone(StartPath, g, k) == (g.(pause := false, stop := false), k)
  {
    StartFlagsAlone(g, k);
    assert Alone(StartPath, g, k) == Alone(StartClear, g, k) == Alone(StartPause, g, k);
  }

  lemma StartFlagsAlone(g: Flags, k: Marks)
    ensures Alone(StartPause, g, k) == (g.(pause := false, stop := false), k)
  {
    assert Alone(StartPause, g, k) == Alone(StartStop, g.(pause := false), k);
  }

  lemma PauseAlone(f: Flags, k: Marks)
    ensures Alone(PauseWait, f, k) == (if f.running then f.(paused := true, pause := true) else f, k)
  {
    assert Alone(PauseWait, f, k) == Alone(PauseTest, f, k);
  }

  lemma ResumeAlone(f: Flags, k: Marks)
    ensures Alone(ResumeWait, f, k) == (f.(paused := false, pause := false), k)
  {
    assert Alone(ResumeWait, f, k) == Alone(ResumeClear, f, k) == Alone(ResumeStore, f.(paused := false), k);
  }

  lemma StopAlone(f: Flags, k: Marks)
    ensures Alone(StopWait, f, k) == (Flags(false, false, false, true), k)
  {
    var g := f.(running := false);
    assert Alone(StopFlag, g.(paused := false, pause := false), k) == (Flags(false, false, false, true), k);
    assert Alone(StopPaused, g, k) == Alone(StopPause, g.(paused := false), k);
    assert Alone(StopWait, f, k) == Alone(StopRunning, f, k) == Alone(StopPaused, g, k);
  }

  lemma MarkerAlone(m: Marker, f: Flags, k: Marks)
    ensures Alone(MarkWait(m), f, k) == (f, Added(k, m))
  {
    var e := Enqueued(k, m);
    TallyAlone(m, f, e);
    var room := MarksAfter(k, MarkCheck(m));
    assert Alone(MarkWait(m), f, k) == Alone(MarkCheck(m), f, k);
    if |k.queue| >= MARKER_PENDING_CAP {
      assert Alone(MarkCheck(m), f, k) == Alone(DropWait(m), f, room) == Alone(DropCount(m), f, room);
      assert Alone(DropCount(m), f, room) == Alone(MarkPush(m), f, MarksAfter(room, DropCount(m)));
    } else {
      assert Alone(MarkCheck(m), f, k) == Alone(MarkPush(m), f, room);
    }
  }

  lemma TallyAlone(m: Marker, f: Flags, e: Marks)
    ensures Alone(TallyWait(m), f, e) == (f, MarksAfter(MarksAfter(e, TallyTotal(m)), TallyRecent(m)))
  {
    var t := MarksAfter(e, TallyTotal(m));
    assert Alone(TallyRecent(m), f, t) == (f, MarksAfter(t, TallyRecent(m)));
    assert Alone(TallyWait(m), f, e) == Alone(TallyTotal(m), f, e) == Alone(TallyRecent(m), f, t);
  }

  lemma DrainAlone(f: Flags, k: Marks)
    ensures Alone(DrainWait, f, k) == (f, MarksAfter(k, DrainTake))
  {
    assert Alone(DrainWait, f, k) == Alone(DrainTake, f, k);
  }

  ghost predicate Accounts(k: Marks) { QueueInv(k) && CountersInv(k, Even) }

  /** The queue section of an add_marker, then its status section. */
  function Enqueued(k: Marks, m: Marker): Marks {
    var room := MarksAfter(k, MarkCheck(m));
    MarksAfter(if |k.queue| >= MARKER_PENDING_CAP then MarksAfter(room, DropCount(m)) else room, MarkPush(m))
  }

  function Added(k: Marks, m: Marker): Marks {
    MarksAfter(MarksAfter(Enqueued(k, m), TallyTotal(m)), TallyRecent(m))
  }

  lemma EnqueueKeeps(k: Marks, m: Marker)
    requires Accounts(k)
    ensures QueueInv(Enqueued(k, m)) && CountersInv(Enqueued(k, m), TotalUncounted(m))
  {
    DropKeepsQueue(k, m);
    var room := MarksAfter(k, MarkCheck(m));
    if |k.queue| >= MARKER_PENDING_CAP {
      DropCountKeeps(room, m);
      PushKeepsQueue(MarksAfter(room, DropCount(m)), m);
    } else {
      PushKeepsQueue(room, m);
    }
  }

  lemma AddedKeeps(k: Marks, m: Marker)
    requires Accounts(k)
    ensures Accounts(Added(k, m))
  {
    EnqueueKeeps(k, m);
    TallyBoth(Enqueued(k, m), m);
  }

  lemma TallyBoth(e: Marks, m: Marker)
    requires QueueInv(e) && CountersInv(e, TotalUncounted(m))
    ensures Accounts(MarksAfter(MarksAfter(e, TallyTotal(m)), TallyRecent(m)))
  {
    TotalIsCounted(e, m);
    RecentIsCounted(MarksAfter(e, TallyTotal(m)), m);
  }

  lemma DrainKeeps(k: Marks)
    requires Accounts(k)
    ensures Accounts(MarksAfter(k, DrainTake))
  {
    DrainKeepsQueue(k);
    DrainKeepsCounters(k, Even);
  }

  class AgentService {
    var f: Flags
    var k: Marks

    ghost predicate Consistent()
      reads this
    {
      f.pause == f.paused && (f.paused ==> f.running) && (f.running ==> !f.stop)
    }

    constructor ()
      ensures Consistent() && Accounts(k) && !f.running && k.queue == []
    {
      f := INITIAL.f;
      k := INITIAL.k;
    }

    /** The counters restart but the pending queue does not: the accounts balance exactly if it was empty. */
    method Start()
      modifies this
      ensures Consistent() && f == Flags(true, false, false, false) == Alone(StartWait, old(f), old(k)).0
      ensures k == Alone(StartWait, old(f), old(k)).1.(pushed := old(k.queue), drained := [], fate := [])
      ensures Accounts(k) <==> old(k.queue) == []
    {
      StartAlone(f, k);
      f := f.(running := true, paused := false);
      k := k.(recent := [], total := 0, dropped := 0);
      f := f.(pause := false);
      f := f.(stop := false);
      k := k.(pushed := k.queue, drained := [], fate := []);
    }

    method Pause()
      modifies this`f
      ensures (f, k) == Alone(PauseWait, old(f), k)
      ensures old(Consistent()) ==> Consistent() && f.paused == f.running == old(f.running)
    {
      PauseAlone(f, k);
      if f.running {
        f := f.(paused := true);
        f := f.(pause := true);
      }
    }

    method Resume()
      modifies this`f
      ensures (f, k) == Alone(ResumeWait, old(f), k)
      ensures !f.paused && (old(Consistent()) ==> Consistent())
    {
      ResumeAlone(f, k);
      f := f.(paused := false);
      f := f.(pause := false);
    }

    method Stop()
      modifies this`f
      ensures Consistent() && (f, k) == Alone(StopWait, old(f), k)
      ensures !f.running && f.stop
    {
      StopAlone(f, k);
      f := f.(running := false);
      f := f.(paused := false);
      f := f.(pause := false);
      f := f.(stop := true);
    }

    /** AddedKeeps and AddedMeans say what this does to the accounts. */
    method AddMarker(m: Marker)
      modifies this`k
      ensures (f, k) == Alone(MarkWait(m), f, old(k)) && k == Added(old(k), m)
    {
      MarkerAlone(m, f, k);
      if |k.queue| >= MARKER_PENDING_CAP {
        k := k.(queue := k.queue[1..], fate := k.fate + [false]);
        k := k.(dropped := k.dropped + 1);
      }
      k := k.(queue := k.queue + [m], pushed := k.pushed + [m]);
      k := k.(total := k.total + 1);
      var recent := k.recent;
      if |recent| >= MARKER_RECENT_CAP { recent := recent[1..]; }
      k := k.(recent := recent + [m]);
    }

    /** DrainKeeps says that the accounts stay balanced. */
    method DrainMarkers() returns (pending: seq<Marker>)
      modifies this`k
      ensures (f, k) == Alone(DrainWait, f, old(k))
      ensures k == MarksAfter(old(k), DrainTake) && k.queue == [] && pending == old(k.queue)
    {
      DrainAlone(f, k);
      pending := k.queue;
      k := k.(queue := [], drained := k.drained + pending, fate := k.fate + Trues(|pending|));
    }
  }

  /** What an accepted marker changes: it is the newest pending and shown, and at most the oldest is dropped. */
  lemma AddedMeans(k: Marks, m: Marker)
    requires Accounts(k)
    ensures var k' := Added(k, m);
            && k'.queue == LastN(k.queue + [m], 1024) && k'.recent == LastN(k'.pushed, 64)
            && k'.pushed == k.pushed + [m] && k'.total == k.total + 1 && k'.drained == k.drained
            && k'.dropped - k.dropped == |k.queue| + 1 - |k'.queue|
  {
    AddedKeeps(k, m);
  }
}

/**
 The collector scheduler as a concurrent protocol.

 N workers, one writer and an external stop source interleave atomic steps. Each step is one
 shared-memory access of the worker loop, of `SchedStats`, of the writer's receive loop or of
 `finish_bounded`. A schedule is any sequence of actions; an action whose thread cannot move
 leaves the state alone, so every sequence is a legal schedule.
 */
module Scheduler {

  /** A queued message: which worker produced it, and its payload. */
  datatype Message = Message(worker: nat, payload: int)

  /** Program counter of one worker thread. */
  datatype Pc =
    | Top                        // `while !stop`
    | Stagger(ms: nat)           // first-tick offset, inside sleep_checked
    | StaggerCheck               // stop re-read after the offset
    | Collect                    // inside the collector call, which may never return
    | Collected                  // stop re-read before the send
    | Bump                       // before_send: fetch_add on in_flight
    | LoadMax(n: int)            // before_send: load max_in_flight
    | Raise(n: int, max: int)    // before_send: compare-exchange loop
    | PollStop                   // send loop: stop re-read
    | TrySend                    // send loop: try_send
    | Backoff                    // send loop: 1 ms sleep on a full channel
    | Reconcile                  // after_recv for a message that was never queued
    | Pace(ms: nat)              // sleep_checked until the next tick
    | Leaving                    // thread body left, FinishedGuard not dropped yet
    | Done

  /** `collected` and `queued` record what the worker has produced and handed over so far. */
  datatype Worker = Worker(
    pc: Pc, first: bool, stagger: nat, msg: int,
    collected: seq<int>, queued: seq<int>)

  datatype WriterPc =
    | Receiving
    | Holding(m: Message)        // received, after_recv not called yet
    | Handling                   // acknowledged, sample being recorded
    | Stopping                   // receive loop left, stop not stored yet
    | Dropping                   // stop stored, receiver still alive
    | Joining                    // finish_bounded: about to load `finished`
    | Loaded(done: nat)          // finish_bounded: loaded, deadline not looked at yet
    | Returned(stuck: nat)

  /** `received` and `abandoned` record the writer's input and the messages discarded with the receiver. */
  datatype State = State(
    cap: nat, stop: bool, inFlight: int, maxInFlight: int,
    queue: seq<Message>, open: bool, workers: seq<Worker>, finished: nat,
    writer: WriterPc, received: seq<Message>, abandoned: seq<Message>)

  /** Everything the environment decides in one worker step. */
  datatype Choice = Choice(back: bool, panics: bool, payload: int, spurious: bool, wait: nat, knobChanged: bool)

  datatype Action =
    | Work(i: nat, c: Choice)
    | Receive
    | Acknowledge
    | NextMessage
    | LeaveLoop                  // stop flag, stop file, sample limit, write failure or disconnect
    | StoreStop
    | DropReceiver
    | LoadFinished
    | CheckDeadline(expired: bool)
    | Interrupt                  // console handler or injected signal stores the stop flag

  // ---------------------------------------------------------------- steps

  /** One iteration of sleep_checked; -1 means the sleep is over. */
  function SleepSlice(stop: bool, ms: nat, knobChanged: bool): (left: int)
    ensures left == -1 || 0 <= left < ms
  {
    if ms == 0 || stop then -1
    else
      var rest := if ms < 50 then 0 else ms - 50;
      if knobChanged then -1 else rest
  }

  /** What a worker can see of the shared state in one step. */
  datatype View = View(stop: bool, inFlight: int, maxInFlight: int, open: bool, full: bool)

  /** What one worker step does: its new local state and its one shared access. */
  datatype Effect = Effect(w: Worker, delta: int, newMax: int, sends: bool, finishes: bool)

  function Goto(w: Worker, v: View, pc: Pc): Effect {
    Effect(w.(pc := pc), 0, v.maxInFlight, false, false)
  }

  /** Steps of the loop around the collector call. */
  function MoveLoop(w: Worker, v: View, c: Choice): Effect {
    match w.pc
    case Top =>
      if v.stop then Goto(w, v, Leaving)
      else Goto(w.(first := false), v, if w.first && w.stagger > 0 then Stagger(w.stagger) else Collect)
    case Stagger(ms) =>
      var left := SleepSlice(v.stop, ms, false);
      Goto(w, v, if left < 0 then StaggerCheck else Stagger(left))
    case StaggerCheck => Goto(w, v, if v.stop then Leaving else Collect)
    case Pace(ms) =>
      var left := SleepSlice(v.stop, ms, c.knobChanged);
      Goto(w, v, if left < 0 then Top else Pace(left))
    case Leaving => Goto(w, v, Done).(finishes := true)
    case _ => Goto(w, v, w.pc)
  }

  /** The collector call and the steps of before_send. */
  function MoveCollect(w: Worker, v: View, c: Choice): Effect {
    match w.pc
    case Collect =>
      if !c.back then Goto(w, v, Collect)
      else if c.panics then Goto(w, v, Leaving)
      else Goto(w.(msg := c.payload, collected := w.collected + [c.payload]), v, Collected)
    case Collected => Goto(w, v, if v.stop then Leaving else Bump)
    case Bump => Goto(w, v, LoadMax(v.inFlight + 1)).(delta := 1)
    case LoadMax(n) => Goto(w, v, Raise(n, v.maxInFlight))
    case Raise(n, max) =>
      if n <= max then Goto(w, v, PollStop)
      else if v.maxInFlight == max && !c.spurious then Goto(w, v, PollStop).(newMax := n)
      else Goto(w, v, Raise(n, v.maxInFlight))
    case _ => MoveLoop(w, v, c)
  }

  /** One atomic step of a worker: the send loop, or one of the steps above. */
  function Move(w: Worker, v: View, c: Choice): Effect {
    match w.pc
    case PollStop => Goto(w, v, if v.stop then Reconcile else TrySend)
    case TrySend =>
      if !v.open then Goto(w, v, Reconcile)
      else if v.full then Goto(w, v, Backoff)
      else Goto(w.(queued := w.queued + [w.msg]), v, Pace(c.wait)).(sends := true)
    case Backoff => Goto(w, v, PollStop)
    case Reconcile => Goto(w, v, Leaving).(delta := -1)
    case _ => MoveCollect(w, v, c)
  }

  function Observe(s: State): View {
    View(s.stop, s.inFlight, s.maxInFlight, s.open, |s.queue| >= s.cap)
  }

  /** Publish the effect of a step of worker i. */
  function Commit(s: State, i: nat, e: Effect): State
    requires i < |s.workers|
  {
    s.(workers := s.workers[i := e.w],
       inFlight := s.inFlight + e.delta,
       maxInFlight := e.newMax,
       queue := if e.sends then s.queue + [Message(i, s.workers[i].msg)] else s.queue,
       finished := if e.finishes then s.finished + 1 else s.finished)
  }

  function WorkerStep(s: State, i: nat, c: Choice): State
    requires i < |s.workers|
  {
    Commit(s, i, Move(s.workers[i], Observe(s), c))
  }

  /** One action of the whole system; a disabled action changes nothing. */
  function Apply(s: State, a: Action): State {
    match a
    case Work(i, c) => if i < |s.workers| then WorkerStep(s, i, c) else s
    case Receive =>
      if s.writer.Receiving? && s.queue != [] then
        s.(writer := Holding(s.queue[0]), queue := s.queue[1..], received := s.received + [s.queue[0]])
      else s
    case Acknowledge =>
      if s.writer.Holding? then s.(writer := Handling, inFlight := s.inFlight - 1) else s
    case NextMessage => if s.writer.Handling? then s.(writer := Receiving) else s
    case LeaveLoop =>
      if s.writer.Receiving? || s.writer.Handling? then s.(writer := Stopping) else s
    case StoreStop => if s.writer.Stopping? then s.(writer := Dropping, stop := true) else s
    case DropReceiver =>
      if s.writer.Dropping? then
        s.(writer := Joining, open := false, abandoned := s.queue, queue := [])
      else s
    case LoadFinished => if s.writer.Joining? then s.(writer := Loaded(s.finished)) else s
    case CheckDeadline(expired) =>
      if !s.writer.Loaded? then s
      else if s.writer.done >= |s.workers| then s.(writer := Returned(0))
      else if expired then s.(writer := Returned(|s.workers| - s.writer.done))
      else s.(writer := Joining)
    case Interrupt => s.(stop := true)
  }

  predicate FreshWorker(w: Worker) {
    w.pc == Top && w.first && w.collected == [] && w.queued == []
  }

  /** `spawn` with any number of specs and any capacity; the stop flag may already be set. */
  predicate Init(s: State) {
    && s.inFlight == 0 && s.maxInFlight == 0 && s.queue == [] && s.open && s.finished == 0
    && s.writer == Receiving && s.received == [] && s.abandoned == []
    && forall i :: 0 <= i < |s.workers| ==> FreshWorker(s.workers[i])
  }

  function Exec(s: State, acts: seq<Action>): State
    decreases |acts|
  {
    if acts == [] then s else Apply(Exec(s, acts[..|acts| - 1]), acts[|acts| - 1])
  }

  /** The largest backlog at any point of the schedule: the reference for max_in_flight. */
  function Peak(s: State, acts: seq<Action>): int
    decreases |acts|
  {
    if acts == [] then s.inFlight
    else
      var before := Peak(s, acts[..|acts| - 1]);
      var now := Exec(s, acts).inFlight;
      if now > before then now else before
  }

  lemma {:induction false} PeakIsTheMaximum(s: State, acts: seq<Action>)
    ensures forall k :: 0 <= k <= |acts| ==> Exec(s, acts[..k]).inFlight <= Peak(s, acts)
    ensures exists k :: 0 <= k <= |acts| && Exec(s, acts[..k]).inFlight == Peak(s, acts)
    decreases |acts|
  {
    assert acts[..|acts|] == acts;
    if acts == [] {
      assert Exec(s, acts[..0]).inFlight == Peak(s, acts);
    } else {
      var init := acts[..|acts| - 1];
      PeakIsTheMaximum(s, init);
      forall k | 0 <= k <= |acts| ensures Exec(s, acts[..k]).inFlight <= Peak(s, acts) {
        if k < |acts| { assert init[..k] == acts[..k]; }
      }
      var k :| 0 <= k <= |init| && Exec(s, init[..k]).inFlight == Peak(s, init);
      assert init[..k] == acts[..k];
      if Exec(s, acts).inFlight > Peak(s, init) {
        assert Exec(s, acts[..|acts|]).inFlight == Peak(s, acts);
      } else {
        assert Exec(s, acts[..k]).inFlight == Peak(s, acts);
      }
    }
  }

  // ---------------------------------------------------------------- counting workers

  /** Between before_send and the queueing or the reconciling decrement. */
  predicate InWindow(w: Worker) {
    w.pc.LoadMax? || w.pc.Raise? || w.pc.PollStop? || w.pc.TrySend? || w.pc.Backoff? || w.pc.Reconcile?
  }

  predicate InBeforeSend(w: Worker) {
    w.pc.LoadMax? || w.pc.Raise?
  }

  predicate IsDone(w: Worker) {
    w.pc.Done?
  }

  function CountIf(ws: seq<Worker>, p: Worker -> bool): (n: nat)
    ensures n <= |ws|
  {
    if ws == [] then 0 else (if p(ws[0]) then 1 else 0) + CountIf(ws[1..], p)
  }

  lemma {:induction false} CountUpdate(ws: seq<Worker>, i: nat, w: Worker, p: Worker -> bool)
    requires i < |ws|
    ensures CountIf(ws[i := w], p)
         == CountIf(ws, p) - (if p(ws[i]) then 1 else 0) + (if p(w) then 1 else 0)
  {
    if i == 0 {
      assert ws[i := w][1..] == ws[1..];
    } else {
      assert ws[i := w][1..] == ws[1..][i - 1 := w];
      CountUpdate(ws[1..], i - 1, w, p);
    }
  }

  lemma {:induction false} CountNone(ws: seq<Worker>, p: Worker -> bool)
    requires forall i :: 0 <= i < |ws| ==> !p(ws[i])
    ensures CountIf(ws, p) == 0
  {
    if ws != [] { CountNone(ws[1..], p); }
  }

  lemma {:induction false} CountAll(ws: seq<Worker>, p: Worker -> bool)
    requires CountIf(ws, p) == |ws|
    ensures forall i :: 0 <= i < |ws| ==> p(ws[i])
  {
    if ws != [] { CountAll(ws[1..], p); }
  }

  // ---------------------------------------------------------------- the invariant

  function Held(s: State): nat { if s.writer.Holding? then 1 else 0 }

  /** in_flight is exactly the messages that are queued, being sent, held, or discarded with the receiver. */
  predicate BacklogInv(s: State) {
    && s.inFlight == |s.queue| + |s.abandoned| + CountIf(s.workers, InWindow) + Held(s)
    && |s.queue| + |s.abandoned| <= s.cap
    && (s.open ==> s.abandoned == [])
    && (!s.open ==> s.queue == [])
    && (s.open <==> (|| s.writer.Receiving? || s.writer.Holding? || s.writer.Handling?
                     || s.writer.Stopping? || s.writer.Dropping?))
  }

  predicate FinishInv(s: State) {
    && s.finished == CountIf(s.workers, IsDone)
    && (s.writer.Loaded? ==> s.writer.done <= s.finished)
    && (s.writer.Returned? ==> |s.workers| - s.finished <= s.writer.stuck)
    && (s.writer.Dropping? || s.writer.Joining? || s.writer.Loaded? || s.writer.Returned? ==> s.stop)
  }

  /** A collected sample is in hand and not queued yet. */
  predicate InHand(w: Worker) {
    w.pc.Collected? || w.pc.Bump? || InWindow(w)
  }

  /** What one worker has handed over, against what it has collected. */
  predicate LossInv(w: Worker) {
    if InHand(w) then w.collected == w.queued + [w.msg]
    else if w.pc.Leaving? || w.pc.Done? then AtMostLastLost(w)
    else w.collected == w.queued
  }

  predicate AtMostLastLost(w: Worker) {
    w.queued <= w.collected && |w.collected| <= |w.queued| + 1
  }

  /** Payloads of the messages of one worker, in order. */
  function From(ms: seq<Message>, i: nat): seq<int> {
    if ms == [] then []
    else
      var m := ms[|ms| - 1];
      From(ms[..|ms| - 1], i) + (if m.worker == i then [m.payload] else [])
  }

  /** All messages ever queued, in queueing order. */
  function Delivered(s: State): seq<Message> { s.received + s.abandoned + s.queue }

  predicate DeliveryInv(s: State) {
    forall i :: 0 <= i < |s.workers| ==> From(Delivered(s), i) == s.workers[i].queued
  }

  predicate CasInv(s: State, w: Worker) {
    && (InBeforeSend(w) ==> w.pc.n <= s.cap + |s.workers| + 1)
    && (w.pc.Raise? ==> 0 <= w.pc.max <= s.maxInFlight)
  }

  predicate Inv(s: State) {
    && BacklogInv(s) && FinishInv(s) && DeliveryInv(s)
    && s.maxInFlight >= 0
    && (forall i :: 0 <= i < |s.workers| ==> LossInv(s.workers[i]))
    && (forall i :: 0 <= i < |s.workers| ==> CasInv(s, s.workers[i]))
  }

  lemma InitEstablishesInv(s: State)
    requires Init(s)
    ensures Inv(s)
  {
    CountNone(s.workers, InWindow);
    CountNone(s.workers, IsDone);
  }

  function Bit(b: bool): int { if b then 1 else 0 }

  /** The facts about one step that the global invariant needs. */
  predicate Sound(w: Worker, v: View, e: Effect) {
    CountsSound(w, v, e) && CasSound(w, v, e) && (LossInv(w) ==> LossInv(e.w))
  }

  predicate CountsSound(w: Worker, v: View, e: Effect) {
    && e.delta == Bit(InWindow(e.w)) - Bit(InWindow(w)) + Bit(e.sends)
    && (e.sends ==> v.open && !v.full)
    && (e.w.queued == if e.sends then w.queued + [w.msg] else w.queued)
    && Bit(IsDone(e.w)) == Bit(IsDone(w)) + Bit(e.finishes)
  }

  predicate CasSound(w: Worker, v: View, e: Effect) {
    && e.newMax >= v.maxInFlight
    && (e.w.pc.Raise? ==> e.w.pc.max == v.maxInFlight)
    && (InBeforeSend(e.w) && InBeforeSend(w) ==> e.w.pc.n == w.pc.n)
    && (InBeforeSend(e.w) && !InBeforeSend(w) ==> e.w.pc.n == v.inFlight + 1 && e.delta == 1)
  }

  predicate IsLoopPc(pc: Pc) {
    pc.Top? || pc.Stagger? || pc.StaggerCheck? || pc.Pace? || pc.Leaving? || pc.Done?
  }

  lemma MoveLoopIsSound(w: Worker, v: View, c: Choice)
    requires IsLoopPc(w.pc)
    ensures Sound(w, v, MoveLoop(w, v, c))
  {
  }

  lemma MoveCollectIsSound(w: Worker, v: View, c: Choice)
    requires w.pc.Collect? || w.pc.Collected? || w.pc.Bump? || InBeforeSend(w)
    ensures Sound(w, v, MoveCollect(w, v, c))
  {
  }

  lemma MoveSendIsSound(w: Worker, v: View, c: Choice)
    requires InWindow(w) && !InBeforeSend(w)
    ensures Sound(w, v, Move(w, v, c))
  {
  }

  lemma MoveIsSound(w: Worker, v: View, c: Choice)
    ensures Sound(w, v, Move(w, v, c))
  {
    if IsLoopPc(w.pc) {
      MoveLoopIsSound(w, v, c);
    } else if InWindow(w) && !InBeforeSend(w) {
      MoveSendIsSound(w, v, c);
    } else {
      MoveCollectIsSound(w, v, c);
    }
  }

  lemma CommitKeepsBacklog(s: State, i: nat, e: Effect)
    requires BacklogInv(s) && i < |s.workers| && Sound(s.workers[i], Observe(s), e)
    ensures BacklogInv(Commit(s, i, e))
  {
    CountUpdate(s.workers, i, e.w, InWindow);
  }

  lemma CommitKeepsFinish(s: State, i: nat, e: Effect)
    requires FinishInv(s) && i < |s.workers| && Sound(s.workers[i], Observe(s), e)
    ensures FinishInv(Commit(s, i, e))
  {
    CountUpdate(s.workers, i, e.w, IsDone);
  }

  lemma CommitKeepsDelivery(s: State, i: nat, e: Effect)
    requires DeliveryInv(s) && i < |s.workers| && BacklogInv(s) && Sound(s.workers[i], Observe(s), e)
    ensures DeliveryInv(Commit(s, i, e))
  {
    if e.sends {
      var m := Message(i, s.workers[i].msg);
      assert Delivered(Commit(s, i, e)) == Delivered(s) + [m];
      assert (Delivered(s) + [m])[..|Delivered(s)|] == Delivered(s);
    }
  }

  lemma CommitKeepsCas(s: State, i: nat, e: Effect, j: nat)
    requires BacklogInv(s) && i < |s.workers| && j < |s.workers| && Sound(s.workers[i], Observe(s), e)
    requires CasInv(s, s.workers[j]) && s.maxInFlight >= 0
    ensures CasInv(Commit(s, i, e), Commit(s, i, e).workers[j])
  {
    CommitKeepsBacklog(s, i, e);
  }

  lemma WorkerKeepsInv(s: State, i: nat, c: Choice)
    requires Inv(s) && i < |s.workers|
    ensures Inv(WorkerStep(s, i, c))
  {
    MoveIsSound(s.workers[i], Observe(s), c);
    CommitKeepsInv(s, i, Move(s.workers[i], Observe(s), c));
  }

  lemma CommitKeepsInv(s: State, i: nat, e: Effect)
    requires Inv(s) && i < |s.workers| && Sound(s.workers[i], Observe(s), e)
    ensures Inv(Commit(s, i, e))
  {
    CommitKeepsBacklog(s, i, e);
    CommitKeepsFinish(s, i, e);
    CommitKeepsDelivery(s, i, e);
    forall j | 0 <= j < |s.workers| ensures CasInv(Commit(s, i, e), Commit(s, i, e).workers[j]) {
      CommitKeepsCas(s, i, e, j);
    }
  }

  lemma StepKeepsInv(s: State, a: Action)
    requires Inv(s)
    ensures Inv(Apply(s, a))
  {
    if a.Work? {
      if a.i < |s.workers| { WorkerKeepsInv(s, a.i, a.c); }
    } else {
      OtherKeepsInv(s, a);
    }
  }

  lemma OtherKeepsBacklog(s: State, a: Action)
    requires BacklogInv(s) && !a.Work?
    ensures BacklogInv(Apply(s, a))
  {
  }

  lemma OtherKeepsFinish(s: State, a: Action)
    requires FinishInv(s) && !a.Work?
    ensures FinishInv(Apply(s, a))
  {
  }

  lemma OtherKeepsDelivered(s: State, a: Action)
    requires BacklogInv(s) && !a.Work?
    ensures Delivered(Apply(s, a)) == Delivered(s)
  {
  }

  lemma OtherKeepsRest(s: State, a: Action)
    requires !a.Work?
    ensures Apply(s, a).workers == s.workers && Apply(s, a).maxInFlight == s.maxInFlight && Apply(s, a).cap == s.cap
    ensures s.stop ==> Apply(s, a).stop
  {
  }

  lemma OtherKeepsInv(s: State, a: Action)
    requires Inv(s) && !a.Work?
    ensures Inv(Apply(s, a))
  {
    OtherKeepsBacklog(s, a);
    OtherKeepsFinish(s, a);
    OtherKeepsDelivered(s, a);
    OtherKeepsRest(s, a);
    SameWorkersKeepInv(s, Apply(s, a));
  }

  lemma SameWorkersKeepInv(s: State, t: State)
    requires Inv(s) && BacklogInv(t) && FinishInv(t) && Delivered(t) == Delivered(s)
    requires t.workers == s.workers && t.maxInFlight == s.maxInFlight && t.cap == s.cap
    ensures Inv(t)
  {
    assert forall i :: 0 <= i < |s.workers| ==> CasInv(s, s.workers[i]) ==> CasInv(t, t.workers[i]);
  }

  lemma {:induction false} ExecKeepsInv(s: State, acts: seq<Action>)
    requires Inv(s)
    ensures Inv(Exec(s, acts))
    decreases |acts|
  {
    if acts != [] {
      ExecKeepsInv(s, acts[..|acts| - 1]);
      StepKeepsInv(Exec(s, acts[..|acts| - 1]), acts[|acts| - 1]);
    }
  }

  // ---------------------------------------------------------------- the high-water mark

  function Max(a: int, b: int): int { if a < b then b else a }

  predicate Raising(w: Worker, n: int) { InBeforeSend(w) && w.pc.n == n }

  /** The mark is the peak, or a thread still inside before_send is about to raise it to the peak. */
  predicate HighWater(s: State, peak: int) {
    && s.inFlight <= peak && s.maxInFlight <= peak
    && (forall i :: 0 <= i < |s.workers| && InBeforeSend(s.workers[i]) ==> s.workers[i].pc.n <= peak)
    && (s.maxInFlight == peak || exists i :: 0 <= i < |s.workers| && Raising(s.workers[i], peak))
  }

  predicate MarkSound(w: Worker, v: View, e: Effect) {
    && (e.newMax == v.maxInFlight || (Raising(w, e.newMax) && !InBeforeSend(e.w)))
    && (InBeforeSend(w) && !InBeforeSend(e.w) ==> e.newMax == w.pc.n || (w.pc.Raise? && w.pc.n <= w.pc.max))
    && (InBeforeSend(e.w) && !InBeforeSend(w) ==> e.w.pc.n == v.inFlight + e.delta)
    && (InBeforeSend(e.w) && InBeforeSend(w) ==> e.w.pc.n == w.pc.n)
    && (e.delta > 0 ==> !InBeforeSend(w) && InBeforeSend(e.w))
  }

  lemma MoveMark(w: Worker, v: View, c: Choice)
    ensures MarkSound(w, v, Move(w, v, c))
  {
    if IsLoopPc(w.pc) {
      MoveLoopMark(w, v, c);
    } else if InWindow(w) && !InBeforeSend(w) {
    } else {
      MoveCollectMark(w, v, c);
    }
  }

  lemma MoveCollectMark(w: Worker, v: View, c: Choice)
    requires w.pc.Collect? || w.pc.Collected? || w.pc.Bump? || InBeforeSend(w)
    ensures MarkSound(w, v, MoveCollect(w, v, c))
  {
  }

  lemma MoveLoopMark(w: Worker, v: View, c: Choice)
    requires IsLoopPc(w.pc)
    ensures MarkSound(w, v, MoveLoop(w, v, c))
  {
  }

  lemma CommitKeepsHighWater(s: State, i: nat, e: Effect, peak: int)
    requires i < |s.workers| && HighWater(s, peak) && CasInv(s, s.workers[i])
    requires MarkSound(s.workers[i], Observe(s), e) && e.newMax >= s.maxInFlight
    ensures HighWater(Commit(s, i, e), Max(peak, s.inFlight + e.delta))
  {
    var t := Commit(s, i, e);
    var top := Max(peak, s.inFlight + e.delta);
    if top > peak {
      assert Raising(t.workers[i], top);
    } else if t.maxInFlight != peak {
      var j :| 0 <= j < |s.workers| && Raising(s.workers[j], peak);
      assert Raising(t.workers[j], peak);
    }
  }

  lemma StepKeepsHighWater(s: State, a: Action, peak: int)
    requires Inv(s) && HighWater(s, peak)
    ensures HighWater(Apply(s, a), Max(peak, Apply(s, a).inFlight))
  {
    if a.Work? && a.i < |s.workers| {
      MoveMark(s.workers[a.i], Observe(s), a.c);
      MoveIsSound(s.workers[a.i], Observe(s), a.c);
      CommitKeepsHighWater(s, a.i, Move(s.workers[a.i], Observe(s), a.c), peak);
    } else if !a.Work? {
      OtherKeepsRest(s, a);
      OtherOnlyLowers(s, a);
      SameWorkersKeepHighWater(s, Apply(s, a), peak);
    }
  }

  lemma OtherOnlyLowers(s: State, a: Action)
    requires !a.Work?
    ensures Apply(s, a).inFlight <= s.inFlight
  {
  }

  lemma SameWorkersKeepHighWater(s: State, t: State, peak: int)
    requires HighWater(s, peak) && t.workers == s.workers && t.maxInFlight == s.maxInFlight && t.inFlight <= s.inFlight
    ensures HighWater(t, Max(peak, t.inFlight))
  {
  }

  lemma {:induction false} ExecKeepsHighWater(s: State, acts: seq<Action>)
    requires Init(s)
    ensures HighWater(Exec(s, acts), Peak(s, acts))
    decreases |acts|
  {
    if acts != [] {
      var init := acts[..|acts| - 1];
      ExecKeepsHighWater(s, init);
      InitEstablishesInv(s);
      ExecKeepsInv(s, init);
      StepKeepsHighWater(Exec(s, init), acts[|acts| - 1], Peak(s, init));
    }
  }

  // ---------------------------------------------------------------- progress after stop

  /** A scheduled step that is neither a blocked collector call nor a spurious compare-exchange failure. */
  predicate Productive(w: Worker, v: View, c: Choice) {
    && !w.pc.Done?
    && (w.pc.Collect? ==> c.back)
    && (w.pc.Raise? && w.pc.n > w.pc.max && v.maxInFlight == w.pc.max ==> !c.spurious)
  }

  /** Own steps a worker still needs once stop is set; `bound` caps the backlog counter. */
  function Rank(w: Worker, bound: nat): nat {
    match w.pc
    case Done => 0
    case Leaving => 1
    case Top => 2
    case Collected => 2
    case StaggerCheck => 2
    case Reconcile => 2
    case Collect => 3
    case Stagger(_) => 3
    case Pace(_) => 3
    case PollStop => 3
    case Raise(n, max) => if n <= max then 4 else 4 + (n - max)
    case Backoff => 4
    case TrySend => 5
    case LoadMax(n) => if n <= 0 then 5 else 5 + n
    case Bump => 6 + bound
  }

  lemma MoveLowersRank(w: Worker, v: View, c: Choice, bound: nat)
    requires v.stop && v.maxInFlight >= 0
    requires w.pc.Raise? ==> 0 <= w.pc.max <= v.maxInFlight
    requires w.pc.Bump? ==> v.inFlight < bound
    ensures Productive(w, v, c) ==> Rank(Move(w, v, c).w, bound) < Rank(w, bound)
    ensures !Productive(w, v, c) ==> Move(w, v, c).w.pc == w.pc
  {
    if IsLoopPc(w.pc) {
      MoveLoopLowersRank(w, v, c, bound);
    }
  }

  lemma MoveLoopLowersRank(w: Worker, v: View, c: Choice, bound: nat)
    requires v.stop && IsLoopPc(w.pc)
    ensures Productive(w, v, c) ==> Rank(MoveLoop(w, v, c).w, bound) < Rank(w, bound)
    ensures !Productive(w, v, c) ==> MoveLoop(w, v, c).w.pc == w.pc
  {
  }

  /** How many productive steps worker i takes in a schedule. */
  function OwnSteps(s: State, acts: seq<Action>, i: nat): nat
    requires i < |s.workers|
    decreases |acts|
  {
    if acts == [] then 0
    else
      var before := acts[..|acts| - 1];
      var a := acts[|acts| - 1];
      ExecKeepsShape(s, before);
      var t := Exec(s, before);
      OwnSteps(s, before, i) +
        (if a.Work? && a.i == i && Productive(t.workers[i], Observe(t), a.c) then 1 else 0)
  }

  lemma {:induction false} ExecKeepsShape(s: State, acts: seq<Action>)
    ensures |Exec(s, acts).workers| == |s.workers| && Exec(s, acts).cap == s.cap
    ensures s.stop ==> Exec(s, acts).stop
    decreases |acts|
  {
    if acts != [] {
      ExecKeepsShape(s, acts[..|acts| - 1]);
      var a := acts[|acts| - 1];
      if !a.Work? { OtherKeepsRest(Exec(s, acts[..|acts| - 1]), a); }
    }
  }

  /** The schedule starts in a state some run can reach. */
  ghost predicate Reachable(s: State) {
    exists s0, pre :: Init(s0) && s == Exec(s0, pre)
  }

  lemma ReachableInv(s: State)
    requires Reachable(s)
    ensures Inv(s)
  {
    var s0, pre :| Init(s0) && s == Exec(s0, pre);
    InitEstablishesInv(s0);
    ExecKeepsInv(s0, pre);
  }

  lemma OwnStepRank(t: State, i: nat, c: Choice)
    requires Inv(t) && t.stop && i < |t.workers|
    ensures var bound := t.cap + |t.workers| + 1;
            Rank(Move(t.workers[i], Observe(t), c).w, bound)
              + Bit(Productive(t.workers[i], Observe(t), c)) <= Rank(t.workers[i], bound)
  {
    assert CasInv(t, t.workers[i]);
    if t.workers[i].pc.Bump? { WindowLeavesRoom(t, i); }
    MoveLowersRank(t.workers[i], Observe(t), c, t.cap + |t.workers| + 1);
    SamePcSameRank(Move(t.workers[i], Observe(t), c).w, t.workers[i], t.cap + |t.workers| + 1);
  }

  lemma SamePcSameRank(w: Worker, u: Worker, bound: nat)
    ensures w.pc == u.pc ==> Rank(w, bound) == Rank(u, bound)
  {
  }

  lemma OneStepRank(t: State, a: Action, i: nat)
    requires Inv(t) && t.stop && i < |t.workers|
    ensures |Apply(t, a).workers| == |t.workers|
    ensures var bound := t.cap + |t.workers| + 1;
            Rank(Apply(t, a).workers[i], bound)
              + Bit(a.Work? && a.i == i && Productive(t.workers[i], Observe(t), a.c)) <= Rank(t.workers[i], bound)
  {
    if a.Work? {
      if a.i == i { OwnStepRank(t, i, a.c); }
    } else {
      OtherKeepsRest(t, a);
    }
  }

  lemma WindowLeavesRoom(t: State, i: nat)
    requires BacklogInv(t) && i < |t.workers| && !InWindow(t.workers[i])
    ensures t.inFlight <= t.cap + |t.workers|
  {
    CountUpdate(t.workers, i, t.workers[i].(pc := TrySend), InWindow);
  }

  // ---------------------------------------------------------------- main results

  /** in_flight is exact in every reachable state, never underflows and never passes capacity + N + 1. */
  lemma BacklogIsExact(s: State)
    requires Reachable(s)
    ensures s.open ==> s.inFlight == |s.queue| + CountIf(s.workers, InWindow) + Held(s)
    ensures s.inFlight == |s.queue| + |s.abandoned| + CountIf(s.workers, InWindow) + Held(s)
    ensures 0 <= s.inFlight <= s.cap + |s.workers| + 1
    ensures |s.queue| <= s.cap
  {
    ReachableInv(s);
  }

  /** Whenever no thread is inside before_send, max_in_flight is the exact historical peak. */
  lemma HighWaterIsExact(s0: State, acts: seq<Action>)
    requires Init(s0)
    requires forall i :: 0 <= i < |Exec(s0, acts).workers| ==> !InBeforeSend(Exec(s0, acts).workers[i])
    ensures Exec(s0, acts).maxInFlight == Peak(s0, acts)
  {
    ExecKeepsHighWater(s0, acts);
  }

  /** Each worker's queued samples are its collected ones in order, minus at most the last. */
  lemma LossIsAtMostTheLast(s: State, i: nat)
    requires Reachable(s) && i < |s.workers|
    ensures AtMostLastLost(s.workers[i])
    ensures s.workers[i].pc.Top? || s.workers[i].pc.Pace? ==> s.workers[i].queued == s.workers[i].collected
  {
    ReachableInv(s);
    assert LossInv(s.workers[i]);
  }

  /** The channel is first in, first out per worker: the writer has a prefix of what each worker queued. */
  lemma ChannelKeepsWorkerOrder(s: State, i: nat)
    requires Reachable(s) && i < |s.workers|
    ensures From(s.received + s.abandoned + s.queue, i) == s.workers[i].queued
    ensures From(s.received, i) <= s.workers[i].queued
  {
    ReachableInv(s);
    DeliveryKeepsOrder(s, i);
  }

  lemma DeliveryKeepsOrder(s: State, i: nat)
    requires DeliveryInv(s) && i < |s.workers|
    ensures From(s.received + s.abandoned + s.queue, i) == s.workers[i].queued
    ensures From(s.received, i) <= s.workers[i].queued
  {
    FromPrefix(s.received, s.abandoned + s.queue, i);
    assert s.received + s.abandoned + s.queue == s.received + (s.abandoned + s.queue);
  }

  lemma {:induction false} FromPrefix(a: seq<Message>, b: seq<Message>, i: nat)
    ensures From(a, i) <= From(a + b, i)
    decreases |b|
  {
    if b == [] {
      assert a + b == a;
    } else {
      FromPrefix(a, b[..|b| - 1], i);
      assert (a + b)[..|a + b| - 1] == a + b[..|b| - 1];
    }
  }

  lemma {:induction false} StepsSpendRank(s: State, acts: seq<Action>, i: nat, bound: nat)
    requires Inv(s) && s.stop && i < |s.workers| && bound == s.cap + |s.workers| + 1
    ensures |Exec(s, acts).workers| == |s.workers|
    ensures OwnSteps(s, acts, i) + Rank(Exec(s, acts).workers[i], bound) <= Rank(s.workers[i], bound)
    decreases |acts|
  {
    ExecKeepsShape(s, acts);
    if acts != [] {
      var before, a := acts[..|acts| - 1], acts[|acts| - 1];
      ExecKeepsShape(s, before);
      ExecKeepsInv(s, before);
      StepsSpendRank(s, before, i, bound);
      LastStepSpends(Exec(s, before), a, i, bound, OwnSteps(s, before, i), Rank(s.workers[i], bound));
    }
  }

  lemma LastStepSpends(t: State, a: Action, i: nat, bound: nat, spent: nat, total: nat)
    requires Inv(t) && t.stop && i < |t.workers| && bound == t.cap + |t.workers| + 1
    requires spent + Rank(t.workers[i], bound) <= total
    ensures |Apply(t, a).workers| == |t.workers|
    ensures spent + Bit(a.Work? && a.i == i && Productive(t.workers[i], Observe(t), a.c))
              + Rank(Apply(t, a).workers[i], bound) <= total
  {
    OneStepRank(t, a, i);
  }

  lemma RankIsBounded(s: State, i: nat)
    requires Inv(s) && i < |s.workers|
    ensures Rank(s.workers[i], s.cap + |s.workers| + 1) <= s.cap + |s.workers| + 7
    ensures forall bound: nat :: Rank(s.workers[i], bound) == 0 ==> IsDone(s.workers[i])
  {
    assert CasInv(s, s.workers[i]);
  }

  /**
   Once stop is set, under every schedule (the writer need never run, the channel may stay full) the
   productive steps of a worker never exceed capacity + N + 7, and a worker that has taken its rank of
   them has finished.
   */
  lemma ShutdownIsBounded(s: State, acts: seq<Action>, i: nat)
    requires Reachable(s) && s.stop && i < |s.workers|
    ensures |Exec(s, acts).workers| == |s.workers|
    ensures OwnSteps(s, acts, i) <= s.cap + |s.workers| + 7
    ensures OwnSteps(s, acts, i) >= Rank(s.workers[i], s.cap + |s.workers| + 1) ==> IsDone(Exec(s, acts).workers[i])
  {
    ReachableInv(s);
    ShutdownFrom(s, acts, i, s.cap + |s.workers| + 1);
  }

  lemma ShutdownFrom(s: State, acts: seq<Action>, i: nat, bound: nat)
    requires Inv(s) && s.stop && i < |s.workers| && bound == s.cap + |s.workers| + 1
    ensures |Exec(s, acts).workers| == |s.workers|
    ensures OwnSteps(s, acts, i) <= bound + 6
    ensures OwnSteps(s, acts, i) >= Rank(s.workers[i], bound) ==> IsDone(Exec(s, acts).workers[i])
  {
    RankIsBounded(s, i);
    StepsSpendRank(s, acts, i, bound);
    ExecKeepsInv(s, acts);
    NoRankIsDone(Exec(s, acts), i, bound);
  }

  lemma NoRankIsDone(t: State, i: nat, bound: nat)
    requires Inv(t) && i < |t.workers|
    ensures Rank(t.workers[i], bound) == 0 ==> IsDone(t.workers[i])
  {
    RankIsBounded(t, i);
  }

  /** No deadlock: an unfinished worker whose collector call has returned always gets closer to its exit. */
  lemma NeverStuckOutsideCollect(s: State, i: nat, c: Choice)
    requires Reachable(s) && s.stop && i < |s.workers|
    requires !IsDone(s.workers[i]) && (s.workers[i].pc.Collect? ==> c.back) && !c.spurious
    ensures var bound := s.cap + |s.workers| + 1;
            Rank(Apply(s, Work(i, c)).workers[i], bound) < Rank(s.workers[i], bound)
  {
    ReachableInv(s);
    OneStepRank(s, Work(i, c), i);
  }

  /** finish_bounded returns 0 only if every worker has finished, and otherwise at least the number still running. */
  lemma FinishBoundedIsHonest(s: State)
    requires Reachable(s) && s.writer.Returned?
    ensures s.writer.stuck == 0 ==> forall i :: 0 <= i < |s.workers| ==> IsDone(s.workers[i])
    ensures |s.workers| - CountIf(s.workers, IsDone) <= s.writer.stuck
    ensures s.stop && !s.open
  {
    ReachableInv(s);
    if s.writer.stuck == 0 { CountAll(s.workers, IsDone); }
  }

  // ---------------------------------------------------------------- the answer of finish_bounded

  /** Action k of the schedule reads the finished counter. */
  ghost predicate LoadsAt(s: State, acts: seq<Action>, k: nat) {
    k < |acts| && acts[k].LoadFinished? && Exec(s, acts[..k]).writer.Joining?
  }

  /** It is the last one to do so. */
  ghost predicate LastLoad(s: State, acts: seq<Action>, k: nat) {
    LoadsAt(s, acts, k) && forall j: nat :: k < j < |acts| ==> !LoadsAt(s, acts, j)
  }

  /** How many workers are running before action k. */
  ghost function RunningAt(s: State, acts: seq<Action>, k: nat): int
    requires k <= |acts|
  {
    var t := Exec(s, acts[..k]);
    |t.workers| - CountIf(t.workers, IsDone)
  }

  /** After the last load, at k, a look at the clock finds the deadline passed. */
  ghost predicate ExpiredAfter(s: State, acts: seq<Action>, k: nat, j: nat) {
    k < j < |acts| && acts[j] == CheckDeadline(true)
  }

  lemma LastLoadStays(s: State, acts: seq<Action>, a: Action, k: nat)
    requires LastLoad(s, acts, k) && !LoadsAt(s, acts + [a], |acts|)
    ensures LastLoad(s, acts + [a], k) && RunningAt(s, acts + [a], k) == RunningAt(s, acts, k)
    ensures forall j: nat :: ExpiredAfter(s, acts, k, j) ==> ExpiredAfter(s, acts + [a], k, j)
  {
    forall j: nat | j < |acts| ensures LoadsAt(s, acts + [a], j) <==> LoadsAt(s, acts, j) {
      LoadsInPrefix(s, acts, a, j);
    }
    assert (acts + [a])[..k] == acts[..k];
  }

  lemma LoadsInPrefix(s: State, acts: seq<Action>, a: Action, j: nat)
    requires j < |acts|
    ensures LoadsAt(s, acts + [a], j) <==> LoadsAt(s, acts, j)
  {
    assert (acts + [a])[..j] == acts[..j];
  }

  lemma LoadIsLast(s: State, acts: seq<Action>)
    requires Exec(s, acts).writer.Joining?
    ensures LastLoad(s, acts + [LoadFinished], |acts|)
  {
    assert (acts + [LoadFinished])[..|acts|] == acts;
  }

  /** What the writer holds is what the last load saw. */
  ghost predicate Answers(s: State, acts: seq<Action>, k: nat) {
    var w := Exec(s, acts).writer;
    && LastLoad(s, acts, k)
    && (w.Loaded? ==> |s.workers| - w.done == RunningAt(s, acts, k))
    && (w.Returned? ==> w.stuck == RunningAt(s, acts, k))
    && (w.Returned? && w.stuck > 0 ==> exists j: nat :: ExpiredAfter(s, acts, k, j))
  }

  predicate Asked(s: State) { s.writer.Loaded? || s.writer.Returned? }

  lemma {:induction false} WorkersStay(s: State, acts: seq<Action>)
    ensures |Exec(s, acts).workers| == |s.workers|
    decreases |acts|
  {
    if acts != [] {
      WorkersStay(s, acts[..|acts| - 1]);
      StepKeepsCrew(Exec(s, acts[..|acts| - 1]), acts[|acts| - 1]);
    }
  }

  lemma StepKeepsCrew(s: State, a: Action)
    ensures |Apply(s, a).workers| == |s.workers|
  {
    if a.Work? && a.i < |s.workers| { assert Apply(s, a) == WorkerStep(s, a.i, a.c); }
  }

  lemma AnswersAfter(s: State, acts: seq<Action>, a: Action, k: nat)
    requires Answers(s, acts, k) && Asked(Exec(s, acts)) && Asked(Exec(s, acts + [a]))
    ensures Answers(s, acts + [a], k)
  {
    var t := Exec(s, acts);
    assert (acts + [a])[..|acts|] == acts;
    assert Exec(s, acts + [a]) == Apply(t, a);
    LastLoadStays(s, acts, a, k);
    WorkersStay(s, acts);
    if t.writer.Loaded? && a == CheckDeadline(true) { assert ExpiredAfter(s, acts + [a], k, |acts|); }
  }

  lemma OnlyLoadAsks(t: State, a: Action)
    requires !Asked(t) && Asked(Apply(t, a))
    ensures a == LoadFinished && t.writer.Joining? && Apply(t, a) == t.(writer := Loaded(t.finished))
  {
  }

  lemma LoadAnswers(s: State, acts: seq<Action>, a: Action)
    requires Init(s) && !Asked(Exec(s, acts)) && Asked(Exec(s, acts + [a]))
    ensures Answers(s, acts + [a], |acts|)
  {
    var t := Exec(s, acts);
    assert (acts + [a])[..|acts|] == acts;
    assert Exec(s, acts + [a]) == Apply(t, a);
    OnlyLoadAsks(t, a);
    LoadIsLast(s, acts);
    InitEstablishesInv(s);
    ExecKeepsInv(s, acts);
    WorkersStay(s, acts);
  }

  /**
   On every schedule the answer is the number of workers that were running when the counter was last read, and an
   answer other than zero is only given after a look at the clock found the deadline passed.
   */
  lemma {:induction false} FinishBoundedIsExact(s: State, acts: seq<Action>)
    requires Init(s) && Asked(Exec(s, acts))
    ensures exists k: nat :: Answers(s, acts, k)
    decreases |acts|
  {
    var init, a := acts[..|acts| - 1], acts[|acts| - 1];
    assert init + [a] == acts;
    if Asked(Exec(s, init)) {
      FinishBoundedIsExact(s, init);
      var k: nat :| Answers(s, init, k);
      AnswersAfter(s, init, a, k);
    } else {
      LoadAnswers(s, init, a);
    }
  }

  /** One round of finish_bounded on a reachable state: done, expired or once more. */
  lemma FinishBoundedRound(s: State, expired: bool)
    requires Reachable(s) && s.writer.Joining?
    ensures var running := |s.workers| - CountIf(s.workers, IsDone);
            Apply(Apply(s, LoadFinished), CheckDeadline(expired)).writer
              == if running == 0 then Returned(0) else if expired then Returned(running) else Joining
  {
    ReachableInv(s);
  }

  /** After a clean shutdown the counter holds exactly the messages discarded with the receiver. */
  lemma CleanShutdownReconciles(s: State)
    requires Reachable(s) && s.writer == Returned(0)
    ensures s.inFlight == |s.abandoned| <= s.cap
    ensures forall i :: 0 <= i < |s.workers| ==> From(s.received + s.abandoned, i) == s.workers[i].queued
  {
    ReachableInv(s);
    FinishBoundedIsHonest(s);
    CountNone(s.workers, InWindow);
    assert Delivered(s) == s.received + s.abandoned;
  }

  // ---------------------------------------------------------------- a sample goes through

  /** Worker i alone, n steps, every call of the environment answered by c. */
  function Solo(s: State, i: nat, c: Choice, n: nat): State
    decreases n
  {
    if n == 0 then s else Solo(Apply(s, Work(i, c)), i, c, n - 1)
  }

  /** The steps of a tick: up to the send, counting, sending. */
  const TICK: nat := 3 + 4 + 1

  /** The state with worker i replaced. */
  function With(s: State, i: nat, w: Worker): State
    requires i < |s.workers|
  {
    s.(workers := s.workers[i := w])
  }

  lemma GoesTo(s: State, i: nat, c: Choice, w: Worker)
    requires i < |s.workers| && Move(s.workers[i], Observe(s), c) == Effect(w, 0, s.maxInFlight, false, false)
    ensures Apply(s, Work(i, c)) == With(s, i, w)
  {
  }

  /** From the head of the loop to the send, undisturbed: the sample is collected. */
  lemma CollectsAlone(s: State, i: nat, c: Choice)
    requires i < |s.workers| && !s.stop && c.back && !c.panics
    requires s.workers[i].pc == Top && (s.workers[i].first ==> s.workers[i].stagger == 0)
    ensures var w := s.workers[i];
            Solo(s, i, c, 3) == With(s, i, w.(pc := Bump, first := false, msg := c.payload,
                                              collected := w.collected + [c.payload]))
  {
    var w := s.workers[i];
    var w1 := w.(first := false, pc := Collect);
    var w2 := w1.(msg := c.payload, collected := w.collected + [c.payload], pc := Collected);
    GoesTo(s, i, c, w1);
    GoesTo(With(s, i, w1), i, c, w2);
    GoesTo(With(s, i, w2), i, c, w2.(pc := Bump));
    assert Solo(s, i, c, 3) == Solo(With(s, i, w1), i, c, 2) == Solo(With(s, i, w2), i, c, 1);
    assert Solo(With(s, i, w2), i, c, 1) == Solo(With(s, i, w2.(pc := Bump)), i, c, 0);
  }

  /** The counter is raised by one, and the high-water mark to it. */
  lemma CountsAlone(s: State, i: nat, c: Choice)
    requires i < |s.workers| && !s.stop && !c.spurious && s.workers[i].pc == Bump
    ensures var n := s.inFlight + 1;
            Solo(s, i, c, 4) == With(s, i, s.workers[i].(pc := TrySend)).(
              inFlight := n, maxInFlight := if n > s.maxInFlight then n else s.maxInFlight)
  {
    var w, n := s.workers[i], s.inFlight + 1;
    var s1 := With(s, i, w.(pc := LoadMax(n))).(inFlight := n);
    var s2 := With(s1, i, w.(pc := Raise(n, s.maxInFlight)));
    assert Apply(s, Work(i, c)) == s1;
    GoesTo(s1, i, c, w.(pc := Raise(n, s.maxInFlight)));
    var s3 := With(s2, i, w.(pc := PollStop)).(maxInFlight := if n > s.maxInFlight then n else s.maxInFlight);
    assert Apply(s2, Work(i, c)) == s3;
    GoesTo(s3, i, c, w.(pc := TrySend));
    assert Solo(s, i, c, 4) == Solo(s1, i, c, 3) == Solo(s2, i, c, 2) == Solo(s3, i, c, 1);
    assert Solo(s3, i, c, 1) == Solo(With(s3, i, w.(pc := TrySend)), i, c, 0);
  }

  lemma {:induction false} SoloAdds(s: State, i: nat, c: Choice, m: nat, n: nat)
    ensures Solo(s, i, c, m + n) == Solo(Solo(s, i, c, m), i, c, n)
    decreases m
  {
    if m > 0 { SoloAdds(Apply(s, Work(i, c)), i, c, m - 1, n); }
  }

  /** With room in the channel the message is queued behind the others. */
  lemma SendsAlone(s: State, i: nat, c: Choice)
    requires i < |s.workers| && s.open && |s.queue| < s.cap && s.workers[i].pc == TrySend
    ensures var w := s.workers[i];
            Solo(s, i, c, 1) == With(s, i, w.(pc := Pace(c.wait), queued := w.queued + [w.msg])).(
                                  queue := s.queue + [Message(i, w.msg)])
  {
    assert Solo(s, i, c, 1) == Solo(Apply(s, Work(i, c)), i, c, 0);
  }

  /**
   An undisturbed tick delivers: without a stop and with room in the channel, eight steps of a worker collect one
   sample and queue it behind the others, count it, and leave the worker waiting for its next tick.
   */
  lemma TickDelivers(s: State, i: nat, c: Choice)
    requires i < |s.workers| && !s.stop && s.open && |s.queue| < s.cap && c.back && !c.panics && !c.spurious
    requires s.workers[i].pc == Top && (s.workers[i].first ==> s.workers[i].stagger == 0)
    ensures var w, n := s.workers[i], s.inFlight + 1;
            Solo(s, i, c, TICK) ==
              With(s, i, w.(pc := Pace(c.wait), first := false, msg := c.payload,
                            collected := w.collected + [c.payload], queued := w.queued + [c.payload])).(
                queue := s.queue + [Message(i, c.payload)],
                inFlight := n, maxInFlight := if n > s.maxInFlight then n else s.maxInFlight)
  {
    CollectsAlone(s, i, c);
    var s3 := Solo(s, i, c, 3);
    CountsAlone(s3, i, c);
    var s7 := Solo(s3, i, c, 4);
    SendsAlone(s7, i, c);
    InThreeParts(s, i, c, 3, 4, 1);
  }

  lemma InThreeParts(s: State, i: nat, c: Choice, k: nat, m: nat, n: nat)
    ensures Solo(s, i, c, k + m + n) == Solo(Solo(Solo(s, i, c, k), i, c, m), i, c, n)
  {
    SoloAdds(s, i, c, k, m + n);
    SoloAdds(Solo(s, i, c, k), i, c, m, n);
  }

  /** A full channel only delays: the worker polls on and keeps its sample. */
  lemma FullChannelWaits(s: State, i: nat, c: Choice)
    requires i < |s.workers| && !s.stop && s.open && |s.queue| >= s.cap && s.workers[i].pc == TrySend
    ensures Solo(s, i, c, 3) == s
  {
    var w := s.workers[i];
    GoesTo(s, i, c, w.(pc := Backoff));
    var s1 := With(s, i, w.(pc := Backoff));
    GoesTo(s1, i, c, w.(pc := PollStop));
    var s2 := With(s1, i, w.(pc := PollStop));
    GoesTo(s2, i, c, w);
    assert s2.workers[i := w] == s.workers;
    assert Solo(s, i, c, 3) == Solo(s1, i, c, 2) == Solo(s2, i, c, 1) == Solo(s, i, c, 0);
  }

  /** One round of the writer takes the oldest message and acknowledges it. */
  lemma WriterTakesTheOldest(s: State)
    requires s.writer.Receiving? && s.queue != []
    ensures Apply(Apply(Apply(s, Receive), Acknowledge), NextMessage) ==
              s.(queue := s.queue[1..], received := s.received + [s.queue[0]], inFlight := s.inFlight - 1)
  {
  }

  /** The first tick waits for its offset and then collects. */
  lemma FirstTickIsStaggered(s: State, i: nat, c: Choice)
    requires i < |s.workers| && !s.stop && s.workers[i].pc == Top && s.workers[i].first && s.workers[i].stagger > 0
    ensures var n := (s.workers[i].stagger + 49) / 50 + 1;
            Solo(s, i, c, 1 + n + 1) == With(s, i, s.workers[i].(pc := Collect, first := false))
  {
    var w := s.workers[i].(first := false);
    var n := (w.stagger + 49) / 50 + 1;
    var s1 := With(s, i, w.(pc := Stagger(w.stagger)));
    GoesTo(s, i, c, w.(pc := Stagger(w.stagger)));
    StaggerEnds(s1, i, c, w.stagger);
    var s2 := With(s1, i, w.(pc := StaggerCheck));
    GoesTo(s2, i, c, w.(pc := Collect));
    assert Solo(s, i, c, 1 + n + 1) == Solo(s1, i, c, n + 1);
    SoloAdds(s1, i, c, n, 1);
    assert Solo(s2, i, c, 1) == Solo(With(s2, i, w.(pc := Collect)), i, c, 0);
  }

  lemma {:induction false} StaggerEnds(s: State, i: nat, c: Choice, ms: nat)
    requires i < |s.workers| && !s.stop && s.workers[i].pc == Stagger(ms)
    ensures Solo(s, i, c, (ms + 49) / 50 + 1) == With(s, i, s.workers[i].(pc := StaggerCheck))
    decreases ms
  {
    var w := s.workers[i];
    var n := (ms + 49) / 50 + 1;
    if ms == 0 {
      GoesTo(s, i, c, w.(pc := StaggerCheck));
      assert Solo(s, i, c, 1) == Solo(With(s, i, w.(pc := StaggerCheck)), i, c, 0);
    } else {
      var rest := if ms < 50 then 0 else ms - 50;
      GoesTo(s, i, c, w.(pc := Stagger(rest)));
      StaggerEnds(With(s, i, w.(pc := Stagger(rest))), i, c, rest);
      assert (rest + 49) / 50 + 1 == n - 1;
      assert Solo(s, i, c, n) == Solo(With(s, i, w.(pc := Stagger(rest))), i, c, n - 1);
    }
  }

  /** A wait of ms milliseconds, undisturbed, is over after one step per begun 50 ms and one more. */
  lemma {:induction false} PaceEnds(s: State, i: nat, c: Choice, ms: nat)
    requires i < |s.workers| && !s.stop && !c.knobChanged && s.workers[i].pc == Pace(ms)
    ensures Solo(s, i, c, (ms + 49) / 50 + 1) == With(s, i, s.workers[i].(pc := Top))
    decreases ms
  {
    var w := s.workers[i];
    var n := (ms + 49) / 50 + 1;
    if ms == 0 {
      GoesTo(s, i, c, w.(pc := Top));
      assert Solo(s, i, c, 1) == Solo(With(s, i, w.(pc := Top)), i, c, 0);
    } else {
      var rest := if ms < 50 then 0 else ms - 50;
      GoesTo(s, i, c, w.(pc := Pace(rest)));
      PaceEnds(With(s, i, w.(pc := Pace(rest))), i, c, rest);
      assert (rest + 49) / 50 + 1 == n - 1;
      assert Solo(s, i, c, n) == Solo(With(s, i, w.(pc := Pace(rest))), i, c, n - 1);
    }
  }
}

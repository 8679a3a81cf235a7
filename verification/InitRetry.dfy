/** Retrying a failed collector initialisation: capped doubling backoff counted in reads. */
module InitRetry {
  import opened Common

  datatype InitClass = PermanentUnsupported | PermissionElevation | TransientProvider | TemporaryDeviceGone

  predicate Retryable(c: InitClass) { c.TransientProvider? || c.TemporaryDeviceGone? }

  /** What an initialisation attempt meets. */
  datatype Answer = Works | Fails(c: InitClass)

  function Pow2(k: nat): nat { if k == 0 then 1 else 2 * Pow2(k - 1) }

  /** 5, 10, 20, ... capped at 320. */
  function BackoffTicks(attempts: nat): nat {
    var shift := if SatSub(attempts, 1) < 6 then SatSub(attempts, 1) else 6;
    var ticks := 5 * Pow2(shift);
    if ticks < 320 then ticks else 320
  }

  // ---------------------------------------------------------------- the classes

  class Guard {
    var failed: Option<InitClass>
    var attempts: nat
    var retryAt: nat

    constructor ()
      ensures failed == None && attempts == 0 && retryAt == 0
    {
      failed, attempts, retryAt := None, 0, 0;
    }

    predicate MayAttempt(tick: nat)
      reads this
    {
      failed.None? || (Retryable(failed.value) && tick >= retryAt)
    }

    method NoteFailure(tick: nat, c: InitClass)
      modifies this
      ensures failed == Some(c) && attempts == old(attempts) + 1 && retryAt == tick + BackoffTicks(attempts)
    {
      attempts := attempts + 1;
      retryAt := tick + BackoffTicks(attempts);
      failed := Some(c);
    }

    method NoteSuccess()
      modifies this
      ensures failed == None && attempts == 0 && retryAt == 0
    {
      failed, attempts, retryAt := None, 0, 0;
    }
  }

  class Collector {
    const retry: Guard
    var ready: bool
    var tick: nat
    ghost var log: seq<nat>

    ghost function S(): Init
      reads this, retry
    {
      Init(ready, retry.failed, retry.attempts, retry.retryAt, tick, log)
    }

    constructor ()
      ensures S() == START && fresh(retry)
    {
      var g := new Guard();
      retry, ready, tick, log := g, false, 0, [];
    }

    /** One read: the tick advances first, also when initialisation then fails. */
    method Read(answer: Answer) returns (ok: bool)
      modifies this, retry
      ensures S() == Next(old(S()), answer) && ok == ready
    {
      tick := tick + 1;
      if !ready && retry.MayAttempt(tick) {
        log := log + [tick];
        match answer
        case Works =>
          ready := true;
          retry.NoteSuccess();
        case Fails(c) =>
          retry.NoteFailure(tick, c);
      }
      ok := ready;
    }
  }

  // ---------------------------------------------------------------- runs

  /** The collector's initialisation state and the ticks of its attempts so far. */
  datatype Init = Init(ready: bool, failed: Option<InitClass>, attempts: nat, retryAt: nat, tick: nat, log: seq<nat>)

  const START := Init(false, None, 0, 0, 0, [])

  predicate MayAttempt(s: Init, tick: nat) {
    !s.ready && (s.failed.None? || (Retryable(s.failed.value) && tick >= s.retryAt))
  }

  function Next(s: Init, answer: Answer): Init {
    var tick := s.tick + 1;
    if !MayAttempt(s, tick) then s.(tick := tick)
    else
      match answer
      case Works => Init(true, None, 0, 0, tick, s.log + [tick])
      case Fails(c) =>
        Init(false, Some(c), s.attempts + 1, tick + BackoffTicks(s.attempts + 1), tick, s.log + [tick])
  }

  /** One answer per read; an answer counts only if that read attempts. */
  function Run(answers: seq<Answer>): Init {
    if answers == [] then START else Next(Run(answers[..|answers| - 1]), answers[|answers| - 1])
  }

  method Reads(answers: seq<Answer>) returns (c: Collector)
    ensures fresh(c) && fresh(c.retry) && c.S() == Run(answers)
  {
    c := new Collector();
    for i := 0 to |answers|
      invariant fresh(c) && fresh(c.retry) && c.S() == Run(answers[..i])
    {
      assert answers[..i + 1][..i] == answers[..i];
      var _ := c.Read(answers[i]);
    }
    assert answers[..|answers|] == answers;
  }

  // ---------------------------------------------------------------- the schedule

  /** The tick of attempt number k, counting from zero. */
  function AttemptTick(k: nat): nat { if k == 0 then 1 else AttemptTick(k - 1) + BackoffTicks(k) }

  lemma PowersOfTwo()
    ensures Pow2(1) == 2 && Pow2(2) == 4 && Pow2(3) == 8
    ensures Pow2(4) == 16 && Pow2(5) == 32 && Pow2(6) == 64 && Pow2(7) == 128
  {
    assert Pow2(3) == 8;
    assert Pow2(5) == 32;
  }

  lemma BackoffRange(k: nat)
    requires k >= 1
    ensures 5 <= BackoffTicks(k) <= 320
    ensures k <= 7 ==> BackoffTicks(k) == 5 * Pow2(k - 1)
    ensures k >= 7 ==> BackoffTicks(k) == 320
  {
    PowersOfTwo();
  }

  /** The closed form of the schedule. */
  lemma {:induction false} ScheduleInClosedForm(k: nat)
    ensures AttemptTick(k) == 1 + if k <= 7 then 5 * (Pow2(k) - 1) else 635 + 320 * (k - 7)
  {
    PowersOfTwo();
    if k > 0 {
      ScheduleInClosedForm(k - 1);
      BackoffRange(k);
    }
  }

  /** No attempt can follow: initialised, or failed for good. */
  predicate Settled(s: Init) { s.ready || (s.failed.Some? && !Retryable(s.failed.value)) }

  ghost predicate Scheduled(log: seq<nat>) { forall k :: 0 <= k < |log| ==> log[k] == AttemptTick(k) }

  /** The attempts made are the first ones of the schedule, and unless settled none is missing. */
  ghost predicate OnSchedule(s: Init) {
    && Scheduled(s.log)
    && (s.log != [] ==> s.log[|s.log| - 1] <= s.tick)
    && (!Settled(s) ==>
          && s.attempts == |s.log| && (s.failed.None? <==> s.log == [])
          && (s.log == [] ==> s.tick == 0)
          && (s.log != [] ==> s.retryAt == AttemptTick(|s.log|) && s.tick < s.retryAt))
  }

  lemma LogGrows(log: seq<nat>, tick: nat)
    requires Scheduled(log) && tick == AttemptTick(|log|)
    ensures Scheduled(log + [tick]) && AttemptTick(|log| + 1) == tick + BackoffTicks(|log| + 1) > tick
  {
    ScheduleGaps(|log| + 1);
  }

  lemma AttemptIsDue(s: Init)
    requires OnSchedule(s) && MayAttempt(s, s.tick + 1)
    ensures s.tick + 1 == AttemptTick(|s.log|) && s.attempts == |s.log|
  {
  }

  lemma NextIsOnSchedule(s: Init, answer: Answer)
    requires OnSchedule(s)
    ensures OnSchedule(Next(s, answer)) && Next(s, answer).tick == s.tick + 1
  {
    if MayAttempt(s, s.tick + 1) {
      AttemptIsDue(s);
      LogGrows(s.log, s.tick + 1);
    }
  }

  lemma {:induction false} RunIsOnSchedule(answers: seq<Answer>)
    ensures OnSchedule(Run(answers)) && Run(answers).tick == |answers|
    decreases |answers|
  {
    if answers != [] {
      RunIsOnSchedule(answers[..|answers| - 1]);
      NextIsOnSchedule(Run(answers[..|answers| - 1]), answers[|answers| - 1]);
    }
  }

  /**
   Never hot: on every run, whatever the answers, attempt k comes exactly 5*(2^k - 1) reads after the first for
   k up to 7, and 635 + 320*(k - 7) reads after it beyond that.
   */
  lemma AttemptsAreSpread(answers: seq<Answer>, k: nat)
    requires k < |Run(answers).log|
    ensures Run(answers).log[k] == Run(answers).log[0] + if k <= 7 then 5 * (Pow2(k) - 1) else 635 + 320 * (k - 7)
  {
    RunIsOnSchedule(answers);
    ScheduleInClosedForm(k);
    ScheduleInClosedForm(0);
  }

  lemma {:induction false} UnsettledWhileRetryable(answers: seq<Answer>)
    requires forall i :: 0 <= i < |answers| ==> answers[i].Fails? && Retryable(answers[i].c)
    ensures !Settled(Run(answers))
    decreases |answers|
  {
    if answers != [] { UnsettledWhileRetryable(answers[..|answers| - 1]); }
  }

  lemma ScheduleGaps(k: nat)
    requires k >= 1
    ensures AttemptTick(k - 1) + 5 <= AttemptTick(k) <= AttemptTick(k - 1) + 320
  {
    BackoffRange(k);
  }

  /** On every run consecutive attempts are between 5 and 320 reads apart. */
  lemma AttemptGaps(answers: seq<Answer>, k: nat)
    requires 0 < k < |Run(answers).log|
    ensures var log := Run(answers).log; log[k - 1] + 5 <= log[k] <= log[k - 1] + 320
  {
    RunIsOnSchedule(answers);
    ScheduleGaps(k);
  }

  /** Never stuck: while every failure is retryable, the last attempt is less than 320 reads old. */
  lemma AttemptsGoOn(answers: seq<Answer>)
    requires answers != []
    requires forall i :: 0 <= i < |answers| ==>
               answers[i] == Fails(TransientProvider) || answers[i] == Fails(TemporaryDeviceGone)
    ensures var log := Run(answers).log; log != [] && log[|log| - 1] <= |answers| < log[|log| - 1] + 320
  {
    RunIsOnSchedule(answers);
    UnsettledWhileRetryable(answers);
    ScheduleGaps(|Run(answers).log|);
  }

  /** Once settled, by success or by a permanent or permission failure, no later read attempts again. */
  lemma {:induction false} SettledForGood(answers: seq<Answer>, more: seq<Answer>)
    requires Settled(Run(answers))
    ensures Settled(Run(answers + more)) && Run(answers + more).log == Run(answers).log
    decreases |more|
  {
    if more == [] {
      assert answers + more == answers;
    } else {
      var init := more[..|more| - 1];
      SettledForGood(answers, init);
      assert (answers + more)[..|answers + more| - 1] == answers + init;
    }
  }

  /** A permanent or permission failure met by an attempt settles the collector, unready. */
  lemma PermanentFailureSettles(answers: seq<Answer>, c: InitClass, more: seq<Answer>)
    requires c in {PermanentUnsupported, PermissionElevation} && MayAttempt(Run(answers), |answers| + 1)
    ensures var s := Run(answers + [Fails(c)] + more);
            !s.ready && s.log == Run(answers).log + [|answers| + 1]
  {
    RunIsOnSchedule(answers);
    OneMore(answers, Fails(c));
    SettledForGood(answers + [Fails(c)], more);
    StaysUnready(answers + [Fails(c)], more);
  }

  lemma OneMore(answers: seq<Answer>, answer: Answer)
    ensures Run(answers + [answer]) == Next(Run(answers), answer)
  {
    assert (answers + [answer])[..|answers|] == answers;
  }

  lemma {:induction false} StaysUnready(answers: seq<Answer>, more: seq<Answer>)
    requires Settled(Run(answers)) && !Run(answers).ready
    ensures !Run(answers + more).ready && Settled(Run(answers + more))
    decreases |more|
  {
    if more == [] {
      assert answers + more == answers;
    } else {
      StaysUnready(answers, more[..|more| - 1]);
      assert (answers + more)[..|answers + more| - 1] == answers + more[..|more| - 1];
    }
  }

  /** What the last attempt met decides: ready exactly after success, failed with exactly the class it met. */
  lemma {:induction false} LastAttemptDecides(answers: seq<Answer>)
    ensures var s := Run(answers);
            && s.tick == |answers| && (s.log == [] ==> s == START.(tick := |answers|))
            && (s.log != [] ==>
                  var last := s.log[|s.log| - 1];
                  && 1 <= last <= |answers|
                  && (s.ready <==> answers[last - 1].Works?)
                  && s.failed == if answers[last - 1].Works? then None else Some(answers[last - 1].c))
    decreases |answers|
  {
    if answers != [] { LastAttemptDecides(answers[..|answers| - 1]); }
  }
}

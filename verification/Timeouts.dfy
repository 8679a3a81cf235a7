/** Timeout evidence: collectors whose samples stop are reported once per episode, and again when they recover. */
module Timeouts {
  import opened Common

  function SatU64(n: nat): nat { if n > U64_MAX then U64_MAX else n }

  /** Far beyond the cadence, in saturating 64-bit arithmetic. */
  predicate ArrivalOverdue(now: nat, last: nat, interval: nat) {
    SatSub(now, last) > SatU64(SatU64(3 * interval) + 2000)
  }

  datatype Event = TimedOut(name: string, now: nat) | Recovered(name: string)

  /** The watch, the last arrival of each collector, and the evidence written so far. */
  datatype Watch = Watch(timedOut: set<string>, episodes: nat, expected: map<string, nat>, events: seq<Event>)

  /** The collectors that run, the cadences known, and the start of the session. */
  datatype Setup = Setup(active: seq<string>, cadence: map<string, nat>, start: nat)

  /** A message taken from the channel, or one pass of the writer loop over the clock. */
  datatype Input = Arrival(name: string, mono: nat, paused: bool) | Poll(now: nat)

  const FRESH := Watch({}, 0, map[], [])

  function Base(w: Watch, setup: Setup, name: string): nat {
    if name in w.expected then w.expected[name] else setup.start
  }

  // ---------------------------------------------------------------- one input at a time

  predicate NewlyLate(w: Watch, setup: Setup, name: string, now: nat) {
    && name in setup.cadence && name !in w.timedOut
    && ArrivalOverdue(now, Base(w, setup, name), setup.cadence[name])
  }

  function PollOne(w: Watch, setup: Setup, name: string, now: nat): Watch {
    if NewlyLate(w, setup, name, now) then
      w.(timedOut := w.timedOut + {name}, episodes := w.episodes + 1, events := w.events + [TimedOut(name, now)])
    else w
  }

  /** After polling the first k active collectors. */
  function PollTo(w: Watch, setup: Setup, now: nat, k: nat): Watch
    requires k <= |setup.active|
  {
    if k == 0 then w else PollOne(PollTo(w, setup, now, k - 1), setup, setup.active[k - 1], now)
  }

  function Arrive(w: Watch, setup: Setup, name: string, mono: nat, paused: bool): Watch {
    var noted := if name in w.timedOut
                 then w.(timedOut := w.timedOut - {name}, events := w.events + [Recovered(name)]) else w;
    if paused || name in setup.cadence then noted.(expected := noted.expected[name := mono]) else noted
  }

  function After(setup: Setup, inputs: seq<Input>): Watch {
    if inputs == [] then FRESH
    else
      var w := After(setup, inputs[..|inputs| - 1]);
      match inputs[|inputs| - 1]
      case Arrival(name, mono, paused) => Arrive(w, setup, name, mono, paused)
      case Poll(now) => PollTo(w, setup, now, |setup.active|)
  }

  // ---------------------------------------------------------------- the classes

  class TimeoutWatch {
    var timedOut: set<string>
    var episodes: nat

    constructor ()
      ensures timedOut == {} && episodes == 0
    {
      timedOut, episodes := {}, 0;
    }

    method Poll(name: string, now: nat, last: nat, interval: nat) returns (entered: bool)
      modifies this
      ensures entered == (ArrivalOverdue(now, last, interval) && name !in old(timedOut))
      ensures timedOut == old(timedOut) + (if entered then {name} else {})
      ensures episodes == old(episodes) + (if entered then 1 else 0)
    {
      if ArrivalOverdue(now, last, interval) && name !in timedOut {
        timedOut := timedOut + {name};
        episodes := episodes + 1;
        return true;
      }
      return false;
    }

    method NoteArrival(name: string) returns (recovered: bool)
      modifies this`timedOut
      ensures recovered == (name in old(timedOut)) && timedOut == old(timedOut) - {name}
    {
      recovered := name in timedOut;
      timedOut := timedOut - {name};
    }
  }

  class Monitor {
    const timeouts: TimeoutWatch
    const setup: Setup
    var expected: map<string, nat>
    var events: seq<Event>

    ghost function W(): Watch
      reads this, timeouts
    {
      Watch(timeouts.timedOut, timeouts.episodes, expected, events)
    }

    constructor (s: Setup)
      ensures setup == s && W() == FRESH && fresh(timeouts)
    {
      var t := new TimeoutWatch();
      timeouts, setup, expected, events := t, s, map[], [];
    }

    /** A message: note the arrival, then keep the expected arrival current, also while paused. */
    method Receive(name: string, mono: nat, paused: bool)
      modifies this, timeouts
      ensures W() == Arrive(old(W()), setup, name, mono, paused)
    {
      var recovered := timeouts.NoteArrival(name);
      if recovered { events := events + [Recovered(name)]; }
      if paused {
        expected := expected[name := mono];
      } else if name in setup.cadence {
        expected := expected[name := mono];
      }
    }

    method PollCollectorTimeouts(now: nat)
      modifies this, timeouts
      ensures W() == PollTo(old(W()), setup, now, |setup.active|)
    {
      ghost var w := W();
      for i := 0 to |setup.active|
        invariant W() == PollTo(w, setup, now, i)
      {
        var name := setup.active[i];
        if name in setup.cadence {
          var base := if name in expected then expected[name] else setup.start;
          var late := timeouts.Poll(name, now, base, setup.cadence[name]);
          if late { events := events + [TimedOut(name, now)]; }
        }
      }
    }
  }

  /** A whole session of messages and passes. */
  method RunSession(setup: Setup, inputs: seq<Input>) returns (m: Monitor)
    ensures fresh(m) && fresh(m.timeouts) && m.W() == After(setup, inputs)
  {
    m := new Monitor(setup);
    for i := 0 to |inputs|
      invariant fresh(m) && fresh(m.timeouts) && m.setup == setup && m.W() == After(setup, inputs[..i])
    {
      assert inputs[..i + 1][..i] == inputs[..i];
      match inputs[i]
      case Arrival(name, mono, paused) => m.Receive(name, mono, paused);
      case Poll(now) => m.PollCollectorTimeouts(now);
    }
    assert inputs[..|inputs|] == inputs;
  }

  // ---------------------------------------------------------------- the evidence is exact

  /** The evidence about one collector. */
  function Of(events: seq<Event>, name: string): seq<Event> {
    if events == [] then []
    else
      var e := events[|events| - 1];
      Of(events[..|events| - 1], name) + (if e.name == name then [e] else [])
  }

  /** Timeout, recovery, timeout, recovery, ... */
  predicate Alternates(es: seq<Event>) { forall i :: 0 <= i < |es| ==> (es[i].TimedOut? <==> i % 2 == 0) }

  function CountTimeouts(events: seq<Event>): nat {
    if events == [] then 0
    else CountTimeouts(events[..|events| - 1]) + (if events[|events| - 1].TimedOut? then 1 else 0)
  }

  predicate EndsTimedOut(es: seq<Event>) { es != [] && es[|es| - 1].TimedOut? }

  ghost predicate Exact(w: Watch) {
    && w.episodes == CountTimeouts(w.events)
    && forall name :: Alternates(Of(w.events, name)) && (name in w.timedOut <==> EndsTimedOut(Of(w.events, name)))
  }

  lemma Appended(events: seq<Event>, e: Event)
    ensures CountTimeouts(events + [e]) == CountTimeouts(events) + (if e.TimedOut? then 1 else 0)
    ensures forall name :: Of(events + [e], name) == if e.name == name then Of(events, name) + [e] else Of(events, name)
  {
    assert (events + [e])[..|events|] == events;
  }

  lemma AlternationGrows(es: seq<Event>, e: Event)
    requires Alternates(es) && (e.TimedOut? <==> !EndsTimedOut(es))
    ensures Alternates(es + [e]) && (EndsTimedOut(es + [e]) <==> e.TimedOut?)
  {
  }

  lemma PollOneIsExact(w: Watch, setup: Setup, name: string, now: nat)
    requires Exact(w)
    ensures Exact(PollOne(w, setup, name, now))
  {
    if NewlyLate(w, setup, name, now) {
      Appended(w.events, TimedOut(name, now));
      AlternationGrows(Of(w.events, name), TimedOut(name, now));
    }
  }

  lemma {:induction false} PollIsExact(w: Watch, setup: Setup, now: nat, k: nat)
    requires Exact(w) && k <= |setup.active|
    ensures Exact(PollTo(w, setup, now, k))
  {
    if k > 0 {
      PollIsExact(w, setup, now, k - 1);
      PollOneIsExact(PollTo(w, setup, now, k - 1), setup, setup.active[k - 1], now);
    }
  }

  lemma ArriveIsExact(w: Watch, setup: Setup, name: string, mono: nat, paused: bool)
    requires Exact(w)
    ensures Exact(Arrive(w, setup, name, mono, paused))
  {
    if name in w.timedOut {
      Appended(w.events, Recovered(name));
      AlternationGrows(Of(w.events, name), Recovered(name));
    }
  }

  /**
   On every run: per collector the events alternate timeout and recovery, the episodes are the timeout events, and
   the timed-out collectors are those whose last event is a timeout.
   */
  lemma {:induction false} EvidenceIsExact(setup: Setup, inputs: seq<Input>)
    ensures Exact(After(setup, inputs))
    decreases |inputs|
  {
    if inputs != [] {
      var init := inputs[..|inputs| - 1];
      EvidenceIsExact(setup, init);
      match inputs[|inputs| - 1]
      case Arrival(name, mono, paused) => ArriveIsExact(After(setup, init), setup, name, mono, paused);
      case Poll(now) => PollIsExact(After(setup, init), setup, now, |setup.active|);
    }
  }

  // ---------------------------------------------------------------- who is flagged

  /** The monotonic stamp of a collector's last message, or the start of the session. */
  function LastSeen(setup: Setup, inputs: seq<Input>, name: string): nat {
    if inputs == [] then setup.start
    else
      var last := inputs[|inputs| - 1];
      if last.Arrival? && last.name == name then last.mono else LastSeen(setup, inputs[..|inputs| - 1], name)
  }

  lemma {:induction false} PollKeepsExpected(w: Watch, setup: Setup, now: nat, k: nat)
    requires k <= |setup.active|
    ensures PollTo(w, setup, now, k).expected == w.expected
  {
    if k > 0 { PollKeepsExpected(w, setup, now, k - 1); }
  }

  lemma {:induction false} ExpectedIsLastSeen(setup: Setup, inputs: seq<Input>, name: string)
    requires name in setup.cadence
    ensures Base(After(setup, inputs), setup, name) == LastSeen(setup, inputs, name)
    decreases |inputs|
  {
    if inputs != [] {
      var init := inputs[..|inputs| - 1];
      ExpectedIsLastSeen(setup, init, name);
      match inputs[|inputs| - 1]
      case Poll(now) => PollKeepsExpected(After(setup, init), setup, now, |setup.active|);
      case Arrival(_, _, _) =>
    }
  }

  /** Saturation never flags anyone early: on 64-bit stamps the test is the plain inequality. */
  lemma OverdueMeans(now: nat, last: nat, interval: nat)
    requires now <= U64_MAX
    ensures ArrivalOverdue(now, last, interval) <==> now > last + 3 * interval + 2000
  {
  }

  /** Among the first k active collectors, a poll flags exactly the overdue ones not already timed out. */
  lemma {:induction false} PollFlags(w: Watch, setup: Setup, now: nat, k: nat, name: string)
    requires k <= |setup.active|
    ensures name in PollTo(w, setup, now, k).timedOut <==>
              name in w.timedOut || (name in setup.active[..k] && NewlyLate(w, setup, name, now))
  {
    if k > 0 {
      PollFlags(w, setup, now, k - 1, name);
      PollKeepsExpected(w, setup, now, k - 1);
      assert setup.active[..k] == setup.active[..k - 1] + [setup.active[k - 1]];
    }
  }

  /**
   On every run a pass newly flags a collector exactly when it is active with a known cadence, not timed out already,
   and more than 3 cadences and 2 seconds have gone by since its last message, or since the start if it sent none.
   */
  lemma FlaggedExactlyWhenLate(setup: Setup, inputs: seq<Input>, now: nat, name: string)
    requires now <= U64_MAX
    ensures var before, after := After(setup, inputs), After(setup, inputs + [Poll(now)]);
            name in after.timedOut && name !in before.timedOut <==>
              && name in setup.active && name in setup.cadence && name !in before.timedOut
              && now > LastSeen(setup, inputs, name) + 3 * setup.cadence[name] + 2000
  {
    var w := After(setup, inputs);
    assert (inputs + [Poll(now)])[..|inputs|] == inputs;
    assert setup.active[..|setup.active|] == setup.active;
    PollFlags(w, setup, now, |setup.active|, name);
    if name in setup.cadence {
      ExpectedIsLastSeen(setup, inputs, name);
      OverdueMeans(now, LastSeen(setup, inputs, name), setup.cadence[name]);
    }
  }

  /** On every run a message ends the timeout of its collector, with one event exactly if there was one to end. */
  lemma ArrivalEndsTimeout(setup: Setup, inputs: seq<Input>, name: string, mono: nat, paused: bool)
    ensures var before, after := After(setup, inputs), After(setup, inputs + [Arrival(name, mono, paused)]);
            && after.timedOut == before.timedOut - {name} && after.episodes == before.episodes
            && after.events == before.events + (if name in before.timedOut then [Recovered(name)] else [])
  {
    assert (inputs + [Arrival(name, mono, paused)])[..|inputs|] == inputs;
  }
}

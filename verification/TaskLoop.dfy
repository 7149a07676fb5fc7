/** What the timer thread does round after round: it tests, runs one loop body and waits, counted along the events. */
module TaskLoop {
  import opened TimerStop

  /** The steps of a run of one kind; `f` sees the state before a step, the event and the state after it. */
  function Count(events: seq<Event>, f: (State, Event, State) -> bool): nat {
    if events == [] then 0 else
      var before := events[..|events| - 1];
      Count(before, f) + if f(Run(before), events[|events| - 1], Run(events)) then 1 else 0
  }

  predicate InWait(pc: TaskPc) {
    pc == Locking || pc == Checking || pc == Blocked || pc.Relocking? || pc.Resetting? || pc.Releasing?
  }

  predicate PassesTest(s: State, e: Event, u: State) {
    s.task == Testing && u.task != Testing && s.continuing
  }

  predicate StartsBody(s: State, e: Event, u: State) {
    s.task != Looping && u.task == Looping
  }

  predicate EntersWait(s: State, e: Event, u: State) {
    !InWait(s.task) && InWait(u.task)
  }

  predicate EndsWait(s: State, e: Event, u: State) {
    InWait(s.task) && !InWait(u.task)
  }

  /** A blocked wait ends by itself. */
  predicate Wakes(s: State, e: Event, u: State) {
    e.Wake? && s.task == Blocked
  }

  predicate SetsSignal(s: State, e: Event, u: State) {
    e.CallStep? && e.c in s.calls && s.calls[e.c].at == AtSet
  }

  function One(b: bool): nat {
    if b then 1 else 0
  }

  // ----- Rounds ------------------------------------------------------------------------------------------

  lemma StepOfRound(s: State, e: Event)
    ensures var u := Step(s, e);
      && One(PassesTest(s, e, u)) + One(s.task == Entering) == One(StartsBody(s, e, u)) + One(u.task == Entering)
      && One(StartsBody(s, e, u)) + One(s.task == Looping) == One(EntersWait(s, e, u)) + One(u.task == Looping)
      && One(EntersWait(s, e, u)) + One(InWait(s.task)) == One(EndsWait(s, e, u)) + One(InWait(u.task))
  {}

  /**
   In every run, each test passed with the flag true is followed by one loop body, and each body by one wait, before the
   next: the counts differ by the one in progress at most. So no wait comes without a body before it.
   */
  lemma {:induction false} EveryRoundHasOneBody(events: seq<Event>)
    ensures var s := Run(events);
      && Count(events, PassesTest) == Count(events, StartsBody) + One(s.task == Entering)
      && Count(events, StartsBody) == Count(events, EntersWait) + One(s.task == Looping)
      && Count(events, EntersWait) == Count(events, EndsWait) + One(InWait(s.task))
    decreases |events|
  {
    if events == [] {
    } else {
      hide Step, StartsBody, PassesTest, EntersWait, EndsWait, InWait;
      EveryRoundHasOneBody(events[..|events| - 1]);
      StepOfRound(Run(events[..|events| - 1]), events[|events| - 1]);
    }
  }

  /** `Task` alone starts a body with its third step. */
  lemma TaskAlone()
    ensures var events := [TaskStep, TaskStep, TaskStep];
      Run(events).task == Looping && Count(events, StartsBody) == 1
  {
    var one: seq<Event>, two: seq<Event> := [TaskStep], [TaskStep, TaskStep];
    assert one[..0] == [] && two[..1] == one && [TaskStep, TaskStep, TaskStep][..2] == two;
    assert Run(one).task == Testing && Run(two).task == Entering;
    assert Count(one, StartsBody) == 0 && Count(two, StartsBody) == 0;
  }

  /** After a stop that came once `Task` had begun, at most one more loop body starts, whatever follows. */
  lemma AtMostOneMoreLoop(events: seq<Event>, more: seq<Event>)
    requires StoppedLate(events)
    ensures Run(events + more).stopped && !Run(events + more).continuing
    ensures Count(events + more, StartsBody) <= Count(events, StartsBody) + 1
    ensures Count(events + more, PassesTest) == Count(events, PassesTest)
  {
    hide Run;
    NoTestAfterStop(events, more);
    EveryRoundHasOneBody(events);
    EveryRoundHasOneBody(events + more);
  }

  lemma {:induction false} NoTestAfterStop(events: seq<Event>, more: seq<Event>)
    requires StoppedLate(events)
    ensures Run(events + more).stopped && !Run(events + more).continuing
    ensures Count(events + more, PassesTest) == Count(events, PassesTest)
    decreases |more|
  {
    hide Exclusive, Consumed, Step, StoppedLate;
    RunsKeepInvariants(events + more);
    if more == [] {
      hide Run;
      StoppedMeansStoppedLate(events);
      assert events + more == events;
    } else {
      var before, e := more[..|more| - 1], more[|more| - 1];
      NoTestAfterStop(events, before);
      StepStops(Run(events + before), e);
      OneMore(events + before, e);
      assert (events + more)[..|events + more| - 1] == events + before;
      assert events + before + [e] == events + more;
    }
  }

  // ----- Waits ---------------------------------------------------------------------------------------------

  /** A wait that is under way may still end for a signal that is set, or about to be notified. */
  predicate Pending(s: State) {
    && !s.task.Relocking? && !s.task.Resetting?
    && (s.signal != WAITING || (s.owner.Signaller? && s.owner.c in s.calls && s.calls[s.owner.c].at == AtNotify))
  }

  predicate Woken(pc: TaskPc) {
    pc.Relocking? || pc.Resetting? || pc.Releasing?
  }

  lemma StepOfWait(s: State, e: Event)
    requires Exclusive(s)
    ensures var u := Step(s, e);
      One(EndsWait(s, e, u)) + One(Woken(u.task)) + One(Pending(u))
      <= One(Woken(s.task)) + One(Pending(s)) + One(Wakes(s, e, u)) + One(SetsSignal(s, e, u))
  {
    hide StepTask, StepCall, Exclusive;
    if e.TaskStep? && Enabled(s, e) {
      HolderOwns(s);
      TaskStepOfWait(s);
    } else if e.CallStep? && Enabled(s, e) {
      CallStepOfWait(s, e.c);
    } else if e.StopTask? || e.Signal? {
      CallsOwnNothing(s, e.c);
    }
  }

  lemma TaskStepOfWait(s: State)
    requires Enabled(s, TaskStep) && (TaskHolds(s.task) ==> s.owner == Task)
    ensures var u := StepTask(s);
      One(EndsWait(s, TaskStep, u)) + One(Woken(u.task)) + One(Pending(u)) <= One(Woken(s.task)) + One(Pending(s))
  {}

  lemma HolderOwns(s: State)
    requires Exclusive(s)
    ensures TaskHolds(s.task) ==> s.owner == Task
  {}

  lemma CallStepOfWait(s: State, c: Caller)
    requires Exclusive(s) && Enabled(s, CallStep(c))
    ensures var u := StepCall(s, c);
      && InWait(u.task) == InWait(s.task)
      && One(Woken(u.task)) + One(Pending(u))
         <= One(Woken(s.task)) + One(Pending(s)) + One(SetsSignal(s, CallStep(c), u))
  {}

  /** A call that has yet to come owns nothing. */
  lemma CallsOwnNothing(s: State, c: Caller)
    requires Exclusive(s)
    ensures c !in s.calls ==> s.owner != Signaller(c)
  {}

  /** No wait ends for nothing: each takes a signal that was set, or blocks and times out or wakes by itself. */
  lemma {:induction false} WaitsEndForAReason(events: seq<Event>)
    ensures Count(events, EndsWait) + One(Woken(Run(events).task)) + One(Pending(Run(events)))
            <= Count(events, Wakes) + Count(events, SetsSignal)
    decreases |events|
  {
    if events == [] {
    } else {
      hide Exclusive, Step, EndsWait, Woken, Pending, Wakes, SetsSignal;
      RunsKeepInvariants(events[..|events| - 1]);
      WaitsEndForAReason(events[..|events| - 1]);
      StepOfWait(Run(events[..|events| - 1]), events[|events| - 1]);
    }
  }

  /** Whether the present wait, if it has been woken, was woken by its timeout. */
  function TimedOut(events: seq<Event>): bool {
    if events == [] then false else
      var before, e := events[..|events| - 1], events[|events| - 1];
      if Run(before).task == Checking || Run(before).task == Blocked then e == Wake(true) else TimedOut(before)
  }

  lemma StepOfResult(s: State, e: Event, timedOut: bool)
    requires Exclusive(s)
    requires s.task.Relocking? ==> s.task.timedOut == timedOut
    requires s.task.Resetting? ==> s.task.result == if timedOut then TIMEOUT else s.signal
    ensures var u := Step(s, e);
      var now := if s.task == Checking || s.task == Blocked then e == Wake(true) else timedOut;
      && (u.task.Relocking? ==> u.task.timedOut == now)
      && (u.task.Resetting? ==> u.task.result == if now then TIMEOUT else u.signal)
  {}

  /** A wait returns a timeout if that is what woke it, and the signal that is set otherwise. */
  lemma {:induction false} WaitReturnsWhatItFound(events: seq<Event>)
    ensures var s := Run(events);
      && (s.task.Relocking? ==> s.task.timedOut == TimedOut(events))
      && (s.task.Resetting? ==> s.task.result == if TimedOut(events) then TIMEOUT else s.signal)
    decreases |events|
  {
    if events == [] {
    } else {
      hide Exclusive, Step;
      RunsKeepInvariants(events[..|events| - 1]);
      WaitReturnsWhatItFound(events[..|events| - 1]);
      StepOfResult(Run(events[..|events| - 1]), events[|events| - 1], TimedOut(events[..|events| - 1]));
    }
  }
}

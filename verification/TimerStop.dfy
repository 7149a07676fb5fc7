/**
 Stopping the timer: the timer thread runs `Task` while other threads call `StopTask` and `Signal`. Every read or write
 of a shared field is a step of its own, so the threads interleave in any order.
 */
module TimerStop {

  datatype SignalResult = WAITING | TIMEOUT | EXIT_LOOP

  /**
   Where `Task` is. From `Locking` to `Releasing` it is inside `Wait`; while `Checking`, `Resetting` or `Releasing` it
   holds the mutex, and while `Blocked` it sleeps on the condition variable, without the mutex.
   */
  datatype TaskPc =
    | NotStarted
    | Testing
    | Entering
    | Looping
    | Locking
    | Checking
    | Blocked
    | Relocking(timedOut: bool)
    | Resetting(result: SignalResult)
    | Releasing(result: SignalResult)
    | Done

  /** A call of `Signal` in progress; `stop` marks one that comes from a `StopTask` that found `Task` under way. */
  datatype Call = Call(value: SignalResult, stop: bool, at: CallPc)

  datatype CallPc = AtLock | AtSet | AtNotify | AtUnlock

  type Caller = nat

  datatype Owner = Nobody | Task | Signaller(c: Caller)

  /**
   The shared fields and the position of every thread. The rest is history: whether a `StopTask` wrote to `continuing`
   after `Task` began (`stopped`), and whether such a call has set the signal (`raised`) and has notified (`told`).
   */
  datatype State = State(
    continuing: bool, signal: SignalResult, owner: Owner, task: TaskPc, calls: map<Caller, Call>,
    stopped: bool, raised: bool, told: bool)

  /** A blocked wait may end by itself at any time: it times out, or it wakes for no reason. */
  datatype Event =
    | TaskStep
    | Wake(timedOut: bool)
    | StopTask(c: Caller)
    | Signal(c: Caller, value: SignalResult)
    | CallStep(c: Caller)

  function Initial(): State {
    State(false, WAITING, Nobody, NotStarted, map[], false, false, false)
  }

  predicate Enabled(s: State, e: Event) {
    match e
    case TaskStep =>
      && s.task != Blocked && s.task != Done
      && (s.task == Locking || s.task.Relocking? ==> s.owner == Nobody)
    case Wake(_) => s.task == Blocked
    case StopTask(c) => c !in s.calls
    case Signal(c, _) => c !in s.calls
    case CallStep(c) => c in s.calls && (s.calls[c].at == AtLock ==> s.owner == Nobody)
  }

  function StepTask(s: State): State {
    match s.task
    case NotStarted => s.(continuing := true, task := Testing)
    case Testing => s.(task := if s.continuing then Entering else Done)
    case Entering => s.(task := Looping)
    case Looping => s.(task := Locking)
    case Locking => s.(owner := Task, task := Checking)
    case Checking =>
      if s.signal == WAITING then s.(owner := Nobody, task := Blocked) else s.(task := Resetting(s.signal))
    case Relocking(timedOut) => s.(owner := Task, task := Resetting(if timedOut then TIMEOUT else s.signal))
    case Resetting(result) => s.(signal := WAITING, task := Releasing(result))
    case Releasing(_) => s.(owner := Nobody, task := Testing)
    case _ => s
  }

  function StepCall(s: State, c: Caller): State
    requires c in s.calls
  {
    var call := s.calls[c];
    match call.at
    case AtLock => s.(owner := Signaller(c), calls := s.calls[c := call.(at := AtSet)])
    case AtSet =>
      s.(signal := call.value, calls := s.calls[c := call.(at := AtNotify)], raised := s.raised || call.stop)
    case AtNotify =>
      s.(task := if s.task == Blocked then Relocking(false) else s.task,
         calls := s.calls[c := call.(at := AtUnlock)], told := s.told || call.stop)
    case AtUnlock => s.(owner := Nobody, calls := s.calls - {c})
  }

  /** An event that cannot occur is no step. `Task` never looks at the result of `Wait`. */
  function Step(s: State, e: Event): State {
    if !Enabled(s, e) then s else
      match e
      case TaskStep => StepTask(s)
      case Wake(timedOut) => s.(task := Relocking(timedOut))
      case StopTask(c) =>
        var late := s.task != NotStarted;
        s.(continuing := false, calls := s.calls[c := Call(EXIT_LOOP, late, AtLock)], stopped := s.stopped || late)
      case Signal(c, value) => s.(calls := s.calls[c := Call(value, false, AtLock)])
      case CallStep(c) => StepCall(s, c)
  }

  function Run(events: seq<Event>): State {
    if events == [] then Initial() else Step(Run(events[..|events| - 1]), events[|events| - 1])
  }

  // ----- Invariants --------------------------------------------------------------------------------------

  predicate TaskHolds(pc: TaskPc) {
    pc == Checking || pc.Resetting? || pc.Releasing?
  }

  /** The mutex has at most one owner, and its owner knows. */
  ghost predicate Exclusive(s: State) {
    && (s.owner == Task <==> TaskHolds(s.task))
    && (forall c :: c in s.calls ==> (s.calls[c].at != AtLock <==> s.owner == Signaller(c)))
    && (s.owner.Signaller? ==> s.owner.c in s.calls)
  }

  /** The loop goes on exactly when `Task` has begun and no stop has come since. */
  ghost predicate Stops(s: State) {
    && (s.continuing <==> s.task != NotStarted && !s.stopped)
    && (s.stopped ==> s.task != NotStarted)
    && (s.task == Done ==> s.stopped)
  }

  /** Between the test of the loop and the check for a signal, so on the way to blocking. */
  predicate TowardsWait(pc: TaskPc) {
    pc == Entering || pc == Looping || pc == Locking || pc == Checking
  }

  /**
   A stop that has set its signal cannot be missed: either `Task` will find it before it blocks, or it is blocked and
   about to be notified, or it will next test the loop.
   */
  ghost predicate Heard(s: State) {
    && (forall c :: c in s.calls ==> s.calls[c].value != WAITING)
    && (forall c :: c in s.calls && s.calls[c].stop ==> s.stopped)
    && (s.raised ==> s.stopped)
    && (s.raised && TowardsWait(s.task) ==> s.signal != WAITING)
    && (s.raised && s.task == Blocked ==>
          !s.told && s.owner.Signaller? && s.owner.c in s.calls && s.calls[s.owner.c].at == AtNotify)
    && (s.told ==> s.raised)
    && (forall c :: c in s.calls && s.calls[c].stop && s.calls[c].at == AtNotify ==> s.raised)
  }

  /** `Wait` returns the signal it found, unless it timed out, and takes it away before any other thread can set it. */
  predicate Consumed(s: State) {
    && (s.task.Resetting? ==> s.task.result == s.signal || s.task.result == TIMEOUT)
    && (s.task.Releasing? ==> s.signal == WAITING)
  }

  lemma TaskStepKeepsExclusive(s: State)
    requires Exclusive(s) && Enabled(s, TaskStep)
    ensures Exclusive(StepTask(s))
  {}

  lemma CallStepKeepsExclusive(s: State, c: Caller)
    requires Exclusive(s) && Enabled(s, CallStep(c))
    ensures Exclusive(StepCall(s, c))
  {}

  lemma StepKeepsExclusive(s: State, e: Event)
    requires Exclusive(s)
    ensures Exclusive(Step(s, e))
  {
    hide StepTask, StepCall;
    if e == TaskStep && Enabled(s, e) {
      TaskStepKeepsExclusive(s);
    } else if e.CallStep? && Enabled(s, e) {
      CallStepKeepsExclusive(s, e.c);
    }
  }

  lemma StepKeepsStops(s: State, e: Event)
    requires Stops(s)
    ensures Stops(Step(s, e))
  {}

  lemma StepKeepsConsumed(s: State, e: Event)
    requires Exclusive(s) && Consumed(s)
    ensures Consumed(Step(s, e))
  {}

  lemma StepKeepsHeard(s: State, e: Event)
    requires Exclusive(s) && Stops(s) && Heard(s) && (e.Signal? ==> e.value != WAITING)
    ensures Heard(Step(s, e))
  {
    hide Exclusive, Stops, Heard, StepTask, StepCall;
    if !Enabled(s, e) {
    } else if e.TaskStep? {
      TaskStepKeepsHeard(s);
    } else if e.CallStep? {
      CallStepKeepsHeard(s, e.c);
    } else {
      OtherStepKeepsHeard(s, e);
    }
  }

  lemma TaskStepKeepsHeard(s: State)
    requires Exclusive(s) && Stops(s) && Heard(s) && Enabled(s, TaskStep)
    ensures Heard(StepTask(s))
  {}

  lemma CallStepKeepsHeard(s: State, c: Caller)
    requires Exclusive(s) && Heard(s) && Enabled(s, CallStep(c))
    ensures Heard(StepCall(s, c))
  {}

  lemma OtherStepKeepsHeard(s: State, e: Event)
    requires Stops(s) && Heard(s) && Enabled(s, e) && !e.TaskStep? && !e.CallStep?
    requires e.Signal? ==> e.value != WAITING
    ensures Heard(Step(s, e))
  {}

  lemma {:induction false} RunsKeepInvariants(events: seq<Event>)
    ensures Exclusive(Run(events)) && Stops(Run(events)) && Consumed(Run(events))
    decreases |events|
  {
    if events == [] {
    } else {
      RunsKeepInvariants(events[..|events| - 1]);
      hide Exclusive, Stops, Consumed;
      StepKeepsConsumed(Run(events[..|events| - 1]), events[|events| - 1]);
      StepKeepsExclusive(Run(events[..|events| - 1]), events[|events| - 1]);
      StepKeepsStops(Run(events[..|events| - 1]), events[|events| - 1]);
    }
  }

  /** In every run the mutex has one owner, and a wait that ends has consumed exactly the signal it returns. */
  lemma WaitConsumesItsSignal(events: seq<Event>)
    ensures var s := Run(events);
      && (TaskHolds(s.task) ==> forall c :: c in s.calls ==> s.calls[c].at == AtLock)
      && (s.task.Resetting? ==> s.task.result == s.signal || s.task.result == TIMEOUT)
      && (s.task.Releasing? ==> s.signal == WAITING)
  {
    RunsKeepInvariants(events);
  }

  // ----- A stop is heard ---------------------------------------------------------------------------------

  /** Some `StopTask` in the run wrote its flag after `Task` had begun. */
  ghost predicate StoppedLate(events: seq<Event>) {
    exists i :: 0 <= i < |events| && LateStop(events, i)
  }

  predicate LateStop(events: seq<Event>, i: nat)
    requires i < |events|
  {
    events[i].StopTask? && Enabled(Run(events[..i]), events[i]) && Run(events[..i]).task != NotStarted
  }

  lemma {:induction false} StoppedMeansStoppedLate(events: seq<Event>)
    ensures Run(events).stopped <==> StoppedLate(events)
    decreases |events|
  {
    hide StepTask, StepCall;
    if events == [] {
    } else {
      var n := |events| - 1;
      var before := events[..n];
      StoppedMeansStoppedLate(before);
      forall i | 0 <= i < n ensures LateStop(events, i) <==> LateStop(before, i) {
        assert before[..i] == events[..i];
      }
      StepStops(Run(before), events[n]);
      assert LateStop(events, n) <==>
             events[n].StopTask? && Enabled(Run(before), events[n]) && Run(before).task != NotStarted;
      assert StoppedLate(events) <==> StoppedLate(before) || LateStop(events, n) by {
        if StoppedLate(before) {
          var i :| 0 <= i < n && LateStop(before, i);
          assert LateStop(events, i);
        }
        if StoppedLate(events) {
          var i :| 0 <= i < |events| && LateStop(events, i);
          assert i == n || LateStop(before, i);
        }
      }
    }
  }

  lemma StepStops(s: State, e: Event)
    ensures Step(s, e).stopped <==> s.stopped || (e.StopTask? && Enabled(s, e) && s.task != NotStarted)
  {}

  /**
   A stop that comes before `Task` begins is lost: `Task` goes on exactly as long as no stop has come after its
   beginning, and it is never done otherwise, whatever stops came before.
   */
  lemma OnlyLateStopsCount(events: seq<Event>)
    ensures Run(events).continuing <==> Run(events).task != NotStarted && !StoppedLate(events)
    ensures Run(events).task == Done ==> StoppedLate(events)
  {
    RunsKeepInvariants(events);
    StoppedMeansStoppedLate(events);
  }

  /** A stop that runs before `Task` begins leaves it going on. */
  lemma EarlyStopIsLost()
    ensures Run([StopTask(0), TaskStep]).continuing && Run([StopTask(0), TaskStep]).task == Testing
  {
    var events: seq<Event> := [StopTask(0), TaskStep];
    assert events[..1] == [StopTask(0)] && events[..1][..0] == [];
  }

  // ----- No wait is left blocked -----------------------------------------------------------------------------

  ghost predicate SignalsIn(events: seq<Event>, values: set<SignalResult>) {
    forall i :: 0 <= i < |events| && events[i].Signal? ==> events[i].value in values
  }

  /** Once a stop has notified, `Task` is not blocked. */
  predicate NotLeftBlocked(s: State) {
    s.told ==> s.task != Blocked
  }

  lemma {:induction false} StopsAreHeard(events: seq<Event>)
    requires SignalsIn(events, {TIMEOUT, EXIT_LOOP})
    ensures Heard(Run(events))
    decreases |events|
  {
    if events != [] {
      hide Exclusive, Stops, Heard, Step, Run;
      var before := events[..|events| - 1];
      StopsAreHeard(before);
      RunsKeepInvariants(before);
      StepKeepsHeard(Run(before), events[|events| - 1]);
      RunOfOneMore(events);
    } else {
      assert Heard(Initial());
    }
  }

  lemma RunOfOneMore(events: seq<Event>)
    requires events != []
    ensures Run(events) == Step(Run(events[..|events| - 1]), events[|events| - 1])
  {}

  function WholeCall(c: Caller): seq<Event> {
    [CallStep(c), CallStep(c), CallStep(c), CallStep(c)]
  }

  /** A stop between the test and the body of the loop, and a signal that takes it back before `Task` waits. */
  function TakenBack(): seq<Event> {
    [TaskStep, TaskStep] + [StopTask(0)] + WholeCall(0) + [Signal(1, WAITING)] + WholeCall(1)
    + [TaskStep, TaskStep] + [TaskStep, TaskStep]
  }

  lemma OneMore(events: seq<Event>, e: Event)
    ensures Run(events + [e]) == Step(Run(events), e)
  {
    assert (events + [e])[..|events + [e]| - 1] == events;
  }

  lemma TwoTaskSteps(events: seq<Event>)
    ensures Run(events + [TaskStep, TaskStep]) == Step(Step(Run(events), TaskStep), TaskStep)
  {
    OneMore(events, TaskStep);
    OneMore(events + [TaskStep], TaskStep);
    assert events + [TaskStep] + [TaskStep] == events + [TaskStep, TaskStep];
  }

  lemma CallSetsSignal(s: State, c: Caller)
    requires c in s.calls && s.calls[c].at == AtLock && s.owner == Nobody
    ensures Step(Step(s, CallStep(c)), CallStep(c))
            == s.(owner := Signaller(c), signal := s.calls[c].value, calls := s.calls[c := s.calls[c].(at := AtNotify)],
                  raised := s.raised || s.calls[c].stop)
  {
    hide StepTask;
    var s1 := Step(s, CallStep(c));
    assert s1 == s.(owner := Signaller(c), calls := s.calls[c := s.calls[c].(at := AtSet)]);
  }

  lemma CallNotifies(s: State, c: Caller)
    requires c in s.calls && s.calls[c].at == AtNotify && s.task != Blocked
    ensures Step(Step(s, CallStep(c)), CallStep(c))
            == s.(owner := Nobody, calls := s.calls - {c}, told := s.told || s.calls[c].stop)
  {
    hide StepTask;
    var s1 := Step(s, CallStep(c));
    assert s1 == s.(calls := s.calls[c := s.calls[c].(at := AtUnlock)], told := s.told || s.calls[c].stop);
  }

  lemma WholeCallSteps(events: seq<Event>, c: Caller)
    requires var s := Run(events);
      c in s.calls && s.calls[c].at == AtLock && s.owner == Nobody && s.task != Blocked
    ensures var s := Run(events);
      Run(events + WholeCall(c)) == s.(signal := s.calls[c].value, calls := s.calls - {c},
                                       raised := s.raised || s.calls[c].stop, told := s.told || s.calls[c].stop)
  {
    hide Run, Step;
    var one := events + [CallStep(c)];
    var two := one + [CallStep(c)];
    var three := two + [CallStep(c)];
    OneMore(events, CallStep(c));
    OneMore(one, CallStep(c));
    OneMore(two, CallStep(c));
    OneMore(three, CallStep(c));
    assert three + [CallStep(c)] == events + WholeCall(c);
    CallSetsSignal(Run(events), c);
    CallNotifies(Run(two), c);
  }

  lemma RunOfNone()
    ensures Run([]) == Initial()
  {}

  lemma TakenBackLeavesTaskBlocked()
    ensures SignalsIn(TakenBack(), {WAITING}) && Run(TakenBack()).told && Run(TakenBack()).task == Blocked
  {
    hide Run;
    RunOfNone();
    TwoTaskSteps([]);
    var begun := [] + [TaskStep, TaskStep];
    var stopping := begun + [StopTask(0)];
    OneMore(begun, StopTask(0));
    WholeCallSteps(stopping, 0);
    var stopped := stopping + WholeCall(0);
    OneMore(stopped, Signal(1, WAITING));
    var signalling := stopped + [Signal(1, WAITING)];
    WholeCallSteps(signalling, 1);
    var signalled := signalling + WholeCall(1);
    TwoTaskSteps(signalled);
    TwoTaskSteps(signalled + [TaskStep, TaskStep]);
    assert TakenBack() == signalled + [TaskStep, TaskStep] + [TaskStep, TaskStep];
  }

  /**
   Whatever threads signal with the values of this set, no wait is left blocked after a stop has notified, if and only
   if the set does not hold `WAITING`. The program itself signals with `EXIT_LOOP` alone.
   */
  lemma NoWaitIsLeftBlockedUnlessTakenBack(values: set<SignalResult>)
    ensures WAITING !in values <==> forall events :: SignalsIn(events, values) ==> NotLeftBlocked(Run(events))
  {
    hide Run, Heard;
    if WAITING !in values {
      forall events: seq<Event> | SignalsIn(events, values) ensures NotLeftBlocked(Run(events)) {
        assert forall i :: 0 <= i < |events| && events[i].Signal? ==> events[i].value != WAITING;
        StopsAreHeard(events);
        HeardIsNotBlocked(Run(events));
      }
    } else {
      TakenBackLeavesTaskBlocked();
      assert SignalsIn(TakenBack(), values);
    }
  }

  lemma HeardIsNotBlocked(s: State)
    requires Heard(s)
    ensures NotLeftBlocked(s)
  {}

  // ----- Task comes to its end ---------------------------------------------------------------------------------

  /** The steps that `Task` can still make once it has been stopped. */
  function Remaining(pc: TaskPc): nat {
    match pc
    case Done => 0
    case Testing => 1
    case Releasing(_) => 2
    case Resetting(_) => 3
    case Relocking(_) => 4
    case Blocked => 5
    case Checking => 6
    case Locking => 7
    case Looping => 8
    case Entering => 9
    case NotStarted => 10
  }

  predicate ByTask(e: Event) {
    e.TaskStep? || e.Wake?
  }

  lemma StopGoesOn(s: State, e: Event)
    requires Stops(s) && s.stopped
    ensures var u := Step(s, e);
      && u.stopped && Remaining(u.task) <= Remaining(s.task)
      && (ByTask(e) && Enabled(s, e) ==> Remaining(u.task) < Remaining(s.task))
  {}

  /** The steps that `Task` makes while `more` follows `events`. */
  function TaskSteps(events: seq<Event>, more: seq<Event>): nat {
    if more == [] then 0 else
      var before := more[..|more| - 1];
      var e := more[|more| - 1];
      TaskSteps(events, before) + if ByTask(e) && Enabled(Run(events + before), e) then 1 else 0
  }

  /** After a stop that came in time, `Task` makes at most nine more steps, whatever the other threads do. */
  lemma {:induction false} StoppedTaskRunsOut(events: seq<Event>, more: seq<Event>)
    requires StoppedLate(events)
    ensures Run(events + more).stopped
    ensures TaskSteps(events, more) + Remaining(Run(events + more).task) <= Remaining(Run(events).task) <= 9
    decreases |more|
  {
    hide Run, Stops, Exclusive, Step;
    StoppedMeansStoppedLate(events);
    RunsKeepInvariants(events);
    if more == [] {
      assert events + more == events;
      StoppedHasBegun(Run(events));
    } else {
      var before, e := more[..|more| - 1], more[|more| - 1];
      StoppedTaskRunsOut(events, before);
      RunsKeepInvariants(events + before);
      StopGoesOn(Run(events + before), e);
      OneMore(events + before, e);
      assert events + before + [e] == events + more;
    }
  }

  lemma StoppedHasBegun(s: State)
    requires Stops(s) && s.stopped
    ensures s.task != NotStarted
  {}

  /** The steps left to a call that holds the mutex. */
  function UntilUnlocked(s: State): nat {
    if s.owner.Signaller? && s.owner.c in s.calls then
      match s.calls[s.owner.c].at
      case AtSet => 3
      case AtNotify => 2
      case _ => 1
    else 0
  }

  /**
   `Task` is never deadlocked: until it is done, it can make a step, or a call holds the mutex that can itself make one,
   and no step of any other thread delays its release.
   */
  lemma TaskCanGoOn(events: seq<Event>, e: Event)
    ensures var s := Run(events);
      || s.task == Done
      || (exists t :: ByTask(t) && Enabled(s, t))
      || (s.owner.Signaller? && Enabled(s, CallStep(s.owner.c))
          && UntilUnlocked(Step(s, e)) <= UntilUnlocked(s) <= 3
          && UntilUnlocked(Step(s, CallStep(s.owner.c))) < UntilUnlocked(s))
  {
    var s := Run(events);
    RunsKeepInvariants(events);
    hide Run, Stops;
    assert ByTask(TaskStep) && ByTask(Wake(true));
    if s.task != Done && !Enabled(s, TaskStep) && !Enabled(s, Wake(true)) {
      assert s.owner.Signaller?;
      OwnerGoesOn(s, e);
    }
  }

  lemma OwnerGoesOn(s: State, e: Event)
    requires Exclusive(s) && s.owner.Signaller?
    ensures Enabled(s, CallStep(s.owner.c)) && UntilUnlocked(Step(s, e)) <= UntilUnlocked(s) <= 3
    ensures UntilUnlocked(Step(s, CallStep(s.owner.c))) < UntilUnlocked(s)
  {}
}

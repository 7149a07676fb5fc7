/** What holds in every run of the in-process form: which trees live on, which are removed, and what goes with them. */
module Lifetimes {
  import opened Words
  import opened NodeStats
  import opened CallTree
  import opened Processes
  import opened Records
  import opened InProcess

  /** In every run, every live record points to a node of the tree it started in, and that tree is still in the map. */
  lemma RecordsAreNeverStranded(events: seq<Event>)
    ensures !Run(events).stranded
    ensures forall r :: r in Run(events).records ==> NodeExists(Run(events), Run(events).records[r])
  {
    hide Sound;
    RunsKeepInv(events);
    forall r | r in Run(events).records ensures NodeExists(Run(events), Run(events).records[r]) {
      NodesExist(Run(events), r);
    }
  }

  /** Calls opened in a tree are its calls recorded and its records still live. */
  lemma CallsAreConserved(events: seq<Event>, tid: Tid)
    requires tid in Run(events).Trees()
    ensures var t := Run(events).Trees()[tid]; t.opens == Calls(t) + |LiveOf(Run(events).records, tid)|
  {
    RunsKeepInv(events);
    assert SoundAt(Run(events), tid);
  }

  lemma LivesAreTrees(s: Program)
    requires Inv(s)
    ensures s.lives.Keys == s.Trees().Keys
  {}

  // ----- Entries left behind -------------------------------------------------------------------------------

  /** A record ends although it is not the last one opened in its tree that still has a stack entry. */
  ghost predicate OutOfOrder(s: Program, e: Event) {
    && e.End? && e.rid in s.records
    && var r := s.records[e.rid]; r.tid in s.Trees() && r.path != s.Trees()[r.tid].top
  }

  /** The tree with this identity has an entry that no record will ever pop. */
  ghost predicate StuckAt(s: Program, tid: Tid, serial: nat, p: Path) {
    && tid in s.Trees() && tid in s.lives && s.lives[tid].serial == serial
    && |p| in s.lives[tid].stuck && p <= s.Trees()[tid].top
  }

  lemma OutOfOrderEndSticks(s: Program, e: Event)
    requires Inv(s) && OutOfOrder(s, e)
    ensures StuckAt(Step(s, e), s.records[e.rid].tid, s.records[e.rid].serial, s.records[e.rid].path)
  {
    hide Inv, EndRecord, Sound, StepEnd, SampleOf;
    EndEffect(s, e.rid, e.end);
    NodesExist(s, e.rid);
  }

  /** A stuck entry is not the root's, so its tree is not inactive. */
  lemma StuckIsActive(s: Program, tid: Tid, serial: nat, p: Path)
    requires Inv(s) && StuckAt(s, tid, serial, p)
    ensures p != [] && !IsInactive(s.Trees()[tid])
  {
    assert SoundAt(s, tid);
    hide WellFormed, Timed, Conserved;
  }

  lemma StepKeepsStuck(s: Program, e: Event, tid: Tid, serial: nat, p: Path)
    requires Inv(s) && StuckAt(s, tid, serial, p)
    ensures StuckAt(Step(s, e), tid, serial, p)
  {
    hide Inv, StepStart, StepEnd, StepReport, IsInactive, Open, EndRecord, CallTree.Report, LiveOf;
    match e {
      case Start(rid, t, name, start, mark) =>
        if rid !in s.records { StartEffect(s, rid, t, name, start, mark); }
      case End(rid, _, end) =>
        if rid in s.records {
          EndEffect(s, rid, end);
          var r := s.records[rid];
          assert r.tid == tid && r.path == s.Trees()[tid].top ==> |p| < |r.path|;
        }
      case Report(_, mark) =>
        StuckIsActive(s, tid, serial, p);
        ReportEffect(s, mark);
        ReportParts(s.Trees()[tid]);
      case ReportOne(t) => if t in s.Trees() { ReportParts(s.Trees()[t]); }
    }
  }

  lemma {:induction false} RunKeepsStuck(events: seq<Event>, more: seq<Event>, tid: Tid, serial: nat, p: Path)
    requires StuckAt(Run(events), tid, serial, p)
    ensures StuckAt(Run(events + more), tid, serial, p)
    decreases |more|
  {
    hide StuckAt, Step, Inv;
    if more == [] {
      assert events + more == events;
    } else {
      var before := more[..|more| - 1];
      RunKeepsStuck(events, before, tid, serial, p);
      RunsKeepInv(events + before);
      StepKeepsStuck(Run(events + before), more[|more| - 1], tid, serial, p);
      RunOfMore(events, more);
    }
  }

  lemma RunOfMore(events: seq<Event>, more: seq<Event>)
    requires more != []
    ensures Run(events + more) == Step(Run(events + more[..|more| - 1]), more[|more| - 1])
  {
    hide Step;
    assert (events + more)[..|events + more| - 1] == events + more[..|more| - 1];
  }

  /**
   Once a record ends out of order, its entry stays on the stack of its tree whatever happens afterwards: the tree keeps
   its identity, it is never inactive again, and so it is never removed.
   */
  lemma OutOfOrderEndIsForever(events: seq<Event>, e: Event, more: seq<Event>)
    requires OutOfOrder(Run(events), e)
    ensures var r := Run(events).records[e.rid];
      var s := Run(events + [e] + more);
      && r.tid in s.Trees() && r.tid in s.lives && s.lives[r.tid].serial == r.serial
      && r.path <= s.Trees()[r.tid].top
      && !IsInactive(s.Trees()[r.tid])
  {
    hide Inv, Step;
    var r := Run(events).records[e.rid];
    RunsKeepInv(events);
    OutOfOrderEndSticks(Run(events), e);
    assert (events + [e])[..|events + [e]| - 1] == events;
    RunKeepsStuck(events + [e], more, r.tid, r.serial, r.path);
    RunsKeepInv(events + [e] + more);
    StuckIsActive(Run(events + [e] + more), r.tid, r.serial, r.path);
  }

  /** This event of the run ends a record of the thread out of order. */
  ghost predicate EndsOutOfOrder(events: seq<Event>, i: nat, tid: Tid)
    requires i < |events|
  {
    var s := Run(events[..i]);
    OutOfOrder(s, events[i]) && s.records[events[i].rid].tid == tid
  }

  ghost predicate ClosedOutOfOrder(events: seq<Event>, tid: Tid) {
    exists i :: 0 <= i < |events| && EndsOutOfOrder(events, i, tid)
  }

  lemma StartLife(s: Program, e: Event, tid: Tid)
    requires Inv(s) && e.Start? && tid in Step(s, e).lives
    ensures var l := if tid in s.lives then s.lives[tid] else NewLife(0);
      Step(s, e).lives[tid].stuck == l.stuck && Step(s, e).lives[tid].held == l.held
    ensures tid !in s.lives ==> tid == e.tid && e.rid !in s.records
  {
    hide Inv, Enter, TreeIn, StartIn;
    LivesAreTrees(s);
  }

  lemma EndLife(s: Program, e: Event, tid: Tid)
    requires Inv(s) && e.End? && tid in Step(s, e).lives
    ensures tid in s.lives && Step(s, e).lives[tid].held == s.lives[tid].held
    ensures Step(s, e).lives[tid].stuck == s.lives[tid].stuck || (OutOfOrder(s, e) && s.records[e.rid].tid == tid)
  {
    hide Inv, StepEnd, EndRecord;
    if e.rid in s.records {
      EndEffect(s, e.rid, e.end);
    }
  }

  lemma ReportLife(s: Program, e: Event, tid: Tid)
    requires Inv(s) && (e.Report? || e.ReportOne?) && tid in Step(s, e).lives
    ensures tid in s.lives && Step(s, e).lives[tid].stuck == s.lives[tid].stuck
    ensures Step(s, e).lives[tid].held ==
            if e.ReportOne? && e.tid != tid then s.lives[tid].held else |LiveOf(s.records, tid)|
  {
    hide Inv, LiveOf, ReportClosed, CallTree.Report;
    LivesAreTrees(s);
  }

  /** Only an end out of order leaves an entry behind. */
  lemma StepSticks(s: Program, e: Event, tid: Tid)
    requires Inv(s) && tid in Step(s, e).lives && Step(s, e).lives[tid].stuck != {}
    requires tid in s.lives ==> s.lives[tid].stuck == {}
    ensures OutOfOrder(s, e) && s.records[e.rid].tid == tid
  {
    hide Inv, Step, OutOfOrder;
    match e {
      case Start(_, _, _, _, _) => StartLife(s, e, tid);
      case End(_, _, _) => EndLife(s, e, tid);
      case _ => ReportLife(s, e, tid);
    }
  }

  lemma {:induction false} StuckWasClosedOutOfOrder(events: seq<Event>, tid: Tid)
    requires tid in Run(events).Trees() && tid in Run(events).lives && Run(events).lives[tid].stuck != {}
    ensures ClosedOutOfOrder(events, tid)
    decreases |events|
  {
    hide Inv, Step, OutOfOrder;
    var n := |events| - 1;
    var before := events[..n];
    var s := Run(before);
    RunsKeepInv(before);
    LivesAreTrees(s);
    if tid in s.lives && s.lives[tid].stuck != {} {
      StuckWasClosedOutOfOrder(before, tid);
      var i :| 0 <= i < n && EndsOutOfOrder(before, i, tid);
      assert before[..i] == events[..i];
      assert EndsOutOfOrder(events, i, tid);
    } else {
      StepSticks(s, events[n], tid);
      assert EndsOutOfOrder(events, n, tid);
    }
  }

  lemma ClosedOutOfOrderIsStuck(events: seq<Event>, tid: Tid)
    requires ClosedOutOfOrder(events, tid)
    ensures tid in Run(events).Trees() && tid in Run(events).lives && Run(events).lives[tid].stuck != {}
  {
    hide Inv, Step, Run;
    var i :| 0 <= i < |events| && EndsOutOfOrder(events, i, tid);
    var s := Run(events[..i]);
    var r := s.records[events[i].rid];
    RunsKeepInv(events[..i]);
    OutOfOrderEndSticks(s, events[i]);
    RunOfMore(events[..i], [events[i]]);
    assert events[..i] + [events[i]][..0] == events[..i];
    RunKeepsStuck(events[..i] + [events[i]], events[i + 1..], tid, r.serial, r.path);
    assert events[..i] + [events[i]] + events[i + 1..] == events;
  }

  /**
   The stack of a tree is down to its root exactly when no record of its thread is live and none was ever ended out of
   order, at any time in the run.
   */
  lemma StackIsEmptyExactlyWhenAllEndedInOrder(events: seq<Event>, tid: Tid)
    requires tid in Run(events).Trees()
    ensures Run(events).Trees()[tid].top == [] <==>
              LiveOf(Run(events).records, tid) == map[] && !ClosedOutOfOrder(events, tid)
  {
    var s := Run(events);
    RunsKeepInv(events);
    assert SoundAt(s, tid);
    hide Sound, ClosedOutOfOrder, Run;
    OnlyRootOnStack(s.Trees()[tid], s.lives[tid], LiveOf(s.records, tid));
    if s.lives[tid].stuck != {} {
      StuckWasClosedOutOfOrder(events, tid);
    } else if ClosedOutOfOrder(events, tid) {
      ClosedOutOfOrderIsStuck(events, tid);
    }
  }

  // ----- Removal ---------------------------------------------------------------------------------------------

  /** The elements opened in the present tree of a thread since its last report, counted along the run. */
  function OpenedSinceReport(events: seq<Event>, tid: Tid): nat {
    if events == [] then 0 else
      var before := events[..|events| - 1];
      var n := OpenedSinceReport(before, tid);
      match events[|events| - 1]
      case Start(rid, t, _, _, _) =>
        if t != tid || rid in Run(before).records then n
        else if tid in Run(before).Trees() then n + 1 else 1
      case Report(_, _) => 0
      case ReportOne(t) => if t == tid then 0 else n
      case End(_, _, _) => n
  }

  lemma {:induction false} CountersCountOpens(events: seq<Event>, tid: Tid)
    requires tid in Run(events).Trees()
    ensures Run(events).Trees()[tid].opens - Run(events).Trees()[tid].reported == OpenedSinceReport(events, tid)
    decreases |events|
  {
    var before := events[..|events| - 1];
    var s := Run(before);
    assert Inv(s) by { RunsKeepInv(before); }
    if tid in s.Trees() { CountersCountOpens(before, tid); }
    OneOpenCounted(s, events[|events| - 1], tid, OpenedSinceReport(before, tid));
  }

  /** How one step changes the count of elements opened since the last report. */
  lemma OneOpenCounted(s: Program, e: Event, tid: Tid, n: nat)
    requires Inv(s) && tid in Step(s, e).Trees()
    requires tid in s.Trees() ==> s.Trees()[tid].opens - s.Trees()[tid].reported == n
    ensures var t := Step(s, e).Trees()[tid];
      t.opens - t.reported ==
      match e
      case Start(rid, t, _, _, _) =>
        if t != tid || rid in s.records then n else if tid in s.Trees() then n + 1 else 1
      case Report(_, _) => 0
      case ReportOne(t) => if t == tid then 0 else n
      case End(_, _, _) => n
  {
    hide Inv, StepStart, StepEnd, StepReport, IsInactive, Open, EndRecord, CallTree.Report;
    match e {
      case Start(rid, t, name, start, mark) =>
        if rid !in s.records { StartEffect(s, rid, t, name, start, mark); }
      case End(rid, _, end) =>
        if rid in s.records { EndEffect(s, rid, end); }
      case Report(_, mark) =>
        ReportEffect(s, mark);
        ReportParts(s.Trees()[tid]);
      case ReportOne(t) =>
        assert s.lives.Keys == s.Trees().Keys by { LivesAreTrees(s); }
        ReportParts(s.Trees()[tid]);
    }
  }

  /** The records of a thread that were live at the last report of its present tree, counted along the run. */
  ghost function LiveAtReport(events: seq<Event>, tid: Tid): nat {
    if events == [] then 0 else
      var before := events[..|events| - 1];
      var s := Run(before);
      match events[|events| - 1]
      case Start(rid, t, _, _, _) =>
        if t == tid && rid !in s.records && tid !in s.Trees() then 0 else LiveAtReport(before, tid)
      case Report(_, _) => |LiveOf(s.records, tid)|
      case ReportOne(t) => if t == tid then |LiveOf(s.records, tid)| else LiveAtReport(before, tid)
      case End(_, _, _) => LiveAtReport(before, tid)
  }

  lemma {:induction false} HeldIsLiveAtReport(events: seq<Event>, tid: Tid)
    requires tid in Run(events).Trees() && tid in Run(events).lives
    ensures Run(events).lives[tid].held == LiveAtReport(events, tid)
    decreases |events|
  {
    hide Inv, Step, LiveOf;
    var before := events[..|events| - 1];
    var s := Run(before);
    RunsKeepInv(before);
    LivesAreTrees(s);
    if tid in s.Trees() {
      HeldIsLiveAtReport(before, tid);
    }
    StepHeld(s, events[|events| - 1], tid);
  }

  /** How one step changes the number of records that were live at the last report. */
  lemma StepHeld(s: Program, e: Event, tid: Tid)
    requires Inv(s) && tid in Step(s, e).lives
    ensures Step(s, e).lives[tid].held ==
            if e.Report? || (e.ReportOne? && e.tid == tid) then |LiveOf(s.records, tid)|
            else if tid in s.lives then s.lives[tid].held else 0
    ensures tid !in s.lives ==> e.Start? && e.tid == tid && e.rid !in s.records
  {
    hide Inv, Step, LiveOf;
    match e {
      case Start(_, _, _, _, _) => StartLife(s, e, tid);
      case End(_, _, _) => EndLife(s, e, tid);
      case _ => ReportLife(s, e, tid);
    }
  }

  /**
   A report of the process removes a tree exactly when no element was opened in it since its last report, counted in
   64 bits, no record of it is live and none of its thread was ever ended out of order. Every other tree is reported and
   kept. A removed tree takes with it as many calls never reported as it had records live at its last report, plus those
   opened since.
   */
  lemma RemovalRule(events: seq<Event>, now: Reading, mark: Reading, tid: Tid)
    requires tid in Run(events).Trees()
    ensures tid in Run(events).lives
    ensures var s, u := Run(events), Step(Run(events), Report(now, mark));
      var t := s.Trees()[tid];
      && (tid !in u.Trees() <==>
            && Wrap(OpenedSinceReport(events, tid)) == 0 && LiveOf(s.records, tid) == map[]
            && !ClosedOutOfOrder(events, tid))
      && (tid in u.Trees() ==>
            u.Trees()[tid] == CallTree.Report(t) && tid in u.lives && u.lives[tid].serial == s.lives[tid].serial)
      && (tid !in u.Trees() ==>
            Calls(t) - ReportedCalls(t) == LiveAtReport(events, tid) + OpenedSinceReport(events, tid))
  {
    var s := Run(events);
    hide Inv, Step, Run, ClosedOutOfOrder, OpenedSinceReport, LiveAtReport;
    RunsKeepInv(events);
    CountersCountOpens(events, tid);
    StackIsEmptyExactlyWhenAllEndedInOrder(events, tid);
    RemovalStep(s, now, mark, tid);
    HeldIsLiveAtReport(events, tid);
  }

  lemma RemovalStep(s: Program, now: Reading, mark: Reading, tid: Tid)
    requires Inv(s) && tid in s.Trees()
    ensures tid in s.lives
    ensures var u := Step(s, Report(now, mark));
      var t, l := s.Trees()[tid], s.lives[tid];
      && (tid !in u.Trees() <==> Wrap(t.opens - t.reported) == 0 && t.top == [])
      && (tid in u.Trees() ==>
            u.Trees()[tid] == CallTree.Report(t) && tid in u.lives && u.lives[tid].serial == l.serial)
      && (tid !in u.Trees() ==> Calls(t) - ReportedCalls(t) == l.held + (t.opens - t.reported))
  {
    hide Wrap, CallTree.Report, StepReport, Matched, Timed, Calls, ReportedCalls;
    ReportEffect(s, mark);
    var t := s.Trees()[tid];
    assert SoundAt(s, tid);
    hide Inv;
    WrapEqual(t.opens, t.reported);
    OnlyRootOnStack(t, s.lives[tid], LiveOf(s.records, tid));
    hide WellFormed;
  }

  lemma WrapEqual(a: nat, b: nat)
    requires b <= a
    ensures Wrap(a) == Wrap(b) <==> Wrap(a - b) == 0
  {}

  /** A tree that was never reported survives its first report, unless 2^64 elements were opened in it. */
  lemma FirstReportKeepsTree(events: seq<Event>, now: Reading, mark: Reading, tid: Tid)
    requires tid in Run(events).Trees() && Run(events).Trees()[tid].reported == 0
    requires Run(events).Trees()[tid].opens < 0x1_0000_0000_0000_0000
    ensures tid in Step(Run(events), Report(now, mark)).Trees()
  {
    hide Sound, CallTree.Report;
    RunsKeepInv(events);
    ReportTrees(Run(events).process.value, mark);
    WrapOfWord(Run(events).Trees()[tid].opens);
    WrapOfWord(0);
  }

  lemma LostCall(s: Program, rid: Rid, end: u64, caller: Tid, n: Reading, m: Reading)
    requires Inv(s) && rid in s.records
    requires var tid := s.records[rid].tid;
      LiveOf(s.records, tid).Keys == {rid} && tid in s.lives && s.lives[tid].stuck == {}
    ensures var tid := s.records[rid].tid;
      var u := Step(Step(s, Report(n, m)), End(rid, caller, end));
      && tid in u.Trees() && Calls(u.Trees()[tid]) - ReportedCalls(u.Trees()[tid]) == 1
      && tid !in Step(u, Report(n, m)).Trees()
  {
    hide Inv, Step, IsInactive, Sound, Open, EndRecord, CallTree.Report;
    var tid := s.records[rid].tid;
    var r := Step(s, Report(n, m));
    var u := Step(r, End(rid, caller, end));
    StepKeepsInv(s, Report(n, m));
    StepKeepsInv(r, End(rid, caller, end));
    assert |LiveOf(s.records, tid)| == 1 by { assert |LiveOf(s.records, tid).Keys| == 1; }
    AfterReport(s, n, m, tid, rid);
    AfterEnd(r, rid, end, caller);
    assert LiveOf(u.records, tid) == map[] by {
      assert u.records == s.records - {rid};
      assert forall q :: q in s.records && s.records[q].tid == tid ==> q in LiveOf(s.records, tid).Keys;
    }
    RemovalStep(u, n, m, tid);
    LastOneOut(u, tid);
    assert Wrap(0) == 0 by { WrapOfWord(0); }
  }

  lemma AfterReport(s: Program, n: Reading, m: Reading, tid: Tid, rid: Rid)
    requires Inv(s) && rid in s.records && s.records[rid].tid == tid
    ensures var r := Step(s, Report(n, m));
      && r.records == s.records && tid in r.Trees() && tid in r.lives && tid in s.lives
      && r.lives[tid] == s.lives[tid].(held := |LiveOf(s.records, tid)|)
      && r.Trees()[tid].opens == r.Trees()[tid].reported
  {
    hide Inv, StepReport, IsInactive, CallTree.Report;
    ReportEffect(s, m);
    RemovalNeedsNoRecord(s, tid, rid);
    ReportParts(s.Trees()[tid]);
  }

  lemma AfterEnd(r: Program, rid: Rid, end: u64, caller: Tid)
    requires Inv(r) && rid in r.records
    ensures var tid := r.records[rid].tid;
      var u := Step(r, End(rid, caller, end));
      && u.records == r.records - {rid} && tid in u.Trees() && tid in r.Trees() && tid in u.lives && tid in r.lives
      && u.Trees()[tid].opens == r.Trees()[tid].opens && u.Trees()[tid].reported == r.Trees()[tid].reported
      && u.lives[tid].held == r.lives[tid].held
      && (r.lives[tid].stuck == {} && LiveOf(r.records, tid).Keys == {rid} ==> u.lives[tid].stuck == {})
  {
    hide Inv, StepEnd, EndRecord;
    EndEffect(r, rid, end);
    var tid := r.records[rid].tid;
    if r.lives[tid].stuck == {} && LiveOf(r.records, tid).Keys == {rid} {
      OnlyRecordIsTop(r, rid);
    }
  }

  lemma OnlyRecordIsTop(s: Program, rid: Rid)
    requires Inv(s) && rid in s.records && s.records[rid].tid in s.Trees() && s.records[rid].tid in s.lives
    requires var tid := s.records[rid].tid; s.lives[tid].stuck == {} && LiveOf(s.records, tid).Keys == {rid}
    ensures s.records[rid].path == s.Trees()[s.records[rid].tid].top
  {
    var tid := s.records[rid].tid;
    assert SoundAt(s, tid);
    assert |LiveOf(s.records, tid)| == |LiveOf(s.records, tid).Keys| == 1;
    assert rid in LiveOf(s.records, tid);
    hide WellFormed, Timed, Conserved;
  }

  lemma LastOneOut(s: Program, tid: Tid)
    requires Inv(s) && tid in s.Trees() && tid in s.lives && LiveOf(s.records, tid) == map[] && s.lives[tid].stuck == {}
    ensures s.Trees()[tid].top == []
  {
    assert SoundAt(s, tid);
    hide Sound;
    OnlyRootOnStack(s.Trees()[tid], s.lives[tid], LiveOf(s.records, tid));
  }

  /**
   A call that is the only one open at a report, in a thread that never closed out of order, is lost when it ends before
   the next report and nothing else is opened: that report removes the tree, whose recorded call no report has shown.
   */
  lemma CallOpenAtReportIsLost(events: seq<Event>, rid: Rid, end: u64, caller: Tid, n: Reading, m: Reading)
    requires rid in Run(events).records
    requires LiveOf(Run(events).records, Run(events).records[rid].tid).Keys == {rid}
    requires !ClosedOutOfOrder(events, Run(events).records[rid].tid)
    ensures var tid := Run(events).records[rid].tid;
      var ended := events + [Report(n, m)] + [End(rid, caller, end)];
      && tid in Run(ended).Trees() && Calls(Run(ended).Trees()[tid]) - ReportedCalls(Run(ended).Trees()[tid]) == 1
      && tid !in Run(ended + [Report(n, m)]).Trees()
  {
    hide Inv, Step, Run, ClosedOutOfOrder, Calls, ReportedCalls, LiveOf;
    var s := Run(events);
    RunsKeepInv(events);
    OneMore(events, Report(n, m));
    OneMore(events + [Report(n, m)], End(rid, caller, end));
    OneMore(events + [Report(n, m)] + [End(rid, caller, end)], Report(n, m));
    HasLife(s, rid);
    if s.lives[s.records[rid].tid].stuck != {} {
      StuckWasClosedOutOfOrder(events, s.records[rid].tid);
    }
    LostCall(s, rid, end, caller, n, m);
  }

  lemma HasLife(s: Program, rid: Rid)
    requires Inv(s) && rid in s.records
    ensures s.records[rid].tid in s.lives && s.records[rid].tid in s.Trees()
  {}

  lemma OneMore(events: seq<Event>, e: Event)
    ensures Run(events + [e]) == Step(Run(events), e)
  {
    hide Step;
    assert (events + [e])[..|events + [e]| - 1] == events;
  }

  // ----- Runs in which this happens ----------------------------------------------------------------------------

  lemma RunOfOne(e: Event)
    ensures Run([e]) == Step(Initial(), e)
  {
    hide Step;
    assert [e][..0] == [];
  }

  /** The only call of a thread, open over a report, is lost. */
  lemma LostCallOccurs(n: Reading, m: Reading)
    ensures var ended := [Start(0, 0, "a", 0, m)] + [Report(n, m)] + [End(0, 0, 5)];
      && 0 in Run(ended).Trees() && Calls(Run(ended).Trees()[0]) - ReportedCalls(Run(ended).Trees()[0]) == 1
      && 0 !in Run(ended + [Report(n, m)]).Trees()
  {
    var e := Start(0, 0, "a", 0, m);
    RunOfOne(e);
    var s := Run([e]);
    hide Run;
    assert LiveOf(s.records, 0).Keys == {0};
    CallOpenAtReportIsLost([e], 0, 5, 0, n, m);
  }

  /** Of two open records of a thread the first ends: its entry is never popped. */
  lemma OutOfOrderEndOccurs(m: Reading)
    ensures OutOfOrder(Run([Start(0, 0, "a", 0, m)] + [Start(1, 0, "b", 0, m)]), End(0, 0, 5))
  {
    var d, e := Start(0, 0, "a", 0, m), Start(1, 0, "b", 0, m);
    RunOfOne(d);
    OneMore([d], e);
    hide Run;
    assert Run([d]).records[0].path == ["a"];
  }
}

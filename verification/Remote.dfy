/**
 The remote form against the in-process form: the same starts, ends and reports are turned into messages by the client
 and into call trees by the service.
 */
module Remote {
  import opened Words
  import opened NodeStats
  import opened CallTree
  import opened Processes
  import opened Records
  import opened InProcess
  import opened Lifetimes
  import opened Nesting
  import opened Cutting
  import opened Messages
  import opened Independence
  import Service

  // ----- The client --------------------------------------------------------------------------------------

  /** What the client keeps: each live record's name and start time, and whether it has found the message queue. */
  datatype Timing = Timing(name: Name, start: u64)

  datatype Client = Client(timings: map<Rid, Timing>, connected: bool)

  function ClientStep(c: Client, e: Event): Client {
    match e
    case Start(rid, _, name, start, _) =>
      if rid in c.timings then c else Client(c.timings[rid := Timing(name, start)], true)
    case End(rid, _, _) => c.(timings := c.timings - {rid})
    case _ => c
  }

  /** The messages sent for one event. The queue is found by the first start; a report before that is not sent. */
  function Send(c: Client, pid: Pid, e: Event): seq<Message> {
    match e
    case Start(rid, tid, name, _, _) => if rid in c.timings then [] else [Entry(pid, tid, Cut(name))]
    case End(rid, caller, end) =>
      if rid in c.timings then [Exit(pid, caller, Cut(c.timings[rid].name), Sub(end, c.timings[rid].start))] else []
    case Report(_, _) => if c.connected then [ReportProcess(pid)] else []
    case ReportOne(tid) => if c.connected then [ReportThread(pid, tid)] else []
  }

  function ClientRun(events: seq<Event>): Client {
    if events == [] then Client(map[], false)
    else ClientStep(ClientRun(events[..|events| - 1]), events[|events| - 1])
  }

  function Sent(pid: Pid, events: seq<Event>): seq<Message> {
    if events == [] then [] else
      Sent(pid, events[..|events| - 1]) + Send(ClientRun(events[..|events| - 1]), pid, events[|events| - 1])
  }

  predicate Started(events: seq<Event>) {
    exists i :: 0 <= i < |events| && events[i].Start?
  }

  /** Nothing is sent before the first record starts. */
  lemma {:induction false} NothingIsSentBeforeAStart(pid: Pid, events: seq<Event>)
    ensures ClientRun(events).connected <==> Started(events)
    ensures !Started(events) ==> Sent(pid, events) == [] && ClientRun(events).timings == map[]
  {
    if events == [] {
    } else {
      var before, e := events[..|events| - 1], events[|events| - 1];
      NothingIsSentBeforeAStart(pid, before);
      assert forall i :: 0 <= i < |before| ==> before[i] == events[i];
      if e.Start? {
        assert events[|events| - 1].Start?;
      } else if Started(events) {
        var i :| 0 <= i < |events| && events[i].Start?;
        assert before[i].Start?;
      }
    }
  }

  /** From then on every report is asked for once. */
  lemma ReportsAreSentOnceStarted(pid: Pid, events: seq<Event>, e: Event)
    requires e.Report? || e.ReportOne?
    ensures Sent(pid, events + [e]) ==
            if !Started(events) then []
            else Sent(pid, events) + [if e.Report? then ReportProcess(pid) else ReportThread(pid, e.tid)]
  {
    NothingIsSentBeforeAStart(pid, events);
    assert (events + [e])[..|events + [e]| - 1] == events;
  }

  /** The messages of one process among those that the service handles. */
  function MessagesOf(handled: seq<Service.Event>, pid: Pid): seq<Message> {
    if handled == [] then [] else
      var m := handled[|handled| - 1].message;
      MessagesOf(handled[..|handled| - 1], pid) + if !m.Unknown? && m.pid == pid then [m] else []
  }

  function TreesAt(s: Service.State, pid: Pid): map<Tid, Tree> {
    if pid in s then s[pid].trees else map[]
  }

  // ----- Records ended by the thread that started them ------------------------------------------------------

  ghost predicate OwnThread(events: seq<Event>) {
    if events == [] then true else
      var s := Run(events[..|events| - 1]);
      var e := events[|events| - 1];
      OwnThread(events[..|events| - 1]) && (e.End? && e.rid in s.records ==> s.records[e.rid].tid == e.caller)
  }

  lemma {:induction false} CutKeepsOwnThread(events: seq<Event>)
    requires OwnThread(events)
    ensures OwnThread(CutRun(events))
  {
    if events == [] {
    } else {
      hide Step, Run;
      var before := events[..|events| - 1];
      CutKeepsOwnThread(before);
      CutRunIsSimilar(before);
      assert CutRun(events)[..|CutRun(events)| - 1] == CutRun(before);
    }
  }

  // ----- One step ------------------------------------------------------------------------------------------

  /** The client's records and the service's trees are those of the program. */
  ghost predicate Agree(c: Client, s: Program, st: Service.State, pid: Pid) {
    && c.timings.Keys == s.records.Keys
    && (forall r :: r in c.timings ==>
          s.records[r].name == Cut(c.timings[r].name) && s.records[r].start == c.timings[r].start)
    && (c.connected <==> s.process.Some?) && (pid in st <==> s.process.Some?)
    && TreesAt(st, pid) == s.Trees()
  }

  lemma EnterTrees(p: Process, tid: Tid, name: Name, now: Reading)
    ensures Enter(p, tid, name, now).trees == p.trees[tid := Open(if tid in p.trees then p.trees[tid] else New(), name)]
  {}

  lemma StartAgrees(c: Client, s: Program, st: Service.State, pid: Pid, e: Event, m: Service.Event)
    requires e.Start? && e.rid !in s.records && Inv(s) && Agree(c, s, st, pid)
    requires m.message == Entry(pid, e.tid, Cut(e.name))
    ensures Agree(ClientStep(c, e), Step(s, CutEvent(e)), Service.Handle(st, m), pid)
  {
    hide Inv, Open, New, Enter, Cut;
    StartEffect(s, e.rid, e.tid, Cut(e.name), e.start, e.mark);
    EnterTrees(Service.ProcessOf(st, pid), e.tid, Cut(e.name), m.now);
  }

  /** An exit message ends the top of the stack by its name, which is what the record does when it is the top. */
  lemma EndAgrees(c: Client, s: Program, st: Service.State, pid: Pid, e: Event, m: Service.Event)
    requires e.End? && e.rid in s.records && Inv(s) && Agree(c, s, st, pid)
    requires s.records[e.rid].tid == e.caller && e.caller in s.Trees()
    requires s.records[e.rid].path == s.Trees()[e.caller].top
    requires m.message == Exit(pid, e.caller, Cut(c.timings[e.rid].name), Sub(e.end, c.timings[e.rid].start))
    ensures Agree(ClientStep(c, e), Step(s, e), Service.Handle(st, m), pid)
  {
    hide Inv, EndRecord, Cut;
    EndEffect(s, e.rid, e.end);
    RecordFacts(s, e.rid);
  }

  lemma ReportAgrees(c: Client, s: Program, st: Service.State, pid: Pid, e: Event, m: Service.Event)
    requires e.Report? && c.connected && Inv(s) && Agree(c, s, st, pid) && m.message == ReportProcess(pid)
    ensures Agree(ClientStep(c, e), Step(s, e), Service.Handle(st, m), pid)
  {
    hide Inv, IsInactive, CallTree.Report, Cut;
    ReportTrees(s.process.value, e.mark);
    ReportTrees(st[pid], m.mark);
    assert ReportClosed(s.process.value, e.mark).trees == ReportClosed(st[pid], m.mark).trees;
  }

  lemma ReportOneAgrees(c: Client, s: Program, st: Service.State, pid: Pid, e: Event, m: Service.Event)
    requires e.ReportOne? && c.connected && Inv(s) && Agree(c, s, st, pid) && m.message == ReportThread(pid, e.tid)
    ensures Agree(ClientStep(c, e), Step(s, e), Service.Handle(st, m), pid)
  {
    hide CallTree.Report, Cut, Sound;
  }

  lemma SilentStepAgrees(c: Client, s: Program, st: Service.State, pid: Pid, e: Event)
    requires Send(c, pid, e) == [] && Inv(s) && Agree(c, s, st, pid)
    ensures Agree(ClientStep(c, e), Step(s, CutEvent(e)), st, pid)
  {
    hide Inv, Cut, StepStart, StepEnd;
  }

  // ----- Nested runs ---------------------------------------------------------------------------------------

  /** Only the messages of this process are handled. */
  lemma {:induction false} NestedRunsAgree(pid: Pid, events: seq<Event>, handled: seq<Service.Event>)
    requires OwnThread(CutRun(events)) && Nested(CutRun(events))
    requires |handled| == |Sent(pid, events)|
    requires forall i :: 0 <= i < |handled| ==> handled[i].message == Sent(pid, events)[i]
    ensures Agree(ClientRun(events), Run(CutRun(events)), Service.HandleAll(map[], handled), pid)
    decreases |events|
  {
    if events == [] {
    } else {
      hide ClientRun, Run, Sent, Nested, OwnThread, Inv, Agree, ClientStep, Step, Send, CutRun, CutEvent;
      hide Service.Handle;
      var before, e := events[..|events| - 1], events[|events| - 1];
      var c, s := ClientRun(before), Run(CutRun(before));
      RunUnfolds(pid, events);
      AtMostOne(c, pid, e);
      var n := |Sent(pid, before)|;
      assert n <= |handled| <= n + 1;
      NestedRunsAgree(pid, before, handled[..n]);
      RunsKeepInv(CutRun(before));
      TopEnds(CutRun(before), CutEvent(e));
      SameEnd(e);
      if Send(c, pid, e) != [] {
        assert Send(c, pid, e) == [handled[n].message];
      }
      OneEventAgrees(c, s, pid, e, handled, n);
    }
  }

  /** One event of a run, and the message for it if there is one, after `n` messages have been handled. */
  lemma OneEventAgrees(c: Client, s: Program, pid: Pid, e: Event, handled: seq<Service.Event>, n: nat)
    requires n <= |handled| && Inv(s) && Agree(c, s, Service.HandleAll(map[], handled[..n]), pid)
    requires Send(c, pid, e) == if |handled| == n then [] else [handled[n].message]
    requires |handled| <= n + 1
    requires e.End? && e.rid in s.records ==>
               && s.records[e.rid].tid == e.caller && e.caller in s.Trees()
               && s.records[e.rid].path == s.Trees()[e.caller].top
    ensures Agree(ClientStep(c, e), Step(s, CutEvent(e)), Service.HandleAll(map[], handled), pid)
  {
    hide Inv, Agree, ClientStep, Step, Send, CutEvent, Service.Handle;
    var st := Service.HandleAll(map[], handled[..n]);
    if |handled| == n {
      assert handled[..n] == handled;
      SilentStepAgrees(c, s, st, pid, e);
    } else {
      assert handled[..|handled| - 1] == handled[..n];
      MessageAgrees(c, s, st, pid, e, handled[n]);
    }
  }

  lemma AtMostOne(c: Client, pid: Pid, e: Event)
    ensures |Send(c, pid, e)| <= 1
  {}

  lemma SameEnd(e: Event)
    ensures CutEvent(e).End? <==> e.End?
    ensures e.End? ==> CutEvent(e) == e
  {}

  lemma RunUnfolds(pid: Pid, events: seq<Event>)
    requires events != []
    ensures var before, e := events[..|events| - 1], events[|events| - 1];
      && ClientRun(events) == ClientStep(ClientRun(before), e)
      && Sent(pid, events) == Sent(pid, before) + Send(ClientRun(before), pid, e)
      && CutRun(events) == CutRun(before) + [CutEvent(e)]
      && Run(CutRun(events)) == Step(Run(CutRun(before)), CutEvent(e))
      && (Nested(CutRun(events)) ==> Nested(CutRun(before)))
      && (OwnThread(CutRun(events)) ==> OwnThread(CutRun(before)))
  {
    var cut := CutRun(events);
    assert cut[..|cut| - 1] == CutRun(events[..|events| - 1]);
    hide Step, ClientStep, Send, CutEvent, IsLastOpen, LiveSet;
  }

  /** In a nested run, a record that ends is the top of its stack. */
  lemma TopEnds(before: seq<Event>, e: Event)
    requires Nested(before + [e]) && OwnThread(before + [e])
    ensures var s := Run(before);
      e.End? && e.rid in s.records ==>
        && s.records[e.rid].tid == e.caller && e.caller in s.Trees()
        && s.records[e.rid].path == s.Trees()[e.caller].top
  {
    assert (before + [e])[..|before + [e]| - 1] == before;
    hide Run, Step, OpenIn, OpenNext, LiveSet, Inv, StackOf, Nested;
    Unfold(before + [e]);
    if e.End? && e.rid in Run(before).records {
      var t :| OpenIn(before, t) != [] && OpenIn(before, t)[|OpenIn(before, t)| - 1] == e.rid;
      NestedStacks(before, t);
      EntryOfLast(Run(before), t, OpenIn(before, t));
      TopIsLastOpen(Run(before), t, OpenIn(before, t), e.rid);
    }
  }

  lemma EntryOfLast(s: Program, tid: Tid, open: seq<Rid>)
    requires StackOf(s, tid, open) && open != []
    ensures open[|open| - 1] in s.records && s.records[open[|open| - 1]].tid == tid
  {}

  lemma MessageAgrees(c: Client, s: Program, st: Service.State, pid: Pid, e: Event, m: Service.Event)
    requires Inv(s) && Agree(c, s, st, pid) && Send(c, pid, e) == [m.message]
    requires e.End? && e.rid in s.records ==>
               && s.records[e.rid].tid == e.caller && e.caller in s.Trees()
               && s.records[e.rid].path == s.Trees()[e.caller].top
    ensures Agree(ClientStep(c, e), Step(s, CutEvent(e)), Service.Handle(st, m), pid)
  {
    assert c.timings.Keys == s.records.Keys;
    hide Inv, Agree, ClientStep, Step, Service.Handle;
    match e {
      case Start(_, _, _, _, _) => StartAgrees(c, s, st, pid, e, m);
      case End(_, _, _) => EndAgrees(c, s, st, pid, e, m);
      case Report(_, _) => ReportAgrees(c, s, st, pid, e, m);
      case ReportOne(_) => ReportOneAgrees(c, s, st, pid, e, m);
    }
  }

  // ----- What the service always conserves --------------------------------------------------------------------

  /** Whatever the messages: the tree is well formed, and calls opened are calls recorded or still on the stack. */
  ghost predicate Balanced(t: Tree) {
    WellFormed(t) && t.opens == Calls(t) + |t.top|
  }

  lemma ThreadStepKeepsBalance(t: Option<Tree>, m: Message)
    requires t.Some? ==> Balanced(t.value)
    ensures ThreadStep(t, m).Some? ==> Balanced(ThreadStep(t, m).value)
  {
    NewHasNoCalls();
    var v := if t.Some? then t.value else New();
    match m {
      case Entry(_, _, name) =>
        OpenKeepsWellFormed(v, name);
        OpenKeepsCalls(v, name);
        OpenParts(v, name);
        hide Open, WellFormed, Calls;
      case Exit(_, _, name, elapsed) =>
        var s := Sample(elapsed, 0, 0);
        EndKeepsWellFormed(v, v.top, s);
        EndAddsOneCall(v, v.top, s);
        EndParts(v, v.top, s);
        hide EndRecord, WellFormed, Calls;
      case _ =>
        ReportKeepsWellFormed(v);
        ReportMarksAllCalls(v);
        hide WellFormed, Calls;
    }
  }

  lemma {:induction false} ThreadRunIsBalanced(ms: seq<Message>)
    ensures ThreadRun(None, ms).Some? ==> Balanced(ThreadRun(None, ms).value)
  {
    if ms == [] {
    } else {
      hide Balanced, ThreadStep;
      ThreadRunIsBalanced(ms[..|ms| - 1]);
      ThreadStepKeepsBalance(ThreadRun(None, ms[..|ms| - 1]), ms[|ms| - 1]);
    }
  }

  /**
   After any messages at all, balanced or not, every tree of the service is well formed, its stack runs from the root to
   a node of the tree, and the number of elements opened is the number of calls recorded plus the open ones.
   */
  lemma ServiceTreesAreBalanced(handled: seq<Service.Event>, pid: Pid, tid: Tid)
    requires tid in TreesAt(Service.HandleAll(map[], handled), pid)
    ensures Balanced(TreesAt(Service.HandleAll(map[], handled), pid)[tid])
  {
    hide Service.HandleAll, Balanced;
    TreeFollowsItsThread(map[], handled, pid, tid);
    ThreadRunIsBalanced(Relevant(handled, pid, tid));
  }

  /** Equal trees leave the in-process form nothing stuck. */
  lemma EqualTreesLeaveNothingStuck(s: Program, trees: map<Tid, Tree>)
    requires Inv(s) && trees == s.Trees() && forall tid :: tid in trees ==> Balanced(trees[tid])
    ensures NothingStuck(s)
  {
    forall tid | tid in s.Trees() && tid in s.lives ensures s.lives[tid].stuck == {} {
      assert SoundAt(s, tid) && Balanced(trees[tid]);
      hide WellFormed, Calls, Timed;
      assert |s.lives[tid].stuck| == 0;
    }
  }

  // ----- Delivery ----------------------------------------------------------------------------------------------

  /** These messages alone, in this order. */
  function InOrder(ms: seq<Message>): seq<Service.Event> {
    seq(|ms|, i requires 0 <= i < |ms| => Service.Event(ms[i], Reading(0, 0, 0), Reading(0, 0, 0)))
  }

  /**
   The service handles these messages of a process among those of any other processes. Only the order of the messages
   that concern one and the same thread is kept.
   */
  ghost predicate Delivers(handled: seq<Service.Event>, pid: Pid, ms: seq<Message>) {
    forall tid: Tid :: Relevant(handled, pid, tid) == Relevant(InOrder(ms), pid, tid)
  }

  /** The service then has the same trees as when it handles nothing else. */
  lemma DeliveryDecidesTrees(handled: seq<Service.Event>, pid: Pid, ms: seq<Message>)
    requires Delivers(handled, pid, ms)
    ensures TreesAt(Service.HandleAll(map[], handled), pid) == TreesAt(Service.HandleAll(map[], InOrder(ms)), pid)
  {
    hide Service.HandleAll, Relevant, InOrder;
    var a, b := Service.HandleAll(map[], handled), Service.HandleAll(map[], InOrder(ms));
    forall tid: Tid
      ensures tid in TreesAt(a, pid) <==> tid in TreesAt(b, pid)
      ensures tid in TreesAt(a, pid) ==> TreesAt(a, pid)[tid] == TreesAt(b, pid)[tid]
    {
      TreeFollowsItsThread(map[], handled, pid, tid);
      TreeFollowsItsThread(map[], InOrder(ms), pid, tid);
    }
  }

  /** Handling all messages of the process in the order in which they were sent is one way to deliver them. */
  lemma {:induction false} OneOrderDelivers(handled: seq<Service.Event>, pid: Pid)
    ensures Delivers(handled, pid, MessagesOf(handled, pid))
  {
    hide Relevant, InOrder;
    if handled == [] {
      assert InOrder([]) == [] by { NothingInOrder(); }
    } else {
      var before, m := handled[..|handled| - 1], handled[|handled| - 1].message;
      OneOrderDelivers(before, pid);
      forall tid: Tid ensures Relevant(handled, pid, tid) == Relevant(InOrder(MessagesOf(handled, pid)), pid, tid) {
        LastRelevant(handled, pid, tid);
        if !m.Unknown? && m.pid == pid {
          assert MessagesOf(handled, pid) == MessagesOf(before, pid) + [m];
          OneMoreInOrder(MessagesOf(before, pid), m, pid, tid);
        } else {
          assert MessagesOf(handled, pid) == MessagesOf(before, pid);
        }
      }
    }
  }

  lemma NothingInOrder()
    ensures InOrder([]) == []
  {}

  lemma OneMoreInOrder(ms: seq<Message>, m: Message, pid: Pid, tid: Tid)
    ensures Relevant(InOrder(ms + [m]), pid, tid)
            == Relevant(InOrder(ms), pid, tid) + if Concerns(m, pid, tid) then [m] else []
  {
    var more := InOrder(ms + [m]);
    assert more[..|more| - 1] == InOrder(ms);
    LastRelevant(more, pid, tid);
  }

  // ----- The theorem -------------------------------------------------------------------------------------------

  /** However these messages are delivered, the service then has these trees for the process. */
  ghost predicate Builds(pid: Pid, ms: seq<Message>, trees: map<Tid, Tree>) {
    forall handled: seq<Service.Event> :: Delivers(handled, pid, ms) ==>
      TreesAt(Service.HandleAll(map[], handled), pid) == trees
  }

  lemma BuildsInOrder(pid: Pid, ms: seq<Message>, trees: map<Tid, Tree>)
    ensures Builds(pid, ms, trees) <==> TreesAt(Service.HandleAll(map[], InOrder(ms)), pid) == trees
  {
    hide Service.HandleAll, InOrder;
    assert Delivers(InOrder(ms), pid, ms);
    forall handled: seq<Service.Event> | Delivers(handled, pid, ms)
      ensures TreesAt(Service.HandleAll(map[], handled), pid) == TreesAt(Service.HandleAll(map[], InOrder(ms)), pid)
    {
      DeliveryDecidesTrees(handled, pid, ms);
    }
  }

  /** The service has the trees of the in-process form, with names cut to what a message carries. */
  ghost predicate Follows(pid: Pid, events: seq<Event>) {
    Builds(pid, Sent(pid, events), Run(CutRun(events)).Trees())
  }

  lemma SameNesting(events: seq<Event>)
    ensures Nested(events) <==> Nested(CutRun(events))
  {
    hide Run, Nested, CutRun;
    NestedExactlyWhenNothingIsStuck(events);
    NestedExactlyWhenNothingIsStuck(CutRun(events));
    CutRunIsSimilar(events);
  }

  /** For a run whose records end on the thread that started them, the forms agree exactly when it is nested. */
  lemma OwnRunFollowsExactlyWhenNested(pid: Pid, events: seq<Event>)
    requires OwnThread(events)
    ensures Nested(events) <==> Follows(pid, events)
  {
    var handled := InOrder(Sent(pid, events));
    assert |handled| == |Sent(pid, events)|;
    assert forall i :: 0 <= i < |handled| ==> handled[i].message == Sent(pid, events)[i];
    hide Run, Nested, OwnThread, Service.HandleAll, CutRun, Sent, Inv, Balanced, Builds, InOrder;
    var cut := CutRun(events);
    CutKeepsOwnThread(events);
    SameNesting(events);
    BuildsInOrder(pid, Sent(pid, events), Run(cut).Trees());
    var trees := TreesAt(Service.HandleAll(map[], handled), pid);
    if Nested(cut) {
      NestedRunsAgree(pid, events, handled);
    }
    if trees == Run(cut).Trees() {
      forall tid | tid in trees ensures Balanced(trees[tid]) { ServiceTreesAreBalanced(handled, pid, tid); }
      RunsKeepInv(cut);
      EqualTreesLeaveNothingStuck(Run(cut), trees);
      NestedExactlyWhenNothingIsStuck(cut);
    }
  }

  /**
   An end on another thread adds a call to the tree that the record started in; the service does not change that tree.
   So trees that agreed before differ afterwards.
   */
  lemma ForeignEndDiffers(pid: Pid, events: seq<Event>, e: Event)
    requires e.End? && e.rid in Run(events).records && Run(events).records[e.rid].tid != e.caller
    requires Follows(pid, events)
    ensures !Follows(pid, events + [e])
  {
    hide Run, CutRun, Sent, Service.HandleAll, Inv, Step, Builds, InOrder, Send;
    var s := Run(CutRun(events));
    assert (events + [e])[..|events + [e]| - 1] == events;
    RunUnfolds(pid, events + [e]);
    SameEnd(e);
    CutRunIsSimilar(events);
    RunsKeepInv(CutRun(events));
    var tid := s.records[e.rid].tid;
    EndAddsToItsTree(s, e);
    BuildsInOrder(pid, Sent(pid, events), s.Trees());
    BuildsInOrder(pid, Sent(pid, events + [e]), Step(s, e).Trees());
    ForeignExit(pid, Sent(pid, events), ClientRun(events), e, tid);
  }

  lemma EndAddsToItsTree(s: Program, e: Event)
    requires Inv(s) && e.End? && e.rid in s.records
    ensures var tid := s.records[e.rid].tid;
      tid in s.Trees() && tid in Step(s, e).Trees() && Step(s, e).Trees()[tid] != s.Trees()[tid]
  {
    hide Inv, StepEnd, EndRecord, Calls;
    EndEffect(s, e.rid, e.end);
    var r := s.records[e.rid];
    EndAddsOneCall(s.Trees()[r.tid], r.path, SampleOf(r, e.end));
  }

  lemma ForeignExit(pid: Pid, ms: seq<Message>, c: Client, e: Event, tid: Tid)
    requires e.End? && e.caller != tid
    ensures var a := TreesAt(Service.HandleAll(map[], InOrder(ms)), pid);
      var b := TreesAt(Service.HandleAll(map[], InOrder(ms + Send(c, pid, e))), pid);
      (tid in a <==> tid in b) && (tid in a ==> a[tid] == b[tid])
  {
    hide Service.HandleAll, InOrder, Relevant, Cut;
    TreeFollowsItsThread(map[], InOrder(ms), pid, tid);
    TreeFollowsItsThread(map[], InOrder(ms + Send(c, pid, e)), pid, tid);
    if Send(c, pid, e) == [] {
      assert ms + Send(c, pid, e) == ms;
    } else {
      assert Send(c, pid, e) == [Send(c, pid, e)[0]];
      OneMoreInOrder(ms, Send(c, pid, e)[0], pid, tid);
      assert Relevant(InOrder(ms + Send(c, pid, e)), pid, tid) == Relevant(InOrder(ms), pid, tid);
    }
  }

  lemma {:induction false} FollowingRunsAreOwn(pid: Pid, events: seq<Event>)
    requires forall i :: 0 <= i <= |events| ==> Follows(pid, events[..i])
    ensures OwnThread(events)
    decreases |events|
  {
    hide Run, Follows;
    if events == [] {
    } else {
      var before, e := events[..|events| - 1], events[|events| - 1];
      forall i | 0 <= i <= |before| ensures Follows(pid, before[..i]) {
        assert before[..i] == events[..i];
      }
      FollowingRunsAreOwn(pid, before);
      assert before[..|before|] == before && events[..|events|] == events && before + [e] == events;
      if e.End? && e.rid in Run(before).records && Run(before).records[e.rid].tid != e.caller {
        ForeignEndDiffers(pid, before, e);
      }
    }
  }

  lemma {:induction false} PrefixIsNestedAndOwn(events: seq<Event>, i: nat)
    requires Nested(events) && OwnThread(events) && i <= |events|
    ensures Nested(events[..i]) && OwnThread(events[..i])
    decreases |events|
  {
    hide Run, IsLastOpen, LiveSet;
    if i == |events| {
      assert events[..i] == events;
    } else {
      PrefixIsNestedAndOwn(events[..|events| - 1], i);
      assert events[..|events| - 1][..i] == events[..i];
    }
  }

  /**
   Take any run of a process, and let the service handle its messages, among those of other processes. The service has
   the trees of the in-process form all along, with names cut to what a message carries, if and only if the run is
   properly nested and every record ends on the thread that started it.
   */
  lemma RemoteFollowsExactlyWhenNestedAndOwn(pid: Pid, events: seq<Event>)
    ensures Nested(events) && OwnThread(events) <==> forall i :: 0 <= i <= |events| ==> Follows(pid, events[..i])
  {
    hide Nested, OwnThread, Follows;
    if Nested(events) && OwnThread(events) {
      forall i | 0 <= i <= |events| ensures Follows(pid, events[..i]) {
        PrefixIsNestedAndOwn(events, i);
        OwnRunFollowsExactlyWhenNested(pid, events[..i]);
      }
    }
    if forall i :: 0 <= i <= |events| ==> Follows(pid, events[..i]) {
      FollowingRunsAreOwn(pid, events);
      assert events[..|events|] == events;
      OwnRunFollowsExactlyWhenNested(pid, events);
    }
  }

  /**
   What the trees at the end of a run alone tell: they are those of the in-process form when the run is nested and every
   record ends on its own thread; and if they are, a run whose records end on their own threads is nested.
   */
  lemma TreesAtTheEndTell(pid: Pid, events: seq<Event>, handled: seq<Service.Event>)
    requires Delivers(handled, pid, Sent(pid, events))
    ensures var same := TreesAt(Service.HandleAll(map[], handled), pid) == Run(CutRun(events)).Trees();
      && (Nested(events) && OwnThread(events) ==> same)
      && (same && OwnThread(events) ==> Nested(events))
  {
    hide Run, CutRun, Sent, Nested, OwnThread, Service.HandleAll, InOrder, Delivers, Builds;
    if OwnThread(events) {
      OwnRunFollowsExactlyWhenNested(pid, events);
      BuildsInOrder(pid, Sent(pid, events), Run(CutRun(events)).Trees());
      DeliveryDecidesTrees(handled, pid, Sent(pid, events));
    }
  }

  /** With names that fit a message, the trees are the very ones of the in-process form. */
  lemma RemoteIsExactForShortNames(pid: Pid, events: seq<Event>)
    requires forall i :: 0 <= i < |events| && events[i].Start? ==> |events[i].name| < MAX_NAME_LEN
    ensures Nested(events) && OwnThread(events) <==>
              forall i :: 0 <= i <= |events| ==> Builds(pid, Sent(pid, events[..i]), Run(events[..i]).Trees())
  {
    hide Run, Nested, OwnThread, Sent, Builds;
    RemoteFollowsExactlyWhenNestedAndOwn(pid, events);
    forall i | 0 <= i <= |events|
      ensures Follows(pid, events[..i]) <==> Builds(pid, Sent(pid, events[..i]), Run(events[..i]).Trees())
    {
      ShortNamesAreKept(events[..i]);
    }
    hide Follows;
  }

  /** A record that another thread ends makes the forms differ. */
  lemma ForeignEndOccurs(pid: Pid, m: Reading)
    ensures !Follows(pid, [Start(0, 0, "a", 0, m)] + [End(0, 1, 5)])
  {
    var e := Start(0, 0, "a", 0, m);
    assert [e][..0] == [];
    RunOfOne(e);
    hide Follows;
    OwnRunFollowsExactlyWhenNested(pid, [e]);
    ForeignEndDiffers(pid, [e], End(0, 1, 5));
  }
}

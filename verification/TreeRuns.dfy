/**
 The trees of program runs and of service runs as runs of one tree, so that what holds of any operations on a tree holds
 of both forms.
 */
module TreeRuns {
  import opened Words
  import opened NodeStats
  import opened CallTree
  import opened Processes
  import opened Messages
  import opened Records
  import opened Intervals
  import opened TreeReports
  import InProcess
  import Lifetimes
  import Independence
  import Service

  // ----- In process ----------------------------------------------------------------------------------------

  /** What one event does to the tree of a thread, seen from the thread. */
  function OpsIn(s: InProcess.Program, e: InProcess.Event, tid: Tid): seq<Op> {
    match e
    case Start(rid, t, name, _, _) => if t != tid || rid in s.records then [] else [OpOpen(name)]
    case End(rid, _, end) =>
      if rid in s.records && s.records[rid].tid == tid
      then [OpEnd(s.records[rid].path, InProcess.SampleOf(s.records[rid], end))] else []
    case Report(_, _) => [OpReport]
    case ReportOne(t) => if t == tid then [OpReport] else []
  }

  /** What a run does to the present tree of a thread, from the event that created it. */
  function OpsOf(events: seq<InProcess.Event>, tid: Tid): seq<Op> {
    if events == [] then [] else
      var before, e := events[..|events| - 1], events[|events| - 1];
      var s := InProcess.Run(before);
      var created := e.Start? && e.tid == tid && e.rid !in s.records && tid !in s.Trees();
      (if created then [] else OpsOf(before, tid)) + OpsIn(s, e, tid)
  }

  function ApplyMore(t: Tree, ops: seq<Op>): Tree {
    if ops == [] then t else Apply(ApplyMore(t, ops[..|ops| - 1]), ops[|ops| - 1])
  }

  lemma MoreOfOne(t: Tree, op: Op)
    ensures ApplyMore(t, [op]) == Apply(t, op)
  {
    assert [op][..0] == [];
  }

  lemma StepTree(s: InProcess.Program, e: InProcess.Event, tid: Tid)
    requires InProcess.Inv(s) && tid in InProcess.Step(s, e).Trees()
    ensures InProcess.Step(s, e).Trees()[tid] == ApplyMore(InProcess.TreeIn(s, tid), OpsIn(s, e, tid))
    ensures tid !in s.Trees() ==> e.Start? && e.tid == tid && e.rid !in s.records
  {
    hide InProcess.Inv, InProcess.StepStart, InProcess.StepEnd, InProcess.StepReport, Open, EndRecord, CallTree.Report;
    hide IsInactive;
    Lifetimes.LivesAreTrees(s);
    MoreOfOne(InProcess.TreeIn(s, tid), OpReport);
    match e {
      case Start(rid, t, name, start, mark) =>
        if rid !in s.records { InProcess.StartEffect(s, rid, t, name, start, mark); }
      case End(rid, _, end) => if rid in s.records { InProcess.EndEffect(s, rid, end); }
      case Report(_, mark) => InProcess.ReportEffect(s, mark);
      case ReportOne(_) =>
    }
  }

  lemma AppliedMore(ops: seq<Op>, more: seq<Op>)
    requires |more| <= 1
    ensures ApplyMore(ApplyAll(ops), more) == ApplyAll(ops + more)
  {
    hide Apply;
    if more == [] {
      assert ops + more == ops;
    } else {
      assert (ops + more)[..|ops + more| - 1] == ops && more[..0] == [];
    }
  }

  /** In every run, the tree of a thread is what these operations make of a new tree. */
  lemma {:induction false} RunTreeIsItsOps(events: seq<InProcess.Event>, tid: Tid)
    requires tid in InProcess.Run(events).Trees()
    ensures InProcess.Run(events).Trees()[tid] == ApplyAll(OpsOf(events, tid))
    decreases |events|
  {
    hide InProcess.Inv, InProcess.Step, ApplyMore, ApplyAll;
    var before, e := events[..|events| - 1], events[|events| - 1];
    var s := InProcess.Run(before);
    InProcess.RunsKeepInv(before);
    StepTree(s, e, tid);
    OpsGrow(events, tid);
    if tid in s.Trees() {
      RunTreeIsItsOps(before, tid);
      AppliedMore(OpsOf(before, tid), OpsIn(s, e, tid));
    } else {
      NothingApplied();
      AppliedMore([], OpsIn(s, e, tid));
      assert [] + OpsIn(s, e, tid) == OpsIn(s, e, tid);
    }
  }

  lemma NothingApplied()
    ensures ApplyAll([]) == New()
  {}

  lemma OpsGrow(events: seq<InProcess.Event>, tid: Tid)
    requires events != []
    ensures var before, e := events[..|events| - 1], events[|events| - 1];
      var s := InProcess.Run(before);
      && |OpsIn(s, e, tid)| <= 1
      && (tid in s.Trees() ==> OpsOf(events, tid) == OpsOf(before, tid) + OpsIn(s, e, tid))
      && (tid !in s.Trees() && e.Start? && e.tid == tid && e.rid !in s.records ==>
            OpsOf(events, tid) == OpsIn(s, e, tid))
  {
    hide InProcess.Run;
  }

  // ----- In the service ------------------------------------------------------------------------------------

  /** What messages do to the present tree of a thread, from the entry that created it. */
  function OpsOfMessages(ms: seq<Message>): seq<Op> {
    if ms == [] then [] else
      var before := ms[..|ms| - 1];
      var ops := OpsOfMessages(before);
      match ms[|ms| - 1]
      case Entry(_, _, name) =>
        if Independence.ThreadRun(None, before).Some? then ops + [OpOpen(name)] else [OpOpen(name)]
      case Exit(_, _, name, elapsed) => ops + [OpExit(name, Sample(elapsed, 0, 0))]
      case ReportThread(_, _) => ops + [OpReport]
      case ReportProcess(_) => ops + [OpReport]
      case _ => ops
  }

  /** After any messages, the tree of a thread is what these operations make of a new tree. */
  lemma {:induction false} ServiceTreeIsItsOps(ms: seq<Message>)
    requires Independence.ThreadRun(None, ms).Some?
    ensures Independence.ThreadRun(None, ms).value == ApplyAll(OpsOfMessages(ms))
    decreases |ms|
  {
    hide Open, ExitByName, CallTree.Report, IsInactive;
    var before := ms[..|ms| - 1];
    var ops := OpsOfMessages(before);
    if Independence.ThreadRun(None, before).Some? {
      ServiceTreeIsItsOps(before);
    }
    var all := OpsOfMessages(ms);
    assert all != [] && all[..|all| - 1] == ops ==> ApplyAll(all) == Apply(ApplyAll(ops), all[|all| - 1]);
    assert ApplyAll([]) == New();
  }

  // ----- What follows for both -------------------------------------------------------------------------------

  /** A tree that is what these operations make: its paths, its calls and its reports are told by the operations. */
  ghost predicate Told(t: Tree, ops: seq<Op>) {
    && (forall p :: p in t.logs <==> exists i :: 0 <= i <= |ops| && p <= ApplyAll(ops[..i]).top)
    && (forall p :: p in t.logs ==>
          && t.logs[p].Ok() && t.logs[p].calls == CallsAt(ops, p)
          && Partitioned(PrintedAt(ops, p), Meaning(t.logs[p]))
          && |PrintedAt(ops, p)| == |Between(EventsAt(ops, p))| - 1
          && forall k :: 0 <= k < |PrintedAt(ops, p)| ==>
               Shows(PrintedAt(ops, p)[k], Between(EventsAt(ops, p))[k], if p == [] && k == 0 then 1 else 0))
  }

  lemma OpsTell(ops: seq<Op>)
    ensures Told(ApplyAll(ops), ops)
  {
    hide ApplyAll, Partitioned, Meaning, CallsAt, PrintedAt, EventsAt, Shows, Between;
    var t := ApplyAll(ops);
    forall p ensures p in t.logs <==> exists i :: 0 <= i <= |ops| && p <= ApplyAll(ops[..i]).top {
      NodesArePrefixesOfStacks(ops, p);
    }
    forall p | p in t.logs
      ensures t.logs[p].Ok() && t.logs[p].calls == CallsAt(ops, p)
      ensures Partitioned(PrintedAt(ops, p), Meaning(t.logs[p]))
      ensures |PrintedAt(ops, p)| == |Between(EventsAt(ops, p))| - 1
      ensures forall k :: 0 <= k < |PrintedAt(ops, p)| ==>
                Shows(PrintedAt(ops, p)[k], Between(EventsAt(ops, p))[k], if p == [] && k == 0 then 1 else 0)
    {
      NodesHoldTheirCalls(ops, p);
      ReportsPartitionTheCalls(ops, p);
      TreeReportsShowTheirIntervals(ops, p);
    }
  }

  /**
   In every run of a program: the nodes of a tree are the prefixes of the stacks it has had, each holds exactly the
   calls recorded at its path, and what its reports have shown adds up with the present interval to its totals.
   */
  lemma RunTellsItsTrees(events: seq<InProcess.Event>, tid: Tid)
    requires tid in InProcess.Run(events).Trees()
    ensures Told(InProcess.Run(events).Trees()[tid], OpsOf(events, tid))
  {
    hide Told, ApplyAll;
    RunTreeIsItsOps(events, tid);
    OpsTell(OpsOf(events, tid));
  }

  /** The same for every tree of the service, after any messages of any processes. */
  lemma MessagesTellTheirTrees(handled: seq<Service.Event>, pid: Pid, tid: Tid)
    requires Service.TreeOf(Service.HandleAll(map[], handled), pid, tid).Some?
    ensures Told(Service.TreeOf(Service.HandleAll(map[], handled), pid, tid).value,
                 OpsOfMessages(Independence.Relevant(handled, pid, tid)))
  {
    hide Told, ApplyAll;
    Independence.TreeFollowsItsThread(map[], handled, pid, tid);
    ServiceTreeIsItsOps(Independence.Relevant(handled, pid, tid));
    OpsTell(OpsOfMessages(Independence.Relevant(handled, pid, tid)));
  }
}

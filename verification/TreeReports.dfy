/** All the reports of one tree over its life, read back, against the statistics that its nodes hold. */
module TreeReports {
  import opened NodeStats
  import opened CallTree
  import opened Reporting
  import opened Intervals

  /** What a reader of the full reports of a run finds for the node at a path, report after report. */
  ghost function PrintedAt(ops: seq<Op>, p: Path): seq<TimingStats> {
    if ops == [] then [] else
      var before := ops[..|ops| - 1];
      var t := ApplyAll(before);
      RunIsWellFormed(before);
      PrintedAt(before, p) + if ops[|ops| - 1].OpReport? && p in t.logs then [ReadAt(t, p)] else []
  }

  ghost function ReadAt(t: Tree, p: Path): TimingStats
    requires WellFormed(t) && p in t.logs
  {
    ReportDeterminesTree(t);
    Rebuild(FullReport(t)).nodes[p]
  }

  lemma ReadAtIsMeaning(t: Tree, p: Path)
    requires WellFormed(t) && p in t.logs
    ensures ReadAt(t, p) == Meaning(t.logs[p])
  {
    hide Meaning, WellFormed;
    ReportDeterminesTree(t);
  }

  /** What one operation does to the log of a node. */
  lemma StepLog(t: Tree, op: Op, p: Path)
    requires WellFormed(t)
    ensures p in t.logs ==> p in Apply(t, op).logs
    ensures p in t.logs ==>
              Apply(t, op).logs[p] ==
              if op.OpReport? then t.logs[p].Reset()
              else if CallOf(t, op, p) != [] then t.logs[p].Add(CallOf(t, op, p)[0])
              else t.logs[p]
    ensures p !in t.logs && p in Apply(t, op).logs ==> Apply(t, op).logs[p] == NewLog(false)
  {
    hide Closed;
  }

  // ----- A tree seen from one node -------------------------------------------------------------------------

  /** What a run does to the node at a path, since the node was created. */
  function EventsAt(ops: seq<Op>, p: Path): seq<NodeEvent> {
    if ops == [] then [] else
      var before, op := ops[..|ops| - 1], ops[|ops| - 1];
      var t := ApplyAll(before);
      EventsAt(before, p) +
      if p !in t.logs then []
      else if op.OpReport? then [PrintAll]
      else if CallOf(t, op, p) != [] then [Call(CallOf(t, op, p)[0])]
      else []
  }

  lemma {:induction false} NothingBeforeTheNode(ops: seq<Op>, p: Path)
    requires p !in ApplyAll(ops).logs
    ensures PrintedAt(ops, p) == [] && EventsAt(ops, p) == []
    decreases |ops|
  {
    if ops == [] {
    } else {
      hide Apply, WellFormed, ReadAt;
      RunIsWellFormed(ops[..|ops| - 1]);
      StepLog(ApplyAll(ops[..|ops| - 1]), ops[|ops| - 1], p);
      NothingBeforeTheNode(ops[..|ops| - 1], p);
    }
  }

  lemma PlayOne(l: Log, events: seq<NodeEvent>, e: NodeEvent)
    requires l.Ok()
    ensures var before := Play(l, events);
      Play(l, events + [e]) ==
      match e
      case Call(s) => before.(log := before.log.Add(s))
      case PrintAll => Printout(before.log.Reset(), before.printed + [Meaning(before.log)])
      case PrintDelta => before
  {
    hide Meaning;
    assert (events + [e])[..|events + [e]| - 1] == events;
  }

  /** One more operation seen from a node that exists. */
  lemma StepPlays(t: Tree, op: Op, p: Path, events: seq<NodeEvent>, printed: seq<TimingStats>)
    requires WellFormed(t) && p in t.logs
    requires Play(NewLog(p == []), events) == Printout(t.logs[p], printed)
    ensures p in Apply(t, op).logs
    ensures Play(NewLog(p == []),
                 events + if op.OpReport? then [PrintAll]
                          else if CallOf(t, op, p) != [] then [Call(CallOf(t, op, p)[0])] else [])
            == Printout(Apply(t, op).logs[p], printed + if op.OpReport? then [ReadAt(t, p)] else [])
  {
    hide Meaning, WellFormed, Apply, CallOf, ReadAt, Play;
    StepLog(t, op, p);
    ReadAtIsMeaning(t, p);
    assert events + [] == events && printed + [] == printed;
    if op.OpReport? {
      PlayOne(NewLog(p == []), events, PrintAll);
    } else if CallOf(t, op, p) != [] {
      PlayOne(NewLog(p == []), events, Call(CallOf(t, op, p)[0]));
    }
  }

  /** Each node of a tree, with what its reports have shown, is one run of a node. */
  lemma {:induction false} NodeIsPlayed(ops: seq<Op>, p: Path)
    requires p in ApplyAll(ops).logs
    ensures Play(NewLog(p == []), EventsAt(ops, p)) == Printout(ApplyAll(ops).logs[p], PrintedAt(ops, p))
    decreases |ops|
  {
    hide Meaning, WellFormed, Apply, ReadAt, CallOf;
    if ops == [] {
    } else {
      var before, op := ops[..|ops| - 1], ops[|ops| - 1];
      var t := ApplyAll(before);
      RunIsWellFormed(before);
      if p in t.logs {
        NodeIsPlayed(before, p);
        StepPlays(t, op, p, EventsAt(before, p), PrintedAt(before, p));
      } else {
        RootIsThere(t);
        StepLog(t, op, p);
        NothingBeforeTheNode(before, p);
        assert EventsAt(ops, p) == [] && PrintedAt(ops, p) == [];
      }
    }
  }

  lemma RootIsThere(t: Tree)
    requires WellFormed(t)
    ensures [] in t.logs
  {}

  // ----- What the reports have shown -------------------------------------------------------------------------

  /**
   For every node of a tree after any run: the interval figures that the full reports of the run have shown for the
   node, with its present ones, add up to its totals, and the extremes agree.
   */
  lemma ReportsPartitionTheCalls(ops: seq<Op>, p: Path)
    requires p in ApplyAll(ops).logs
    ensures ApplyAll(ops).logs[p].Ok() && Partitioned(PrintedAt(ops, p), Meaning(ApplyAll(ops).logs[p]))
  {
    hide Meaning, Partitioned, ApplyAll, PrintedAt, EventsAt;
    NodeIsPlayed(ops, p);
    IntervalsPartitionTheCalls(p == [], EventsAt(ops, p));
  }

  /** Each of these reports has shown exactly the calls of the node since the report before it. */
  lemma TreeReportsShowTheirIntervals(ops: seq<Op>, p: Path)
    requires p in ApplyAll(ops).logs
    ensures var printed, b := PrintedAt(ops, p), Between(EventsAt(ops, p));
      && |printed| == |b| - 1
      && (forall k :: 0 <= k < |printed| ==> Shows(printed[k], b[k], if p == [] && k == 0 then 1 else 0))
      && ApplyAll(ops).logs[p].Ok()
      && Shows(Meaning(ApplyAll(ops).logs[p]), b[|b| - 1], if p == [] && |b| == 1 then 1 else 0)
  {
    hide Meaning, ApplyAll, PrintedAt, EventsAt, Shows;
    NodeIsPlayed(ops, p);
    ReportsShowTheirIntervals(p == [], EventsAt(ops, p));
  }
}

/** Reports in the service: which trees they remove, and which interval they time. */
module ServiceReports {
  import opened Words
  import opened NodeStats
  import opened CallTree
  import opened Processes
  import opened Messages
  import opened Service
  import opened Independence
  import opened Remote
  import opened Lifetimes

  // ----- Removal -------------------------------------------------------------------------------------------

  /** The entries since the last report of the present tree of a thread, among the messages that concern the thread. */
  function EntriesSinceReport(ms: seq<Message>): nat {
    if ms == [] then 0 else
      var before := ms[..|ms| - 1];
      match ms[|ms| - 1]
      case Entry(_, _, _) => if ThreadRun(None, before).Some? then EntriesSinceReport(before) + 1 else 1
      case ReportThread(_, _) => 0
      case ReportProcess(_) => 0
      case _ => EntriesSinceReport(before)
  }

  lemma {:induction false} CountersCountEntries(ms: seq<Message>)
    requires ThreadRun(None, ms).Some?
    ensures var t := ThreadRun(None, ms).value; t.opens - t.reported == EntriesSinceReport(ms)
  {
    var before := ms[..|ms| - 1];
    if ThreadRun(None, before).Some? {
      CountersCountEntries(before);
    }
    StepCounts(ThreadRun(None, before), ms[|ms| - 1]);
  }

  lemma StepCounts(t: Option<Tree>, m: Message)
    requires ThreadStep(t, m).Some?
    ensures t.None? ==> m.Entry?
    ensures var u := ThreadStep(t, m).value;
      u.opens - u.reported ==
      match m
      case Entry(_, _, _) => if t.Some? then t.value.opens - t.value.reported + 1 else 1
      case ReportThread(_, _) => 0
      case ReportProcess(_) => 0
      case _ => t.value.opens - t.value.reported
  {
    hide LogsWith, IsInactive;
  }

  /**
   After any messages, a report of the process removes the tree of a thread exactly when no entry came since the tree's
   last report, counted in 64 bits, and the stack is only the root. Every other tree is reported and kept.
   */
  lemma ServiceRemovalRule(handled: seq<Event>, report: Event, pid: Pid, tid: Tid)
    requires report.message == Message.ReportProcess(pid) && tid in TreesAt(HandleAll(map[], handled), pid)
    ensures var t := TreesAt(HandleAll(map[], handled), pid)[tid];
      var after := TreesAt(HandleAll(map[], handled + [report]), pid);
      && (tid !in after <==> Wrap(EntriesSinceReport(Relevant(handled, pid, tid))) == 0 && t.top == [])
      && (tid in after ==> after[tid] == CallTree.Report(t))
  {
    hide HandleAll, EntriesSinceReport, CallTree.Report, Wrap;
    var ms := Relevant(handled, pid, tid);
    var more := handled + [report];
    assert more[..|more| - 1] == handled;
    LastRelevant(more, pid, tid);
    TreeFollowsItsThread(map[], handled, pid, tid);
    TreeFollowsItsThread(map[], more, pid, tid);
    CountersCountEntries(ms);
    ServiceTreesAreBalanced(handled, pid, tid);
    var t := ThreadRun(None, ms).value;
    WrapEqual(t.opens, t.reported);
  }

  // ----- The clock -----------------------------------------------------------------------------------------

  /** The reading of the last message that created a tree of the process or reported one, found from the trees alone. */
  ghost function LastMark(handled: seq<Event>, pid: Pid): Option<Reading> {
    if handled == [] then None else
      var before, e := handled[..|handled| - 1], handled[|handled| - 1];
      var trees := TreesAt(HandleAll(map[], before), pid);
      match e.message
      case Entry(p, tid, _) => if p == pid && tid !in trees then Some(e.now) else LastMark(before, pid)
      case ReportProcess(p) => if p == pid && HasActive(trees) then Some(e.mark) else LastMark(before, pid)
      case CloseProcess(p) => if p == pid then None else LastMark(before, pid)
      case _ => LastMark(before, pid)
  }

  function ClockOf(s: State, pid: Pid): Option<Reading> {
    if pid in s then Some(s[pid].clock) else None
  }

  lemma StepClock(s: State, e: Event, pid: Pid)
    ensures ClockOf(Handle(s, e), pid) ==
            match e.message
            case Entry(p, tid, _) => if p == pid && tid !in TreesAt(s, pid) then Some(e.now) else ClockOf(s, pid)
            case ReportProcess(p) => if p == pid && HasActive(TreesAt(s, pid)) then Some(e.mark) else ClockOf(s, pid)
            case CloseProcess(p) => if p == pid then None else ClockOf(s, pid)
            case _ => ClockOf(s, pid)
  {
    hide Open, ExitByName, CallTree.Report, IsInactive;
    if pid in s {
      ActiveTreesStay(s[pid]);
    }
  }

  /** The clock of every process that the service knows is that reading. */
  lemma {:induction false} ClocksHoldLastMarks(handled: seq<Event>, pid: Pid)
    ensures ClockOf(HandleAll(map[], handled), pid) == LastMark(handled, pid)
  {
    if handled == [] {
    } else {
      hide Handle, ClockOf;
      ClocksHoldLastMarks(handled[..|handled| - 1], pid);
      StepClock(HandleAll(map[], handled[..|handled| - 1]), handled[|handled| - 1], pid);
    }
  }

  ghost predicate SameMarks(a: seq<Event>, b: seq<Event>) {
    forall pid: Pid :: LastMark(a, pid) == LastMark(b, pid)
  }

  /**
   Two interleavings of the messages of the threads lead to the very same state of the service exactly when the last
   message to create or report a tree of each process had the same reading in both.
   */
  lemma InterleavingsDifferOnlyInMarks(a: seq<Event>, b: seq<Event>)
    requires SameForEachThread(a, b)
    ensures HandleAll(map[], a) == HandleAll(map[], b) <==> SameMarks(a, b)
  {
    hide HandleAll, LastMark;
    var x, y := HandleAll(map[], a), HandleAll(map[], b);
    InterleavingDoesNotMatter(map[], a, b);
    assert Forest(x).Keys == x.Keys && Forest(y).Keys == y.Keys;
    forall pid
      ensures ClockOf(x, pid) == LastMark(a, pid) && ClockOf(y, pid) == LastMark(b, pid)
      ensures pid in x <==> pid in y
      ensures pid in x ==> x[pid].trees == y[pid].trees
    {
      ClocksHoldLastMarks(a, pid);
      ClocksHoldLastMarks(b, pid);
      assert pid in x ==> Forest(x)[pid] == x[pid].trees && Forest(y)[pid] == y[pid].trees;
    }
    if SameMarks(a, b) {
      forall pid | pid in x ensures pid in y && x[pid] == y[pid] {
        assert ClockOf(x, pid) == LastMark(a, pid) == LastMark(b, pid) == ClockOf(y, pid);
      }
      assert x.Keys == y.Keys;
      assert x == y;
    }
    if x == y {
      forall pid ensures LastMark(a, pid) == LastMark(b, pid) {
        assert ClockOf(x, pid) == ClockOf(y, pid);
      }
    }
  }

  /** What a process report prints as the time of the interval, as `PerfService.HandleReportProcess` computes it. */
  function Printed(s: State, pid: Pid, now: Reading): Option<Reading> {
    if pid !in s || CloseInactive(s[pid]).trees == map[] then None else Some(Since(now, s[pid].clock))
  }

  /** A report prints a time exactly when some tree is not inactive, and it is the time since that reading. */
  lemma ReportTimesSinceLastMark(handled: seq<Event>, pid: Pid, now: Reading)
    ensures var printed := Printed(HandleAll(map[], handled), pid, now);
      && (printed.Some? <==> HasActive(TreesAt(HandleAll(map[], handled), pid)))
      && (printed.Some? ==>
            LastMark(handled, pid).Some? && Spans(LastMark(handled, pid).value, printed.value, now))
  {
    if LastMark(handled, pid).Some? {
      SinceSpans(now, LastMark(handled, pid).value);
    }
    hide Spans, Since;
    hide IsInactive, HandleAll, LastMark;
    ClocksHoldLastMarks(handled, pid);
    if pid in HandleAll(map[], handled) {
      ActiveTreesStay(HandleAll(map[], handled)[pid]);
    }
  }
}

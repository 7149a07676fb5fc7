/** Which interval a report of the process times: the one since the clock was last marked. */
module ReportClock {
  import opened Words
  import opened CallTree
  import opened Processes
  import opened Records
  import opened InProcess

  /** The time of the last event that created a tree or reported one, found from the trees alone. */
  ghost function LastMark(events: seq<Event>): Option<Reading> {
    if events == [] then None else
      var before := events[..|events| - 1];
      var s := Run(before);
      match events[|events| - 1]
      case Start(rid, tid, _, _, mark) =>
        if rid !in s.records && tid !in s.Trees() then Some(mark) else LastMark(before)
      case Report(_, mark) => if HasActive(s.Trees()) then Some(mark) else LastMark(before)
      case _ => LastMark(before)
  }

  /** The elapsed time that a report at this moment prints, as `PerfProcess.ReportProcess` computes it. */
  function Printed(s: Program, now: Reading): Option<Reading> {
    if s.process.None? || CloseInactive(s.process.value).trees == map[] then None
    else Some(Since(now, s.process.value.clock))
  }

  lemma {:induction false} ClockHoldsLastMark(events: seq<Event>)
    requires Run(events).process.Some?
    ensures LastMark(events) == Some(Run(events).process.value.clock)
    decreases |events|
  {
    hide IsInactive, Open, EndRecord, CallTree.Report, StepStart, StepEnd, StepReport, StepReportOne;
    var before, e := events[..|events| - 1], events[|events| - 1];
    if Run(before).process.Some? {
      ClockHoldsLastMark(before);
    }
    StepClock(Run(before), e);
  }

  lemma StepClock(s: Program, e: Event)
    requires Step(s, e).process.Some?
    ensures var c := Step(s, e).process.value.clock;
      match e
      case Start(rid, tid, _, _, mark) =>
        if rid !in s.records && tid !in s.Trees() then c == mark
        else s.process.Some? && c == s.process.value.clock
      case Report(_, mark) => s.process.Some? && c == if HasActive(s.Trees()) then mark else s.process.value.clock
      case _ => s.process.Some? && c == s.process.value.clock
  {
    hide IsInactive, Open, EndRecord, CallTree.Report;
    if s.process.Some? {
      ActiveTreesStay(s.process.value);
    }
  }

  /**
   In every run, a report prints an elapsed time exactly when some tree is not inactive, and then it is the time since
   the last event that created a tree or reported one. It is never measured from the clock's initial zero.
   */
  lemma ReportTimesSinceLastMark(events: seq<Event>, now: Reading)
    ensures Printed(Run(events), now).Some? <==> HasActive(Run(events).Trees())
    ensures Printed(Run(events), now).Some? ==>
              && LastMark(events).Some?
              && Spans(LastMark(events).value, Printed(Run(events), now).value, now)
  {
    if LastMark(events).Some? {
      SinceSpans(now, LastMark(events).value);
    }
    hide Spans, Since;
    hide IsInactive, Run, LastMark;
    if Run(events).process.Some? {
      ClockHoldsLastMark(events);
      ActiveTreesStay(Run(events).process.value);
    }
  }
}

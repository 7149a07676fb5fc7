/** Properly nested runs, told from the starts and ends of records alone, and what they mean for the stacks. */
module Nesting {
  import opened Words
  import opened NodeStats
  import opened CallTree
  import opened Processes
  import opened Records
  import opened InProcess
  import opened Lifetimes

  function LiveSet(events: seq<Event>): set<Rid> {
    if events == [] then {} else
      var live := LiveSet(events[..|events| - 1]);
      match events[|events| - 1]
      case Start(rid, _, _, _, _) => live + {rid}
      case End(rid, _, _) => live - {rid}
      case _ => live
  }

  function Without(s: seq<Rid>, rid: Rid): seq<Rid> {
    if s == [] then [] else
      Without(s[..|s| - 1], rid) + if s[|s| - 1] == rid then [] else [s[|s| - 1]]
  }

  function OpenNext(open: seq<Rid>, live: set<Rid>, e: Event, tid: Tid): seq<Rid> {
    match e
    case Start(rid, t, _, _, _) => if t == tid && rid !in live then open + [rid] else open
    case End(rid, _, _) => Without(open, rid)
    case _ => open
  }

  /** The live records of a thread in the order in which they started. */
  function OpenIn(events: seq<Event>, tid: Tid): seq<Rid> {
    if events == [] then [] else
      var before := events[..|events| - 1];
      OpenNext(OpenIn(before, tid), LiveSet(before), events[|events| - 1], tid)
  }

  /** The record is the last started of the live records of some thread. */
  ghost predicate IsLastOpen(events: seq<Event>, rid: Rid) {
    exists tid: Tid :: OpenIn(events, tid) != [] && OpenIn(events, tid)[|OpenIn(events, tid)| - 1] == rid
  }

  /** Every record that ends is, when it ends, the last started of the live records of its thread. */
  ghost predicate Nested(events: seq<Event>) {
    if events == [] then true else
      var before := events[..|events| - 1];
      var e := events[|events| - 1];
      Nested(before) && (e.End? && e.rid in LiveSet(before) ==> IsLastOpen(before, e.rid))
  }

  lemma Unfold(events: seq<Event>)
    requires events != []
    ensures var before, e := events[..|events| - 1], events[|events| - 1];
      && Run(events) == Step(Run(before), e)
      && (forall tid :: OpenIn(events, tid) == OpenNext(OpenIn(before, tid), LiveSet(before), e, tid))
      && (Nested(events) <==> Nested(before) && (e.End? && e.rid in LiveSet(before) ==> IsLastOpen(before, e.rid)))
      && LiveSet(before) == Run(before).records.Keys && Inv(Run(before))
  {
    hide Step, OpenNext, IsLastOpen, Inv;
    LiveSetIsRecords(events[..|events| - 1]);
    RunsKeepInv(events[..|events| - 1]);
  }

  lemma {:induction false} LiveSetIsRecords(events: seq<Event>)
    ensures LiveSet(events) == Run(events).records.Keys
  {
    if events == [] {
    } else {
      hide StepStart, StepEnd, StepReport, Inv;
      var before := events[..|events| - 1];
      LiveSetIsRecords(before);
      RunsKeepInv(before);
      StepRecords(Run(before), events[|events| - 1]);
    }
  }

  lemma StepRecords(s: Program, e: Event)
    ensures Step(s, e).records.Keys ==
            match e
            case Start(rid, _, _, _, _) => s.records.Keys + {rid}
            case End(rid, _, _) => s.records.Keys - {rid}
            case _ => s.records.Keys
  {
    hide NodeExists, Enter, EndRecord, ReportClosed, CallTree.Report;
  }

  /** The stack entries of a thread, from the bottom up, are those of the records `open`. */
  ghost predicate StackOf(s: Program, tid: Tid, open: seq<Rid>) {
    && |open| == |TreeIn(s, tid).top|
    && (forall i :: 0 <= i < |open| ==>
          open[i] in s.records && s.records[open[i]].tid == tid && |s.records[open[i]].path| == i + 1)
  }

  /** Where the entries are those of `open`, the record with the top entry is the last of `open`. */
  lemma TopIsLastOpen(s: Program, tid: Tid, open: seq<Rid>, rid: Rid)
    requires Inv(s) && StackOf(s, tid, open) && rid in s.records && s.records[rid].tid == tid
    ensures tid in s.Trees()
    ensures open != [] && (s.records[rid].path == s.Trees()[tid].top <==> open[|open| - 1] == rid)
    ensures rid in open
  {
    assert tid in s.Trees();
    RecordFacts(s, rid);
    var k := |s.records[rid].path|;
    OneRecordPerLevel(s, tid, rid, open[k - 1]);
    var last := open[|open| - 1];
    OneRecordPerLevel(s, tid, rid, last);
  }

  lemma OneRecordPerLevel(s: Program, tid: Tid, r: Rid, q: Rid)
    requires Inv(s) && r in s.records && q in s.records && s.records[r].tid == s.records[q].tid == tid
    ensures |s.records[r].path| == |s.records[q].path| ==> r == q
    ensures tid in s.Trees()
    ensures |s.records[r].path| == |s.Trees()[tid].top| <==> s.records[r].path == s.Trees()[tid].top
  {
    assert SoundAt(s, tid);
    assert r in LiveOf(s.records, tid) && q in LiveOf(s.records, tid);
    hide WellFormed, Timed, Conserved;
  }

  lemma {:induction false} WithoutLast(s: seq<Rid>, rid: Rid)
    requires s != [] && s[|s| - 1] == rid && rid !in s[..|s| - 1]
    ensures Without(s, rid) == s[..|s| - 1]
  {
    WithoutAbsent(s[..|s| - 1], rid);
  }

  lemma {:induction false} WithoutAbsent(s: seq<Rid>, rid: Rid)
    requires rid !in s
    ensures Without(s, rid) == s
  {
    if s == [] {
    } else {
      WithoutAbsent(s[..|s| - 1], rid);
    }
  }

  lemma NoRepeats(s: Program, tid: Tid, open: seq<Rid>)
    requires StackOf(s, tid, open) && open != []
    ensures open[|open| - 1] !in open[..|open| - 1]
  {}

  /** In a nested run the stack of every thread holds the live records of the thread in starting order, and no more. */
  lemma {:induction false} NestedStacks(events: seq<Event>, tid: Tid)
    requires Nested(events)
    ensures StackOf(Run(events), tid, OpenIn(events, tid))
    decreases |events|
  {
    hide StackOf, Inv, Step, OpenIn, Run, LiveSet, OpenNext;
    if events == [] {
      EmptyRun(tid);
    } else {
      hide Nested;
      Unfold(events);
      var before := events[..|events| - 1];
      var e := events[|events| - 1];
      NestedStacks(before, tid);
      if e.End? && e.rid in Run(before).records {
        var t :| OpenIn(before, t) != [] && OpenIn(before, t)[|OpenIn(before, t)| - 1] == e.rid;
        NestedStacks(before, t);
        StackAfterEnd(Run(before), e, tid, OpenIn(before, tid), t, OpenIn(before, t));
      } else {
        StackAfterOther(Run(before), e, tid, OpenIn(before, tid));
      }
    }
  }

  lemma EmptyRun(tid: Tid)
    ensures StackOf(Run([]), tid, OpenIn([], tid))
  {}

  lemma StackAfterOther(s: Program, e: Event, tid: Tid, open: seq<Rid>)
    requires Inv(s) && StackOf(s, tid, open) && !(e.End? && e.rid in s.records)
    ensures StackOf(Step(s, e), tid, OpenNext(open, s.records.Keys, e, tid))
  {
    hide Inv, Step, StackOf;
    match e {
      case Start(_, _, _, _, _) => StackAfterStart(s, e, tid, open);
      case End(rid, _, _) =>
        NoEnd(s, e);
        assert Without(open, rid) == open by { NotOpen(s, tid, open, rid); WithoutAbsent(open, rid); }
      case _ => StackAfterReport(s, e, tid, open);
    }
  }

  lemma NoEnd(s: Program, e: Event)
    requires e.End? && e.rid !in s.records
    ensures Step(s, e) == s
  {}

  lemma NotOpen(s: Program, tid: Tid, open: seq<Rid>, rid: Rid)
    requires StackOf(s, tid, open) && rid !in s.records
    ensures rid !in open
  {}

  lemma StackAfterStart(s: Program, e: Event, tid: Tid, open: seq<Rid>)
    requires e.Start? && Inv(s) && StackOf(s, tid, open)
    ensures StackOf(Step(s, e), tid, if e.tid == tid && e.rid !in s.records then open + [e.rid] else open)
  {
    hide Inv, Open;
    if e.rid !in s.records {
      StartEffect(s, e.rid, e.tid, e.name, e.start, e.mark);
    }
  }

  lemma StackAfterReport(s: Program, e: Event, tid: Tid, open: seq<Rid>)
    requires (e.Report? || e.ReportOne?) && Inv(s) && StackOf(s, tid, open)
    ensures StackOf(Step(s, e), tid, open)
  {
    hide Inv, StepReport, CallTree.Report;
    if e.Report? {
      ReportEffect(s, e.mark);
      if tid in s.Trees() { ReportParts(s.Trees()[tid]); }
    } else if e.tid in s.Trees() {
      ReportParts(s.Trees()[e.tid]);
    }
  }

  lemma StackAfterEnd(s: Program, e: Event, tid: Tid, open: seq<Rid>, t: Tid, list: seq<Rid>)
    requires e.End? && e.rid in s.records && Inv(s) && StackOf(s, tid, open) && StackOf(s, t, list)
    requires list != [] && list[|list| - 1] == e.rid && (t == tid ==> open == list)
    ensures StackOf(Step(s, e), tid, OpenNext(open, s.records.Keys, e, tid))
  {
    hide Inv, StepEnd, EndRecord, EndIn;
    EndEffect(s, e.rid, e.end);
    TopIsLastOpen(s, t, list, e.rid);
    if t == tid {
      NoRepeats(s, tid, open);
      WithoutLast(open, e.rid);
    } else {
      assert e.rid !in open;
      WithoutAbsent(open, e.rid);
    }
  }

  // ----- Nested exactly when nothing is stuck --------------------------------------------------------------

  ghost predicate NothingStuck(s: Program) {
    forall tid :: tid in s.Trees() && tid in s.lives ==> s.lives[tid].stuck == {}
  }

  /** A run is nested exactly when no tree left at its end has a stuck entry. */
  lemma NestedExactlyWhenNothingIsStuck(events: seq<Event>)
    ensures Nested(events) <==> NothingStuck(Run(events))
  {
    hide Inv, Step, StackOf, OpenIn, Run, Nested, LiveSet, OpenNext, NothingStuck;
    RunsKeepInv(events);
    if Nested(events) {
      assert NothingStuck(Run(events)) by { NestedLeavesNothingStuck(events); }
    } else {
      NotNestedSticks(events);
    }
  }

  /** A run is nested exactly when no record was ever ended while another one held the top of its tree's stack. */
  lemma NestedExactlyWhenNoneClosedOutOfOrder(events: seq<Event>)
    ensures Nested(events) <==> forall tid: Tid :: !ClosedOutOfOrder(events, tid)
  {
    hide Run, Nested, ClosedOutOfOrder;
    NestedExactlyWhenNothingIsStuck(events);
    var s := Run(events);
    forall tid: Tid ensures ClosedOutOfOrder(events, tid) <==>
                            tid in s.Trees() && tid in s.lives && s.lives[tid].stuck != {} {
      if ClosedOutOfOrder(events, tid) {
        ClosedOutOfOrderIsStuck(events, tid);
      } else if tid in s.Trees() && tid in s.lives && s.lives[tid].stuck != {} {
        StuckWasClosedOutOfOrder(events, tid);
      }
    }
  }

  lemma NestedLeavesNothingStuck(events: seq<Event>)
    requires Nested(events)
    ensures NothingStuck(Run(events))
  {
    hide Inv, StackOf, OpenIn, Run, Nested;
    RunsKeepInv(events);
    forall tid | tid in Run(events).Trees() && tid in Run(events).lives ensures Run(events).lives[tid].stuck == {} {
      NestedStacks(events, tid);
      FullStack(Run(events), tid, OpenIn(events, tid));
    }
  }

  lemma {:induction false} NotNestedSticks(events: seq<Event>)
    requires !Nested(events)
    ensures !NothingStuck(Run(events))
    decreases |events|
  {
    assert events != [];
    hide Inv, Step, StackOf, OpenIn, Run, Nested, LiveSet, OpenNext;
    Unfold(events);
    var before := events[..|events| - 1];
    var e := events[|events| - 1];
    var s := Run(before);
    assert Run(events) == Step(s, e);
    if !Nested(before) {
      NotNestedSticks(before);
      var tid :| tid in s.Trees() && tid in s.lives && s.lives[tid].stuck != {};
      var k :| k in s.lives[tid].stuck;
      StuckLevel(s, tid, k);
      StepKeepsStuck(s, e, tid, s.lives[tid].serial, s.Trees()[tid].top[..k]);
    } else {
      var tid := s.records[e.rid].tid;
      NestedStacks(before, tid);
      EndNotLastSticks(s, e, tid, OpenIn(before, tid));
    }
  }

  /** Where the entries are those of `open`, the end of a record other than its last leaves an entry behind. */
  lemma EndNotLastSticks(s: Program, e: Event, tid: Tid, open: seq<Rid>)
    requires Inv(s) && StackOf(s, tid, open)
    requires e.End? && e.rid in s.records && s.records[e.rid].tid == tid
    requires open != [] ==> open[|open| - 1] != e.rid
    ensures !NothingStuck(Step(s, e))
  {
    hide Inv, Step, StackOf;
    TopIsLastOpen(s, tid, open, e.rid);
    OutOfOrderEndSticks(s, e);
  }

  lemma StuckLevel(s: Program, tid: Tid, k: nat)
    requires Inv(s) && tid in s.Trees() && tid in s.lives && k in s.lives[tid].stuck
    ensures 1 <= k <= |s.Trees()[tid].top|
    ensures StuckAt(s, tid, s.lives[tid].serial, s.Trees()[tid].top[..k])
  {
    assert SoundAt(s, tid);
    hide WellFormed, Timed, Conserved;
  }

  /** A stack with a live record for every entry has no stuck entry. */
  lemma FullStack(s: Program, tid: Tid, open: seq<Rid>)
    requires Inv(s) && tid in s.Trees() && tid in s.lives && StackOf(s, tid, open)
    ensures s.lives[tid].stuck == {}
  {
    hide Inv;
    forall k | k in s.lives[tid].stuck ensures false {
      StuckLevel(s, tid, k);
      RecordFacts(s, open[k - 1]);
    }
  }
}

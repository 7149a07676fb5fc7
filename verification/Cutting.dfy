/**
 Cutting every name to what a message can carry: the trees keep their shape up to merging the nodes whose paths become
 equal, and every node holds exactly the calls of the nodes merged into it.
 */
module Cutting {
  import opened Words
  import opened NodeStats
  import opened CallTree
  import opened Processes
  import opened Records
  import opened InProcess
  import opened Messages
  import MapSums

  function CutEvent(e: Event): Event {
    match e
    case Start(rid, tid, name, start, mark) => Start(rid, tid, Cut(name), start, mark)
    case _ => e
  }

  function CutRun(events: seq<Event>): seq<Event> {
    if events == [] then [] else CutRun(events[..|events| - 1]) + [CutEvent(events[|events| - 1])]
  }

  lemma {:induction false} ShortNamesAreKept(events: seq<Event>)
    requires forall i :: 0 <= i < |events| && events[i].Start? ==> |events[i].name| < MAX_NAME_LEN
    ensures CutRun(events) == events
  {
    if events == [] {
    } else {
      ShortNamesAreKept(events[..|events| - 1]);
      assert events[|events| - 1] == CutEvent(events[|events| - 1]);
    }
  }

  lemma CutPathParts(p: Path, k: Name)
    ensures CutPath(p + [k]) == CutPath(p) + [Cut(k)] && CutPath([]) == []
  {}

  lemma CutParent(p: Path)
    requires p != []
    ensures CutPath(p) != [] && CutPath(Parent(p)) == Parent(CutPath(p)) && NameAt(CutPath(p)) == Cut(NameAt(p))
  {}

  // ----- Trees ---------------------------------------------------------------------------------------------

  /** How often a call with this sample was recorded. */
  function Occurs(calls: seq<Sample>, x: Sample): nat {
    multiset(calls)[x]
  }

  /** The occurrences of a sample in the nodes whose paths are cut to `q`. */
  function Sources(t: Tree, q: Path, x: Sample): map<Path, nat> {
    map p | p in t.logs && CutPath(p) == q :: Occurs(t.logs[p].calls, x)
  }

  /** `u` is `t` with its paths cut: the same stack and counters, and merged nodes with their calls put together. */
  ghost predicate IsCut(t: Tree, u: Tree) {
    && u.top == CutPath(t.top) && u.opens == t.opens && u.reported == t.reported
    && (forall p :: p in t.logs ==> CutPath(p) in u.logs)
    && (forall q :: q in u.logs ==> exists p :: p in t.logs && CutPath(p) == q)
    && Merged(t, u)
  }

  ghost predicate Merged(t: Tree, u: Tree) {
    forall q, x :: q in u.logs ==> Occurs(u.logs[q].calls, x) == MapSums.Sum(Sources(t, q, x))
  }

  lemma NewIsCut()
    ensures IsCut(New(), New())
  {
    assert CutPath([]) == [];
    forall q, x | q in New().logs ensures Occurs(New().logs[q].calls, x) == MapSums.Sum(Sources(New(), q, x)) {
      assert Sources(New(), q, x) == map[[] := 0];
      MapSums.Take(Sources(New(), q, x), []);
      assert Sources(New(), q, x) - {[]} == map[];
    }
  }

  lemma OpenIsCut(t: Tree, u: Tree, name: Name)
    requires IsCut(t, u)
    ensures IsCut(Open(t, name), Open(u, Cut(name)))
  {
    var t', u' := Open(t, name), Open(u, Cut(name));
    var p, q := t.top + [name], u.top + [Cut(name)];
    CutPathParts(t.top, name);
    assert CutPath(p) == q;
    forall r, x | r in u'.logs ensures Occurs(u'.logs[r].calls, x) == MapSums.Sum(Sources(t', r, x)) {
      OpenSources(t, name, r, x);
      if r !in u.logs {
        assert Sources(t, r, x) == map[];
      }
    }
    hide Merged;
    forall r | r in u'.logs ensures exists s :: s in t'.logs && CutPath(s) == r {
      if r in u.logs {
        var s :| s in t.logs && CutPath(s) == r;
        assert s in t'.logs;
      } else {
        assert p in t'.logs;
      }
    }
  }

  lemma OpenSources(t: Tree, name: Name, q: Path, x: Sample)
    ensures MapSums.Sum(Sources(Open(t, name), q, x)) == MapSums.Sum(Sources(t, q, x))
  {
    var p := t.top + [name];
    if p in t.logs || CutPath(p) != q {
      assert Sources(Open(t, name), q, x) == Sources(t, q, x);
    } else {
      assert Sources(Open(t, name), q, x) == Sources(t, q, x)[p := 0];
      MapSums.Update(Sources(t, q, x), p, 0);
    }
  }

  lemma EndIsCut(t: Tree, u: Tree, p: Path, s: Sample)
    requires IsCut(t, u) && p in t.logs && p <= t.top && p != []
    ensures IsCut(EndRecord(t, p, s), EndRecord(u, CutPath(p), s))
  {
    var t', u' := EndRecord(t, p, s), EndRecord(u, CutPath(p), s);
    assert u'.top == CutPath(t'.top) by {
      CutParent(p);
      assert |CutPath(p)| == |p| && |CutPath(t.top)| == |t.top|;
    }
    forall r, x | r in u'.logs ensures Occurs(u'.logs[r].calls, x) == MapSums.Sum(Sources(t', r, x)) {
      EndSources(t, p, s, r, x);
    }
    hide Merged;
  }

  lemma EndSources(t: Tree, p: Path, s: Sample, q: Path, x: Sample)
    requires p in t.logs
    ensures MapSums.Sum(Sources(EndRecord(t, p, s), q, x))
            == MapSums.Sum(Sources(t, q, x)) + if CutPath(p) == q && s == x then 1 else 0
  {
    var after := Sources(EndRecord(t, p, s), q, x);
    if CutPath(p) == q {
      assert after == Sources(t, q, x)[p := Occurs(t.logs[p].calls + [s], x)];
      MapSums.Update(Sources(t, q, x), p, Occurs(t.logs[p].calls + [s], x));
    } else {
      assert after == Sources(t, q, x);
    }
  }

  lemma ReportIsCut(t: Tree, u: Tree)
    requires IsCut(t, u)
    ensures IsCut(CallTree.Report(t), CallTree.Report(u))
  {
    var t', u' := CallTree.Report(t), CallTree.Report(u);
    forall r, x | r in u'.logs ensures Occurs(u'.logs[r].calls, x) == MapSums.Sum(Sources(t', r, x)) {
      assert Sources(t', r, x) == Sources(t, r, x);
    }
    hide Merged;
  }

  // ----- Runs ----------------------------------------------------------------------------------------------

  ghost predicate CutRecord(r: Record, u: Record) {
    u == r.(name := Cut(r.name), path := CutPath(r.path))
  }

  ghost predicate SimilarRecords(s: map<Rid, Record>, u: map<Rid, Record>) {
    s.Keys == u.Keys && forall r :: r in s ==> CutRecord(s[r], u[r])
  }

  ghost predicate SimilarTrees(s: map<Tid, Tree>, u: map<Tid, Tree>) {
    s.Keys == u.Keys && forall tid :: tid in s ==> IsCut(s[tid], u[tid])
  }

  /** The two programs differ only by the cut of their names. */
  ghost predicate Similar(s: Program, u: Program) {
    && s.process.Some? == u.process.Some? && s.lives == u.lives && s.next == u.next
    && SimilarRecords(s.records, u.records)
    && SimilarTrees(s.Trees(), u.Trees())
  }

  lemma SameLive(s: map<Rid, Record>, u: map<Rid, Record>, tid: Tid)
    requires SimilarRecords(s, u)
    ensures |LiveOf(s, tid)| == |LiveOf(u, tid)|
  {
    assert LiveOf(s, tid).Keys == LiveOf(u, tid).Keys;
    assert |LiveOf(s, tid)| == |LiveOf(s, tid).Keys|;
    assert |LiveOf(u, tid)| == |LiveOf(u, tid).Keys|;
  }

  lemma OneTreeCut(s: map<Tid, Tree>, u: map<Tid, Tree>, tid: Tid, t: Tree, v: Tree)
    requires SimilarTrees(s, u) && IsCut(t, v)
    ensures SimilarTrees(s[tid := t], u[tid := v])
  {
    hide IsCut;
  }

  lemma StartIsSimilar(s: Program, u: Program, e: Event)
    requires e.Start? && Similar(s, u) && Inv(s) && Inv(u) && e.rid !in s.records
    ensures Similar(StepStart(s, e.rid, e.tid, e.name, e.start, e.mark),
                    StepStart(u, e.rid, e.tid, Cut(e.name), e.start, e.mark))
  {
    hide Inv, Open, New, IsCut, Cut, Enter;
    var t, v := TreeIn(s, e.tid), TreeIn(u, e.tid);
    StartEffect(s, e.rid, e.tid, e.name, e.start, e.mark);
    StartEffect(u, e.rid, e.tid, Cut(e.name), e.start, e.mark);
    assert IsCut(t, v) by { NewIsCut(); }
    OpenIsCut(t, v, e.name);
    assert SimilarTrees(s.Trees()[e.tid := Open(t, e.name)], u.Trees()[e.tid := Open(v, Cut(e.name))]) by {
      OneTreeCut(s.Trees(), u.Trees(), e.tid, Open(t, e.name), Open(v, Cut(e.name)));
    }
    hide SimilarTrees;
    assert v.top + [Cut(e.name)] == CutPath(t.top + [e.name]) by { CutTop(t, v); CutPathParts(t.top, e.name); }
  }

  lemma CutTop(t: Tree, v: Tree)
    requires IsCut(t, v)
    ensures v.top == CutPath(t.top)
  {}

  lemma EndIsSimilar(s: Program, u: Program, e: Event)
    requires e.End? && Similar(s, u) && Inv(s) && Inv(u) && e.rid in s.records
    ensures Similar(StepEnd(s, e.rid, e.end), StepEnd(u, e.rid, e.end))
  {
    hide Inv, IsCut, EndRecord, CutPath;
    EndEffect(s, e.rid, e.end);
    EndEffect(u, e.rid, e.end);
    var r, q := s.records[e.rid], u.records[e.rid];
    var t, v := s.Trees()[r.tid], u.Trees()[q.tid];
    assert CutRecord(r, q) && IsCut(t, v);
    EndIsCut(t, v, r.path, SampleOf(r, e.end));
    assert EndIn(t.top, s.lives[r.tid], r) == EndIn(v.top, u.lives[q.tid], q) by {
      CutTop(t, v);
      CutIsLevel(r.path, t.top);
    }
    hide EndIn, NodeExists;
    OneTreeCut(s.Trees(), u.Trees(), r.tid, EndRecord(t, r.path, SampleOf(r, e.end)),
               EndRecord(v, q.path, SampleOf(q, e.end)));
    hide SimilarTrees;
  }

  lemma CutIsLevel(p: Path, top: Path)
    requires p <= top
    ensures |CutPath(p)| == |p| && (CutPath(p) == CutPath(top) <==> p == top)
  {}

  lemma ReportIsSimilar(s: Program, u: Program, mark: Reading)
    requires Similar(s, u) && Inv(s) && Inv(u)
    ensures Similar(StepReport(s, mark), StepReport(u, mark))
  {
    hide Inv, IsCut, IsInactive, CallTree.Report, CutRecord, ReportClosed;
    ReportEffect(s, mark);
    ReportEffect(u, mark);
    forall tid | tid in s.Trees()
      ensures IsCut(CallTree.Report(s.Trees()[tid]), CallTree.Report(u.Trees()[tid]))
      ensures IsInactive(s.Trees()[tid]) <==> IsInactive(u.Trees()[tid])
    {
      ReportIsCut(s.Trees()[tid], u.Trees()[tid]);
      CutIsInactive(s.Trees()[tid], u.Trees()[tid]);
    }
    forall tid ensures |LiveOf(s.records, tid)| == |LiveOf(u.records, tid)| {
      SameLive(s.records, u.records, tid);
    }
    hide LiveOf, SimilarRecords;
    var s', u' := StepReport(s, mark), StepReport(u, mark);
    assert s'.Trees().Keys == u'.Trees().Keys;
    if s.process.Some? {
      assert s'.lives.Keys == u'.lives.Keys;
    }
  }

  lemma CutIsInactive(t: Tree, v: Tree)
    requires IsCut(t, v)
    ensures IsInactive(t) <==> IsInactive(v)
  {}

  lemma ReportOneIsSimilar(s: Program, u: Program, tid: Tid)
    requires Similar(s, u)
    ensures Similar(StepReportOne(s, tid), StepReportOne(u, tid))
  {
    hide IsCut, CallTree.Report;
    SameLive(s.records, u.records, tid);
    hide SimilarRecords, LiveOf;
    if tid in s.Trees() {
      ReportIsCut(s.Trees()[tid], u.Trees()[tid]);
    }
  }

  lemma {:induction false} CutRunIsSimilar(events: seq<Event>)
    ensures Similar(Run(events), Run(CutRun(events)))
  {
    if events == [] {
    } else {
      var before := events[..|events| - 1];
      var e := events[|events| - 1];
      CutRunIsSimilar(before);
      RunsKeepInv(before);
      RunsKeepInv(CutRun(before));
      assert CutRun(events)[..|CutRun(events)| - 1] == CutRun(before);
      hide Inv, Similar, Step, CutEvent;
      StepIsSimilar(Run(before), Run(CutRun(before)), e);
    }
  }

  lemma StepIsSimilar(s: Program, u: Program, e: Event)
    requires Similar(s, u) && Inv(s) && Inv(u)
    ensures Similar(Step(s, e), Step(u, CutEvent(e)))
  {
    assert s.records.Keys == u.records.Keys;
    hide Inv, Similar, StepStart, StepEnd, StepReport, StepReportOne;
    match e {
      case Start(rid, _, _, _, _) => if rid !in s.records { StartIsSimilar(s, u, e); }
      case End(rid, _, _) => if rid in s.records { EndIsSimilar(s, u, e); }
      case Report(_, mark) => ReportIsSimilar(s, u, mark);
      case ReportOne(tid) => ReportOneIsSimilar(s, u, tid);
    }
  }

  /**
   What the trees of a program become when every name is cut, for any run: a thread has a tree in one when it has one in
   the other, with the same stack up to the cut, and every node records exactly the calls of the nodes merged into it.
   */
  lemma CutTreesMerge(events: seq<Event>, tid: Tid)
    ensures var s, u := Run(events), Run(CutRun(events));
      && (tid in s.Trees() <==> tid in u.Trees())
      && (tid in s.Trees() ==>
            var t, v := s.Trees()[tid], u.Trees()[tid];
            && v.top == CutPath(t.top) && v.opens == t.opens && v.reported == t.reported
            && (forall q :: q in v.logs <==> exists p :: p in t.logs && CutPath(p) == q)
            && (forall q, x :: q in v.logs ==>
                  Occurs(v.logs[q].calls, x)
                  == MapSums.Sum(map p | p in t.logs && CutPath(p) == q :: Occurs(t.logs[p].calls, x))))
  {
    CutRunIsSimilar(events);
    var s, u := Run(events), Run(CutRun(events));
    if tid in s.Trees() {
      var t, v := s.Trees()[tid], u.Trees()[tid];
      assert IsCut(t, v);
      forall q, x | q in v.logs
        ensures Occurs(v.logs[q].calls, x)
                == MapSums.Sum(map p | p in t.logs && CutPath(p) == q :: Occurs(t.logs[p].calls, x))
      {
        assert Sources(t, q, x) == map p | p in t.logs && CutPath(p) == q :: Occurs(t.logs[p].calls, x);
      }
    }
  }
}

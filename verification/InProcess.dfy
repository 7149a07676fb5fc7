/**
 The in-process form as a transition system: records start and end on any thread and in any order, while the timer
 reports the process and deletes inactive trees. Each operation runs under the one lock, so it is one atomic step.
 */
module InProcess {
  import opened Words
  import opened NodeStats
  import opened CallTree
  import opened Processes
  import opened Records

  /**
   The process object, once a record has created it, with the records alive. `lives` and `next` are history: they give
   every tree an identity. `stranded` is set when a record ends whose tree or node is gone.
   */
  datatype Program = Program(process: Option<Process>, records: map<Rid, Record>, lives: map<Tid, Life>, next: nat,
                           stranded: bool)
  {
    function Trees(): map<Tid, Tree> {
      if process.Some? then process.value.trees else map[]
    }
  }

  /**
   `Start` and `End` are the constructor and destructor of a record, with the times they read; `caller` is the thread
   that runs the destructor. `Report` is a report of the process, with the readings of its elapsed and marker
   operations.
   */
  datatype Event =
    | Start(rid: Rid, tid: Tid, name: Name, start: u64, mark: Reading)
    | End(rid: Rid, caller: Tid, end: u64)
    | Report(now: Reading, mark: Reading)
    | ReportOne(tid: Tid)

  function Initial(): Program {
    Program(None, map[], map[], 0, false)
  }

  function LiveOf(records: map<Rid, Record>, tid: Tid): map<Rid, Record> {
    map r | r in records && records[r].tid == tid :: records[r]
  }

  /** The node a record points to still exists, in the tree that the record started in. */
  predicate NodeExists(s: Program, r: Record) {
    && r.tid in s.Trees() && r.tid in s.lives
    && s.lives[r.tid].serial == r.serial
    && r.path in s.Trees()[r.tid].logs
  }

  /** The elapsed time that the record of an `End` event records. */
  function SampleOf(r: Record, now: u64): Sample {
    Sample(Sub(now, r.start), 0, 0)
  }

  function LifeIn(s: Program, tid: Tid): Life {
    if tid in s.Trees() && tid in s.lives then s.lives[tid] else NewLife(s.next)
  }

  function TreeIn(s: Program, tid: Tid): Tree {
    if tid in s.Trees() then s.Trees()[tid] else New()
  }

  function StepStart(s: Program, rid: Rid, tid: Tid, name: Name, start: u64, mark: Reading): Program {
    var p := if s.process.Some? then s.process.value else NewProcess();
    var l := LifeIn(s, tid);
    Program(Some(Enter(p, tid, name, mark)),
           s.records[rid := StartIn(TreeIn(s, tid), l, tid, name, start)],
           s.lives[tid := l.(starts := l.starts + [start])],
           if tid in s.Trees() then s.next else s.next + 1,
           s.stranded)
  }

  function StepEnd(s: Program, rid: Rid, now: u64): Program
    requires rid in s.records
  {
    var r := s.records[rid];
    if NodeExists(s, r) then
      var t := s.Trees()[r.tid];
      s.(process := Some(Change(s.process.value, r.tid, EndRecord(t, r.path, SampleOf(r, now)))),
         records := s.records - {rid},
         lives := s.lives[r.tid := EndIn(t.top, s.lives[r.tid], r)])
    else s.(records := s.records - {rid}, stranded := true)
  }

  function StepReport(s: Program, mark: Reading): Program {
    if s.process.None? then s else
      var p := ReportClosed(s.process.value, mark);
      s.(process := Some(p),
         lives := map t | t in s.lives && t in p.trees :: s.lives[t].(held := |LiveOf(s.records, t)|))
  }

  function StepReportOne(s: Program, tid: Tid): Program {
    if tid in s.Trees() && tid in s.lives then
      s.(process := Some(Change(s.process.value, tid, CallTree.Report(s.Trees()[tid]))),
         lives := s.lives[tid := s.lives[tid].(held := |LiveOf(s.records, tid)|)])
    else s
  }

  /** An event that cannot occur, starting a live record or ending one that is not live, is no step. */
  function Step(s: Program, e: Event): Program {
    match e
    case Start(rid, tid, name, start, mark) => if rid in s.records then s else StepStart(s, rid, tid, name, start, mark)
    case End(rid, _, now) => if rid in s.records then StepEnd(s, rid, now) else s
    case Report(_, mark) => StepReport(s, mark)
    case ReportOne(tid) => StepReportOne(s, tid)
  }

  function Run(events: seq<Event>): Program {
    if events == [] then Initial() else Step(Run(events[..|events| - 1]), events[|events| - 1])
  }

  // ----- The invariant -----------------------------------------------------------------------------------

  ghost predicate SoundAt(s: Program, tid: Tid) {
    Sound(TreeIn(s, tid), LifeIn(s, tid), LiveOf(s.records, tid))
  }

  ghost predicate Inv(s: Program) {
    && s.lives.Keys == s.Trees().Keys
    && (forall r :: r in s.records ==> s.records[r].tid in s.Trees())
    && (forall tid :: tid in s.Trees() ==> SoundAt(s, tid) && s.Trees()[tid].opens > 0)
    && (forall tid :: tid in s.lives ==> s.lives[tid].serial < s.next)
    && !s.stranded
  }

  /** A thread without a tree has no live record, so the invariant says something about every thread. */
  lemma SoundEverywhere(s: Program, tid: Tid)
    requires Inv(s)
    ensures SoundAt(s, tid)
  {
    hide Sound;
    if tid !in s.Trees() {
      NewIsSound(s.next);
      assert LiveOf(s.records, tid) == map[];
    }
  }

  /** No live record of a sound tree can miss its node. */
  lemma NodesExist(s: Program, rid: Rid)
    requires Inv(s) && rid in s.records
    ensures NodeExists(s, s.records[rid])
  {
    var r := s.records[rid];
    assert SoundAt(s, r.tid);
    assert rid in LiveOf(s.records, r.tid);
    PrefixesAreIn(s.Trees()[r.tid].logs.Keys, s.Trees()[r.tid].top, r.path);
  }

  /** A step that changes only one thread keeps the others sound. */
  lemma OneThreadChanged(s: Program, u: Program, tid: Tid)
    requires Inv(s)
    requires u.lives.Keys == u.Trees().Keys == s.Trees().Keys + {tid} && s.next <= u.next && !u.stranded
    requires forall t :: t in s.Trees() && t != tid ==> u.Trees()[t] == s.Trees()[t] && u.lives[t] == s.lives[t]
    requires forall r :: r in u.records ==> (r in s.records && u.records[r] == s.records[r]) || u.records[r].tid == tid
    requires forall r :: r in s.records && s.records[r].tid != tid ==> r in u.records && u.records[r] == s.records[r]
    requires SoundAt(u, tid) && u.Trees()[tid].opens > 0 && u.lives[tid].serial < u.next
    ensures Inv(u)
  {
    hide Sound;
    forall t | t in u.Trees() && t != tid ensures SoundAt(u, t) {
      assert SoundAt(s, t);
      assert LiveOf(u.records, t) == LiveOf(s.records, t);
    }
  }

  lemma StartedIsSound(s: Program, rid: Rid, tid: Tid, name: Name, start: u64, mark: Reading)
    requires Inv(s) && rid !in s.records
    ensures SoundAt(StepStart(s, rid, tid, name, start, mark), tid)
  {
    hide Sound, Open, Enter;
    var u := StepStart(s, rid, tid, name, start, mark);
    var t, l, live := TreeIn(s, tid), LifeIn(s, tid), LiveOf(s.records, tid);
    EnterTree(s, tid, name, mark);
    SoundEverywhere(s, tid);
    hide Inv;
    StartKeepsSound(t, l, live, rid, tid, name, start);
    assert LiveOf(u.records, tid) == live[rid := StartIn(t, l, tid, name, start)];
  }

  lemma StartKeepsInv(s: Program, rid: Rid, tid: Tid, name: Name, start: u64, mark: Reading)
    requires Inv(s) && rid !in s.records
    ensures Inv(StepStart(s, rid, tid, name, start, mark))
  {
    hide SoundAt, Open, Enter;
    var u := StepStart(s, rid, tid, name, start, mark);
    EnterTree(s, tid, name, mark);
    StartedIsSound(s, rid, tid, name, start, mark);
    OpenParts(TreeIn(s, tid), name);
    assert u.lives.Keys == s.lives.Keys + {tid};
    OneThreadChanged(s, u, tid);
  }

  lemma EnterTree(s: Program, tid: Tid, name: Name, mark: Reading)
    ensures var p := if s.process.Some? then s.process.value else NewProcess();
      Enter(p, tid, name, mark).trees == s.Trees()[tid := Open(TreeIn(s, tid), name)]
  {
    hide Open, New;
  }

  lemma EndKeepsInv(s: Program, rid: Rid, now: u64)
    requires Inv(s) && rid in s.records
    ensures Inv(StepEnd(s, rid, now))
  {
    hide Sound, EndRecord, EndIn;
    var r := s.records[rid];
    var u := StepEnd(s, rid, now);
    assert NodeExists(s, r) by { NodesExist(s, rid); }
    var t, l, live := s.Trees()[r.tid], s.lives[r.tid], LiveOf(s.records, r.tid);
    assert u.Trees() == s.Trees()[r.tid := EndRecord(t, r.path, SampleOf(r, now))];
    assert SoundAt(u, r.tid) by {
      assert SoundAt(s, r.tid) && rid in live;
      EndKeepsSound(t, l, live, rid, SampleOf(r, now));
      assert LiveOf(u.records, r.tid) == live - {rid};
    }
    EndParts(t, r.path, SampleOf(r, now));
    EndInSerial(t.top, l, r);
    OneThreadChanged(s, u, r.tid);
  }

  lemma EndInSerial(top: Path, l: Life, r: Record)
    ensures EndIn(top, l, r).serial == l.serial
  {}

  lemma ReportKeepsInv(s: Program, mark: Reading)
    requires Inv(s)
    ensures Inv(StepReport(s, mark))
  {
    hide Sound;
    if s.process.Some? {
      var u := StepReport(s, mark);
      ReportTrees(s.process.value, mark);
      forall tid | tid in u.Trees() ensures SoundAt(u, tid) && u.Trees()[tid].opens > 0 {
        assert SoundAt(s, tid);
        ReportKeepsSound(s.Trees()[tid], s.lives[tid], LiveOf(s.records, tid));
      }
      forall r | r in s.records ensures s.records[r].tid in u.Trees() {
        RemovalNeedsNoRecord(s, s.records[r].tid, r);
      }
    }
  }

  lemma ReportTrees(p: Process, mark: Reading)
    ensures var q := ReportClosed(p, mark);
      && (forall t :: t in q.trees <==> t in p.trees && !IsInactive(p.trees[t]))
      && (forall t :: t in q.trees ==> q.trees[t] == CallTree.Report(p.trees[t]))
  {
    hide CallTree.Report, IsInactive;
  }

  /** The tree of a live record is never inactive: its stack holds more than the root. */
  lemma RemovalNeedsNoRecord(s: Program, tid: Tid, rid: Rid)
    requires Inv(s) && rid in s.records && s.records[rid].tid == tid
    ensures tid in s.Trees() && !IsInactive(s.Trees()[tid])
  {
    assert SoundAt(s, tid) && rid in LiveOf(s.records, tid);
    OnlyRootOnStack(s.Trees()[tid], s.lives[tid], LiveOf(s.records, tid));
  }

  lemma ReportOneKeepsInv(s: Program, tid: Tid)
    requires Inv(s)
    ensures Inv(StepReportOne(s, tid))
  {
    hide Sound;
    if tid in s.Trees() {
      assert SoundAt(s, tid);
      ReportKeepsSound(s.Trees()[tid], s.lives[tid], LiveOf(s.records, tid));
      OneThreadChanged(s, StepReportOne(s, tid), tid);
    }
  }

  lemma StepKeepsInv(s: Program, e: Event)
    requires Inv(s)
    ensures Inv(Step(s, e))
  {
    hide Inv, StepStart, StepEnd, StepReport, StepReportOne;
    match e {
      case Start(rid, tid, name, start, mark) =>
        if rid !in s.records { StartKeepsInv(s, rid, tid, name, start, mark); }
      case End(rid, _, now) =>
        if rid in s.records { EndKeepsInv(s, rid, now); }
      case Report(_, mark) => ReportKeepsInv(s, mark);
      case ReportOne(tid) => ReportOneKeepsInv(s, tid);
    }
  }

  lemma {:induction false} RunsKeepInv(events: seq<Event>)
    ensures Inv(Run(events))
    decreases |events|
  {
    if events == [] {
    } else {
      hide Inv, Step;
      RunsKeepInv(events[..|events| - 1]);
      StepKeepsInv(Run(events[..|events| - 1]), events[|events| - 1]);
    }
  }

  // ----- What each step changes --------------------------------------------------------------------------

  lemma StartEffect(s: Program, rid: Rid, tid: Tid, name: Name, start: u64, mark: Reading)
    requires Inv(s) && rid !in s.records
    ensures var u, t := StepStart(s, rid, tid, name, start, mark), TreeIn(s, tid);
      && u.Trees() == s.Trees()[tid := Open(t, name)] && u.lives.Keys == s.lives.Keys + {tid}
      && Open(t, name).top == t.top + [name]
      && Open(t, name).opens == t.opens + 1 && Open(t, name).reported == t.reported
      && u.lives[tid].serial == LifeIn(s, tid).serial && u.lives[tid].stuck == LifeIn(s, tid).stuck
      && forall k :: k in s.lives && k != tid ==> u.lives[k] == s.lives[k]
  {
    hide Sound;
  }

  lemma EndEffect(s: Program, rid: Rid, end: u64)
    requires Inv(s) && rid in s.records
    ensures NodeExists(s, s.records[rid])
    ensures var u, r := StepEnd(s, rid, end), s.records[rid];
      var t := s.Trees()[r.tid];
      var e := EndRecord(t, r.path, SampleOf(r, end));
      && u.Trees() == s.Trees()[r.tid := e] && u.lives == s.lives[r.tid := EndIn(t.top, s.lives[r.tid], r)]
      && u.records == s.records - {rid}
      && r.path != [] && r.path <= t.top && |r.path| !in s.lives[r.tid].stuck
      && e.top == (if r.path == t.top then Parent(t.top) else t.top)
      && e.opens == t.opens && e.reported == t.reported
  {
    hide EndRecord, EndIn, Sound;
    var r := s.records[rid];
    assert NodeExists(s, r) by { NodesExist(s, rid); }
    assert r.path != [] && r.path <= s.Trees()[r.tid].top && |r.path| !in s.lives[r.tid].stuck by {
      RecordFacts(s, rid);
    }
    EndParts(s.Trees()[r.tid], r.path, SampleOf(r, end));
  }

  lemma RecordFacts(s: Program, rid: Rid)
    requires Inv(s) && rid in s.records && s.records[rid].tid in s.Trees()
    ensures var r := s.records[rid];
      && r.path != [] && r.path <= s.Trees()[r.tid].top && r.tid in s.lives && |r.path| !in s.lives[r.tid].stuck
      && NameAt(r.path) == r.name
  {
    assert SoundAt(s, s.records[rid].tid) && rid in LiveOf(s.records, s.records[rid].tid);
    hide WellFormed, Timed, Conserved;
  }

  lemma ReportEffect(s: Program, mark: Reading)
    requires Inv(s)
    ensures var u := StepReport(s, mark);
      && u.records == s.records
      && (forall t :: t in u.Trees() <==> t in s.Trees() && !IsInactive(s.Trees()[t]))
      && (forall t :: t in u.Trees() ==>
            && t in s.Trees() && u.Trees()[t] == CallTree.Report(s.Trees()[t])
            && t in u.lives && t in s.lives && u.lives[t] == s.lives[t].(held := |LiveOf(s.records, t)|))
  {
    hide Sound, CallTree.Report, IsInactive;
    if s.process.Some? {
      ReportTrees(s.process.value, mark);
    }
  }

  lemma ReportParts(t: Tree)
    ensures var u := CallTree.Report(t);
      u.top == t.top && u.opens == u.reported == t.opens && u.logs.Keys == t.logs.Keys
  {}
}

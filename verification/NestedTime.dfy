/**
 Time is not counted twice: in a nested run with a clock that never runs back, the children of a node never account for
 more time than the node itself, calls still open included.
 */
module NestedTime {
  import opened Words
  import opened NodeStats
  import opened CallTree
  import opened Processes
  import opened Records
  import opened InProcess
  import opened Lifetimes
  import opened Nesting
  import MapSums

  // ----- One tree ------------------------------------------------------------------------------------------

  /** Every entry above the root has a start time, and none lies ahead. */
  predicate Running(t: Tree, starts: seq<u64>, now: nat) {
    |starts| == |t.top| && forall i :: 0 <= i < |starts| ==> starts[i] <= now
  }

  /** The time so far of the open call of a node, if it has one. */
  function SoFar(t: Tree, starts: seq<u64>, p: Path, now: nat): nat
    requires Running(t, starts, now)
  {
    if p != [] && p <= t.top then now - starts[|p| - 1] else 0
  }

  /** The time recorded at a node, with the time so far of its open call. The root has all the time there has been. */
  function Charge(t: Tree, starts: seq<u64>, p: Path, now: nat): nat
    requires p in t.logs && Running(t, starts, now)
  {
    if p == [] then now else Total(t.logs[p].calls, Delta) + SoFar(t, starts, p, now)
  }

  predicate IsKid(p: Path, q: Path) {
    |q| == |p| + 1 && p <= q
  }

  function KidCharges(t: Tree, starts: seq<u64>, p: Path, now: nat): (r: map<Path, nat>)
    requires Running(t, starts, now)
  {
    map q | q in t.logs && IsKid(p, q) :: Charge(t, starts, q, now)
  }

  ghost predicate Covers(t: Tree, starts: seq<u64>, p: Path, now: nat)
    requires p in t.logs && Running(t, starts, now)
  {
    MapSums.Sum(KidCharges(t, starts, p, now)) <= Charge(t, starts, p, now)
  }

  /** Every node covers its children. */
  ghost predicate Covered(t: Tree, starts: seq<u64>, now: nat) {
    Running(t, starts, now) && forall p :: p in t.logs ==> Covers(t, starts, p, now)
  }

  lemma NewIsCovered(now: nat)
    ensures Covered(New(), [], now)
  {}

  /** Two trees that charge the nodes of a family alike agree on what they cover. */
  lemma SameCharges(t: Tree, s: seq<u64>, n: nat, u: Tree, s': seq<u64>, n': nat, p: Path)
    requires Running(t, s, n) && Running(u, s', n')
    requires p in t.logs && p in u.logs && Charge(u, s', p, n') == Charge(t, s, p, n)
    requires forall q :: IsKid(p, q) ==> (q in u.logs <==> q in t.logs)
    requires forall q :: IsKid(p, q) && q in t.logs ==> Charge(u, s', q, n') == Charge(t, s, q, n)
    requires Covers(t, s, p, n)
    ensures Covers(u, s', p, n')
  {
    hide Charge, IsKid, Running;
    assert KidCharges(u, s', p, n') == KidCharges(t, s, p, n);
  }

  lemma LaterCharge(t: Tree, starts: seq<u64>, p: Path, now: nat, later: nat)
    requires p in t.logs && Running(t, starts, now) && now <= later
    ensures Running(t, starts, later)
    ensures Charge(t, starts, p, later) == Charge(t, starts, p, now) + if p <= t.top then later - now else 0
  {
    hide Total;
  }

  /** As time passes, only the open nodes are charged, and of the children of a node at most one is open. */
  lemma TimePasses(t: Tree, starts: seq<u64>, now: nat, later: nat)
    requires WellFormed(t) && Covered(t, starts, now) && now <= later
    ensures Covered(t, starts, later)
  {
    hide WellFormed, Charge, Covers;
    assert Running(t, starts, later);
    hide Running;
    forall p | p in t.logs ensures Covers(t, starts, p, later) {
      assert Covers(t, starts, p, now);
      if p < t.top {
        OpenNodeCovers(t, starts, p, now, later);
      } else {
        forall q | q in t.logs ensures Charge(t, starts, q, later) == Charge(t, starts, q, now)
                                       + if q <= t.top then later - now else 0 {
          LaterCharge(t, starts, q, now, later);
        }
        LeafCovers(t, starts, p, now, later);
      }
    }
  }

  lemma OneOpenKid(top: Path, p: Path)
    requires p < top
    ensures forall q :: IsKid(p, q) && q <= top <==> q == top[..|p| + 1]
  {}

  lemma StackIsIn(t: Tree, p: Path)
    requires WellFormed(t) && p <= t.top
    ensures p in t.logs
  {
    PrefixesAreIn(t.logs.Keys, t.top, p);
  }

  lemma OpenNodeCovers(t: Tree, starts: seq<u64>, p: Path, now: nat, later: nat)
    requires WellFormed(t) && Running(t, starts, now) && Running(t, starts, later) && now <= later
    requires p in t.logs && p < t.top && Covers(t, starts, p, now)
    ensures Covers(t, starts, p, later)
  {
    hide WellFormed, Charge, Running;
    var k := t.top[..|p| + 1];
    StackIsIn(t, k);
    var before, after := KidCharges(t, starts, p, now), KidCharges(t, starts, p, later);
    forall q | q in t.logs ensures Charge(t, starts, q, later) == Charge(t, starts, q, now)
                                   + if q <= t.top then later - now else 0 {
      LaterCharge(t, starts, q, now, later);
    }
    OneOpenKid(t.top, p);
    hide IsKid;
    assert after == before[k := before[k] + (later - now)];
    MapSums.Update(before, k, before[k] + (later - now));
  }

  lemma LeafCovers(t: Tree, starts: seq<u64>, p: Path, now: nat, later: nat)
    requires Running(t, starts, now) && Running(t, starts, later) && now <= later
    requires p in t.logs && !(p < t.top) && Covers(t, starts, p, now)
    ensures Covers(t, starts, p, later)
  {
    var before, after := KidCharges(t, starts, p, now), KidCharges(t, starts, p, later);
    hide Charge, Running;
    forall q | q in t.logs && (q == p || IsKid(p, q))
      ensures Charge(t, starts, q, later) == Charge(t, starts, q, now)
                                             + if q <= t.top then later - now else 0 {
      LaterCharge(t, starts, q, now, later);
    }
    assert forall q :: IsKid(p, q) ==> !(q <= t.top);
    assert after == before;
  }

  /** Opening at the present moment leaves every charge as it is. */
  lemma OpenCovers(t: Tree, starts: seq<u64>, name: Name, now: u64)
    requires WellFormed(t) && Covered(t, starts, now)
    ensures Covered(Open(t, name), starts + [now], now)
  {
    var u, q := Open(t, name), t.top + [name];
    OpenCharges(t, starts, name, now);
    forall p | p in u.logs ensures Covers(u, starts + [now], p, now) {
      hide Open, Charge, Running, Total, Covers;
      if p !in t.logs {
        LeafHasNoKids(t, p);
        NoKidsCovers(u, starts + [now], p, now);
      } else if q in t.logs || !IsKid(p, q) {
        assert Covers(t, starts, p, now);
        hide WellFormed, Covered;
        SameCharges(t, starts, now, u, starts + [now], now, p);
      } else {
        assert Covers(t, starts, p, now);
        hide WellFormed, Covered;
        NewKidCovers(t, starts, u, starts + [now], p, q, now);
      }
    }
  }

  lemma LeafHasNoKids(t: Tree, p: Path)
    requires WellFormed(t) && p !in t.logs
    ensures forall q :: q in t.logs ==> !IsKid(p, q)
  {
    assert forall q :: IsKid(p, q) ==> Parent(q) == p;
  }

  lemma NoKidsCovers(t: Tree, starts: seq<u64>, p: Path, now: nat)
    requires Running(t, starts, now) && p in t.logs && forall q :: q in t.logs ==> !IsKid(p, q)
    ensures Covers(t, starts, p, now)
  {
    hide Charge, IsKid, Running;
    assert KidCharges(t, starts, p, now) == map[];
  }

  lemma NewKidCovers(t: Tree, s: seq<u64>, u: Tree, s': seq<u64>, p: Path, k: Path, now: nat)
    requires Running(t, s, now) && Running(u, s', now) && p in t.logs && Covers(t, s, p, now)
    requires k !in t.logs && u.logs.Keys == t.logs.Keys + {k} && Charge(u, s', k, now) == 0
    requires forall q :: q in t.logs ==> Charge(u, s', q, now) == Charge(t, s, q, now)
    ensures Covers(u, s', p, now)
  {
    hide Charge, Running;
    var before, after := KidCharges(t, s, p, now), KidCharges(u, s', p, now);
    if IsKid(p, k) {
      assert after == before[k := 0];
      MapSums.Update(before, k, 0);
    } else {
      assert after == before;
    }
  }

  lemma OpenCharges(t: Tree, starts: seq<u64>, name: Name, now: u64)
    requires WellFormed(t) && Running(t, starts, now)
    ensures var u, s := Open(t, name), starts + [now];
      && Running(u, s, now) && u.logs.Keys == t.logs.Keys + {t.top + [name]}
      && (forall p :: p in t.logs ==> Charge(u, s, p, now) == Charge(t, starts, p, now))
      && (t.top + [name] !in t.logs ==> Charge(u, s, t.top + [name], now) == 0)
  {
    forall p | p in t.logs ensures Charge(Open(t, name), starts + [now], p, now) == Charge(t, starts, p, now) {
      assert p <= t.top + [name] <==> p <= t.top || p == t.top + [name];
    }
  }

  /** So does closing the top: the time so far becomes time recorded. */
  lemma CloseCovers(t: Tree, starts: seq<u64>, now: u64)
    requires WellFormed(t) && Covered(t, starts, now) && t.top != []
    ensures Covered(EndRecord(t, t.top, Sample(Sub(now, starts[|starts| - 1]), 0, 0)), starts[..|starts| - 1], now)
  {
    var u := EndRecord(t, t.top, Sample(Sub(now, starts[|starts| - 1]), 0, 0));
    CloseCharges(t, starts, now);
    forall p | p in u.logs ensures Covers(u, starts[..|starts| - 1], p, now) {
      hide EndRecord, Charge, Running, Total, Covers;
      assert Covers(t, starts, p, now);
      SameCharges(t, starts, now, u, starts[..|starts| - 1], now, p);
    }
  }

  lemma CloseCharges(t: Tree, starts: seq<u64>, now: u64)
    requires WellFormed(t) && Running(t, starts, now) && t.top != []
    ensures var x := Sample(Sub(now, starts[|starts| - 1]), 0, 0);
      var u, s := EndRecord(t, t.top, x), starts[..|starts| - 1];
      && Running(u, s, now) && u.logs.Keys == t.logs.Keys
      && (forall p :: p in t.logs ==> Charge(u, s, p, now) == Charge(t, starts, p, now))
  {
    var start := starts[|starts| - 1];
    var x := Sample(Sub(now, start), 0, 0);
    var u, s := EndRecord(t, t.top, x), starts[..|starts| - 1];
    assert Sub(now, start) == now - start by { WrapOfWord(now - start); }
    assert u.top == Parent(t.top);
    forall p | p in t.logs ensures Charge(u, s, p, now) == Charge(t, starts, p, now) {
      if p == t.top {
        var calls := t.logs[p].calls + [x];
        assert calls[..|calls| - 1] == t.logs[p].calls;
        assert !(p <= Parent(t.top));
      } else {
        assert p <= t.top <==> p <= Parent(t.top);
      }
    }
  }

  lemma ReportCovers(t: Tree, starts: seq<u64>, now: nat)
    requires Covered(t, starts, now)
    ensures Covered(CallTree.Report(t), starts, now)
  {
    var u := CallTree.Report(t);
    assert forall p :: p in t.logs ==> Charge(u, starts, p, now) == Charge(t, starts, p, now) by { hide Total; }
    forall p | p in u.logs ensures Covers(u, starts, p, now) {
      hide Charge, Running, Total, Covers;
      assert Covers(t, starts, p, now);
      SameCharges(t, starts, now, u, starts, now, p);
    }
  }

  // ----- Runs ----------------------------------------------------------------------------------------------

  /** The last time that a start or an end of a record has read. */
  function LastTime(events: seq<Event>): u64 {
    if events == [] then 0 else
      match events[|events| - 1]
      case Start(_, _, _, start, _) => start
      case End(_, _, end) => end
      case _ => LastTime(events[..|events| - 1])
  }

  /** The clock that the records read never runs back. */
  predicate Timely(events: seq<Event>) {
    if events == [] then true else
      Timely(events[..|events| - 1]) && LastTime(events[..|events| - 1]) <= LastTime(events)
  }

  ghost predicate CoveredAt(s: Program, tid: Tid, now: nat) {
    tid in s.Trees() ==> tid in s.lives && Covered(s.Trees()[tid], s.lives[tid].starts, now)
  }

  lemma NestedEndsInOrder(events: seq<Event>)
    requires events != [] && Nested(events)
    ensures !OutOfOrder(Run(events[..|events| - 1]), events[|events| - 1])
  {
    hide Inv, Step, Nested;
    var s, e := Run(events[..|events| - 1]), events[|events| - 1];
    NestedLeavesNothingStuck(events);
    RunsKeepInv(events[..|events| - 1]);
    if OutOfOrder(s, e) {
      OutOfOrderEndSticks(s, e);
    }
  }

  lemma StartKeepsCovered(s: Program, e: Event, tid: Tid)
    requires e.Start? && Inv(s) && CoveredAt(s, tid, e.start)
    ensures CoveredAt(Step(s, e), tid, e.start)
  {
    if e.rid !in s.records && e.tid == tid {
      StartEffect(s, e.rid, tid, e.name, e.start, e.mark);
      assert WellFormed(TreeIn(s, tid)) by { SoundEverywhere(s, tid); }
      NewIsCovered(e.start);
      hide Inv, Covered, Open;
      OpenCovers(TreeIn(s, tid), LifeIn(s, tid).starts, e.name, e.start);
    } else if e.rid !in s.records {
      StartEffect(s, e.rid, e.tid, e.name, e.start, e.mark);
    }
  }

  lemma EndKeepsCovered(s: Program, e: Event, tid: Tid)
    requires e.End? && Inv(s) && !OutOfOrder(s, e) && CoveredAt(s, tid, e.end)
    ensures CoveredAt(Step(s, e), tid, e.end)
  {
    hide Covered, EndRecord, EndIn, Sound, StepEnd;
    if e.rid in s.records {
      EndEffect(s, e.rid, e.end);
      var r := s.records[e.rid];
      if r.tid == tid {
        TopStart(s, e.rid);
        hide Inv;
        InOrderEndCovers(s.Trees()[tid], s.lives[tid], r, e.end);
      }
    }
  }

  lemma InOrderEndCovers(t: Tree, l: Life, r: Record, now: u64)
    requires WellFormed(t) && Covered(t, l.starts, now) && r.path == t.top != []
    requires |l.starts| == |t.top| && l.starts[|l.starts| - 1] == r.start
    ensures Covered(EndRecord(t, r.path, SampleOf(r, now)), EndIn(t.top, l, r).starts, now)
  {
    hide Covered, EndRecord, WellFormed;
    CloseCovers(t, l.starts, now);
  }

  lemma TopStart(s: Program, rid: Rid)
    requires Inv(s) && rid in s.records && NodeExists(s, s.records[rid])
    requires s.records[rid].path == s.Trees()[s.records[rid].tid].top
    ensures var tid := s.records[rid].tid;
      && WellFormed(s.Trees()[tid]) && |s.lives[tid].starts| == |s.Trees()[tid].top| > 0
      && s.lives[tid].starts[|s.lives[tid].starts| - 1] == s.records[rid].start
  {
    hide Sound;
    var tid := s.records[rid].tid;
    assert SoundAt(s, tid) && rid in LiveOf(s.records, tid);
    hide Inv;
    TopStartIn(s.Trees()[tid], s.lives[tid], LiveOf(s.records, tid), rid);
  }

  lemma TopStartIn(t: Tree, l: Life, live: map<Rid, Record>, rid: Rid)
    requires Sound(t, l, live) && rid in live && live[rid].path == t.top
    ensures WellFormed(t) && |l.starts| == |t.top| > 0 && l.starts[|l.starts| - 1] == live[rid].start
  {
    hide WellFormed, Conserved, Separate;
  }

  lemma ReportKeepsCovered(s: Program, e: Event, tid: Tid, now: nat)
    requires (e.Report? || e.ReportOne?) && Inv(s) && CoveredAt(s, tid, now)
    ensures CoveredAt(Step(s, e), tid, now)
  {
    hide Covered, CallTree.Report, Sound, StepReport;
    if tid in s.Trees() {
      ReportCovers(s.Trees()[tid], s.lives[tid].starts, now);
    }
    if e.Report? {
      ReportEffect(s, e.mark);
      hide Inv;
    }
  }

  lemma CoveredLater(s: Program, tid: Tid, now: nat, later: nat)
    requires Inv(s) && CoveredAt(s, tid, now) && now <= later
    ensures CoveredAt(s, tid, later)
  {
    if tid in s.Trees() {
      assert WellFormed(s.Trees()[tid]) by { assert SoundAt(s, tid); }
      TimePasses(s.Trees()[tid], s.lives[tid].starts, now, later);
    }
  }

  lemma {:induction false} TimelyRunsAreCovered(events: seq<Event>, tid: Tid)
    requires Nested(events) && Timely(events)
    ensures CoveredAt(Run(events), tid, LastTime(events))
    decreases |events|
  {
    if events == [] {
    } else {
      hide Inv, Step, CoveredAt, Run, Nested;
      var before, e := events[..|events| - 1], events[|events| - 1];
      Unfold(events);
      TimelyRunsAreCovered(before, tid);
      CoveredLater(Run(before), tid, LastTime(before), LastTime(events));
      match e {
        case Start(_, _, _, _, _) => StartKeepsCovered(Run(before), e, tid);
        case End(_, _, _) =>
          NestedEndsInOrder(events);
          EndKeepsCovered(Run(before), e, tid);
        case _ => ReportKeepsCovered(Run(before), e, tid, LastTime(events));
      }
    }
  }

  // ----- The fields ----------------------------------------------------------------------------------------

  /** Since every node covers its children, none is charged with more than all the time there has been. */
  lemma {:induction false} NoChargeExceedsTime(t: Tree, starts: seq<u64>, p: Path, now: nat)
    requires WellFormed(t) && Covered(t, starts, now) && p in t.logs
    ensures Charge(t, starts, p, now) <= now
    decreases |p|
  {
    if p == [] {
    } else {
      PathParts(p);
      assert Parent(p) in t.logs && Covers(t, starts, Parent(p), now);
      NoChargeExceedsTime(t, starts, Parent(p), now);
      hide WellFormed, Covered, Charge, Running;
      assert p in KidCharges(t, starts, Parent(p), now);
      MapSums.Take(KidCharges(t, starts, Parent(p), now), p);
    }
  }

  /** The times in the statistics of a node are the exact sums: they have not wrapped. */
  ghost predicate Exact(l: Log) {
    l.Ok() && Meaning(l).totalTime == Total(l.calls, Delta) && Meaning(l).intervalTime == Total(l.Recent(), Delta)
  }

  lemma SmallTimesAreExact(l: Log, now: u64)
    requires l.Ok() && Total(l.calls, Delta) <= now
    ensures Exact(l)
  {
    hide Total, Wrap;
    TotalConcat(l.calls[..l.mark], l.Recent(), Delta);
    assert l.calls[..l.mark] + l.Recent() == l.calls;
    WrapOfWord(Total(l.calls, Delta));
    WrapOfWord(Total(l.Recent(), Delta));
  }

  ghost predicate AllExact(t: Tree) {
    forall p :: p in t.logs && p != [] ==> Exact(t.logs[p])
  }

  lemma CoveredIsExact(t: Tree, starts: seq<u64>, now: u64)
    requires WellFormed(t) && Covered(t, starts, now)
    ensures AllExact(t)
  {
    forall p | p in t.logs && p != [] ensures Exact(t.logs[p]) {
      NoChargeExceedsTime(t, starts, p, now);
      hide Exact, Covered, Total;
      SmallTimesAreExact(t.logs[p], now);
    }
  }

  /** The total time that a node's statistics show, with the time so far of its open call; all the time for the root. */
  function Shown(t: Tree, starts: seq<u64>, p: Path, now: nat): nat
    requires p in t.logs && t.logs[p].Ok() && Running(t, starts, now)
  {
    if p == [] then now else Meaning(t.logs[p]).totalTime + SoFar(t, starts, p, now)
  }

  function KidsShown(t: Tree, starts: seq<u64>, p: Path, now: nat): map<Path, nat>
    requires Running(t, starts, now) && forall q :: q in t.logs ==> t.logs[q].Ok()
  {
    map q | q in t.logs && IsKid(p, q) :: Shown(t, starts, q, now)
  }

  /** The total times that the statistics of a node's children show. */
  function KidTimes(t: Tree, p: Path): map<Path, nat>
    requires forall q :: q in t.logs ==> t.logs[q].Ok()
  {
    map q | q in t.logs && IsKid(p, q) :: Meaning(t.logs[q]).totalTime
  }

  lemma ExactIsShown(t: Tree, starts: seq<u64>, p: Path, now: nat)
    requires AllExact(t) && p in t.logs && t.logs[p].Ok() && Running(t, starts, now)
    ensures Shown(t, starts, p, now) == Charge(t, starts, p, now)
  {
    hide Running, SoFar, Total, Meaning;
  }

  /**
   At any moment of a nested run with a clock that never runs back: no time in the statistics of a node has wrapped; and
   for every node the times of its children, counting the time so far of one that is open, add up to no more than its
   own, or for the root to all the time there has been.
   */
  lemma ChildrenFitInTheirParent(events: seq<Event>, tid: Tid, p: Path, now: u64)
    requires Nested(events) && Timely(events) && LastTime(events) <= now
    requires tid in Run(events).Trees() && p in Run(events).Trees()[tid].logs
    ensures tid in Run(events).lives
    ensures var t, starts := Run(events).Trees()[tid], Run(events).lives[tid].starts;
      && WellFormed(t) && Running(t, starts, now) && AllExact(t)
      && MapSums.Sum(KidsShown(t, starts, p, now)) <= Shown(t, starts, p, now)
  {
    hide Inv, Run, Nested, Timely, Covered, WellFormed;
    RunsKeepInv(events);
    TimelyRunsAreCovered(events, tid);
    CoveredLater(Run(events), tid, LastTime(events), now);
    var t, starts := Run(events).Trees()[tid], Run(events).lives[tid].starts;
    assert WellFormed(t) by { TreeIsSound(Run(events), tid); }
    CoveredIsExact(t, starts, now);
    ItIsCovered(t, starts, p, now);
    ShownCovers(t, starts, p, now);
  }

  lemma TreeIsSound(s: Program, tid: Tid)
    requires Inv(s) && tid in s.Trees()
    ensures WellFormed(s.Trees()[tid])
  {
    assert SoundAt(s, tid);
    hide WellFormed, Matched, Timed, Conserved;
  }

  lemma ItIsCovered(t: Tree, starts: seq<u64>, p: Path, now: nat)
    requires Covered(t, starts, now) && p in t.logs
    ensures Running(t, starts, now) && Covers(t, starts, p, now)
  {}

  lemma ShownCovers(t: Tree, starts: seq<u64>, p: Path, now: nat)
    requires WellFormed(t) && AllExact(t) && p in t.logs && Running(t, starts, now) && Covers(t, starts, p, now)
    ensures MapSums.Sum(KidsShown(t, starts, p, now)) <= Shown(t, starts, p, now)
  {
    forall q | q in t.logs ensures t.logs[q].Ok() && Shown(t, starts, q, now) == Charge(t, starts, q, now) {
      ExactIsShown(t, starts, q, now);
    }
    hide WellFormed, AllExact, Running, Shown, Charge, IsKid;
    assert KidCharges(t, starts, p, now) == KidsShown(t, starts, p, now);
  }

  /** A node with no open call shows at least the time that its children show together. */
  lemma ClosedNodeCoversItsChildren(events: seq<Event>, tid: Tid, p: Path)
    requires Nested(events) && Timely(events)
    requires tid in Run(events).Trees() && p in Run(events).Trees()[tid].logs && !(p <= Run(events).Trees()[tid].top)
    ensures var t := Run(events).Trees()[tid];
      && WellFormed(t)
      && MapSums.Sum(KidTimes(t, p)) <= Meaning(t.logs[p]).totalTime
  {
    hide Run, Nested, Timely;
    ChildrenFitInTheirParent(events, tid, p, LastTime(events));
    hide LastTime;
    ClosedShows(Run(events).Trees()[tid], Run(events).lives[tid].starts, p, LastTime(events));
  }

  lemma ClosedShows(t: Tree, starts: seq<u64>, p: Path, now: nat)
    requires WellFormed(t) && p in t.logs && Running(t, starts, now) && !(p <= t.top)
    ensures Shown(t, starts, p, now) == Meaning(t.logs[p]).totalTime
    ensures KidsShown(t, starts, p, now) == KidTimes(t, p)
  {
    forall q | q in t.logs ensures t.logs[q].Ok() {}
    hide WellFormed, Running, Meaning;
    forall q | IsKid(p, q) ensures q != [] && !(q <= t.top) { assert q <= t.top ==> p <= t.top; }
  }
}

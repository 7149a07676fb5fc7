/**
 Live records and the call tree of their thread. A record keeps a pointer to a node, here the node's path; the tree
 keeps a stack entry for the record. `Sound` says how the two stay matched when records end in any order.
 */
module Records {
  import opened Words
  import opened NodeStats
  import opened CallTree
  import opened Processes

  type Rid = nat

  /** A live record: its thread, the tree it started in, the name it was given, its node and its start time. */
  datatype Record = Record(tid: Tid, serial: nat, name: Name, path: Path, start: u64)

  /**
   What happened in the life of one tree so far. `serial` is the identity of the tree; `stuck` holds the stack levels
   whose records ended out of order; `starts` the start times along the stack; `held` the number of records that were
   live at the last report.
   */
  datatype Life = Life(serial: nat, stuck: set<nat>, starts: seq<u64>, held: nat)

  function NewLife(serial: nat): Life {
    Life(serial, {}, [], 0)
  }

  function StartIn(t: Tree, l: Life, tid: Tid, name: Name, start: u64): Record {
    Record(tid, l.serial, name, t.top + [name], start)
  }

  /** A record of this tree ends: in order, the stack shrinks; out of order, its entry stays. */
  function EndIn(top: Path, l: Life, r: Record): Life {
    if r.path == top then l.(starts := if l.starts == [] then [] else l.starts[..|l.starts| - 1])
    else l.(stuck := l.stuck + {|r.path|})
  }

  /** Every live record points to the node of a stack entry above the root. */
  ghost predicate Pointed(top: Path, l: Life, live: map<Rid, Record>) {
    forall r :: r in live ==>
      && live[r].serial == l.serial && live[r].path != [] && live[r].path <= top
      && NameAt(live[r].path) == live[r].name
  }

  /** No two records share an entry, and none has a stuck one. */
  ghost predicate Separate(l: Life, live: map<Rid, Record>) {
    && (forall r :: r in live ==> |live[r].path| !in l.stuck)
    && (forall r, q :: r in live && q in live && r != q ==> |live[r].path| != |live[q].path|)
  }

  /** So the live records map one to one into the stack entries, and every other entry is stuck. */
  ghost predicate Matched(top: Path, l: Life, live: map<Rid, Record>) {
    && Pointed(top, l, live)
    && Separate(l, live)
    && (forall k :: k in l.stuck ==> 1 <= k <= |top|)
    && |live| + |l.stuck| == |top|
  }

  /** The start times along the stack are those of the records that the entries belong to. */
  ghost predicate Timed(top: Path, l: Life, live: map<Rid, Record>) {
    && |l.starts| == |top|
    && forall r :: r in live ==> 1 <= |live[r].path| <= |l.starts| && l.starts[|live[r].path| - 1] == live[r].start
  }

  /** Calls opened are calls recorded or still live; the same at the last report. */
  ghost predicate Conserved(t: Tree, l: Life, live: map<Rid, Record>) {
    && t.opens == Calls(t) + |live|
    && t.reported == ReportedCalls(t) + l.held
  }

  ghost predicate Sound(t: Tree, l: Life, live: map<Rid, Record>) {
    WellFormed(t) && Matched(t.top, l, live) && Timed(t.top, l, live) && Conserved(t, l, live)
  }

  lemma NewIsSound(serial: nat)
    ensures Sound(New(), NewLife(serial), map[])
  {
    NewHasNoCalls();
  }

  lemma StartKeepsSound(t: Tree, l: Life, live: map<Rid, Record>, rid: Rid, tid: Tid, name: Name, start: u64)
    requires Sound(t, l, live) && rid !in live
    ensures Sound(Open(t, name), l.(starts := l.starts + [start]), live[rid := StartIn(t, l, tid, name, start)])
  {
    OpenKeepsWellFormed(t, name);
    OpenKeepsCalls(t, name);
    OpenParts(t, name);
    hide Open, WellFormed, Calls, ReportedCalls, Matched, Timed;
    StartKeepsMatched(t.top, l, live, rid, StartIn(t, l, tid, name, start), name);
    StartKeepsTimed(t.top, l, live, rid, StartIn(t, l, tid, name, start), name);
  }

  lemma StartKeepsMatched(top: Path, l: Life, live: map<Rid, Record>, rid: Rid, r: Record, name: Name)
    requires Matched(top, l, live) && rid !in live
    requires r.serial == l.serial && r.path == top + [name] && r.name == name
    ensures Matched(top + [name], l.(starts := l.starts + [r.start]), live[rid := r])
  {
    forall q | q in live ensures live[q].path <= top + [name] && |live[q].path| < |top + [name]| {
      assert live[q].path <= top;
    }
  }

  lemma StartKeepsTimed(top: Path, l: Life, live: map<Rid, Record>, rid: Rid, r: Record, name: Name)
    requires Timed(top, l, live) && r.path == top + [name]
    ensures Timed(top + [name], l.(starts := l.starts + [r.start]), live[rid := r])
  {}

  lemma NodeOfRecord(t: Tree, l: Life, live: map<Rid, Record>, rid: Rid)
    requires WellFormed(t) && Matched(t.top, l, live) && rid in live
    ensures live[rid].path in t.logs && live[rid].path != [] && t.top in t.logs
  {
    PrefixesAreIn(t.logs.Keys, t.top, live[rid].path);
  }

  lemma EndKeepsSound(t: Tree, l: Life, live: map<Rid, Record>, rid: Rid, s: Sample)
    requires Sound(t, l, live) && rid in live
    ensures Sound(EndRecord(t, live[rid].path, s), EndIn(t.top, l, live[rid]), live - {rid})
  {
    hide EndRecord, EndIn, WellFormed, Matched, Timed, Conserved;
    var r := live[rid];
    NodeOfRecord(t, l, live, rid);
    EndKeepsWellFormed(t, r.path, s);
    EndKeepsConserved(t, l, live, rid, s);
    EndParts(t, r.path, s);
    if r.path == t.top {
      EndInOrder(t.top, l, live, rid);
      EndInOrderTimed(t.top, l, live, rid);
    } else {
      EndOutOfOrder(t.top, l, live, rid);
      EndOutOfOrderTimed(t.top, l, live, rid);
    }
  }

  lemma EndKeepsConserved(t: Tree, l: Life, live: map<Rid, Record>, rid: Rid, s: Sample)
    requires Conserved(t, l, live) && rid in live && live[rid].path in t.logs && live[rid].path != []
    ensures Conserved(EndRecord(t, live[rid].path, s), EndIn(t.top, l, live[rid]), live - {rid})
  {
    hide EndRecord, Calls, ReportedCalls;
    EndAddsOneCall(t, live[rid].path, s);
    EndParts(t, live[rid].path, s);
    assert |live - {rid}| == |live| - 1;
  }

  lemma EndParts(t: Tree, p: Path, s: Sample)
    ensures var u := EndRecord(t, p, s);
      && u.top == (if p == t.top && p != [] then Parent(p) else t.top)
      && u.opens == t.opens && u.reported == t.reported && u.logs.Keys == t.logs.Keys
  {}

  /** When the record of the top entry ends, the others still point into the stack below it. */
  lemma EndInOrder(top: Path, l: Life, live: map<Rid, Record>, rid: Rid)
    requires Matched(top, l, live) && rid in live && live[rid].path == top && top != []
    ensures Matched(Parent(top), EndIn(top, l, live[rid]), live - {rid})
  {
    var rest := live - {rid};
    assert |rest| == |live| - 1;
    forall q | q in rest ensures live[q].path <= Parent(top) {
      assert live[q].path <= top && |live[q].path| != |top|;
    }
    assert forall k :: k in l.stuck ==> k != |top|;
  }

  lemma EndInOrderTimed(top: Path, l: Life, live: map<Rid, Record>, rid: Rid)
    requires Matched(top, l, live) && Timed(top, l, live) && rid in live && live[rid].path == top && top != []
    ensures Timed(Parent(top), EndIn(top, l, live[rid]), live - {rid})
  {
    forall q | q in live && q != rid ensures |live[q].path| < |top| {
      assert live[q].path <= top && |live[q].path| != |top|;
    }
  }

  lemma EndOutOfOrder(top: Path, l: Life, live: map<Rid, Record>, rid: Rid)
    requires Matched(top, l, live) && rid in live && live[rid].path != top
    ensures Matched(top, EndIn(top, l, live[rid]), live - {rid})
  {
    var rest := live - {rid};
    assert |rest| == |live| - 1;
    assert |l.stuck + {|live[rid].path|}| == |l.stuck| + 1;
    assert Pointed(top, EndIn(top, l, live[rid]), rest);
    assert Separate(EndIn(top, l, live[rid]), rest) by { hide Pointed; }
    hide Pointed, Separate;
  }

  lemma EndOutOfOrderTimed(top: Path, l: Life, live: map<Rid, Record>, rid: Rid)
    requires Timed(top, l, live) && rid in live && live[rid].path != top
    ensures Timed(top, EndIn(top, l, live[rid]), live - {rid})
  {}

  lemma ReportKeepsSound(t: Tree, l: Life, live: map<Rid, Record>)
    requires Sound(t, l, live)
    ensures Sound(Report(t), l.(held := |live|), live)
  {
    ReportKeepsWellFormed(t);
    ReportMarksAllCalls(t);
    assert Report(t).top == t.top && Report(t).opens == Report(t).reported == t.opens;
    hide WellFormed, Calls, ReportedCalls, Report;
  }

  /** The stack is down to its root exactly when no record of the tree is live and none ever ended out of order. */
  lemma OnlyRootOnStack(t: Tree, l: Life, live: map<Rid, Record>)
    requires Sound(t, l, live)
    ensures t.top == [] <==> live == map[] && l.stuck == {}
  {
    assert |live| == 0 <==> live == map[];
    assert |l.stuck| == 0 <==> l.stuck == {};
  }
}

/**
 The call tree of one thread as a plain value: an index from name paths to the calls recorded there. The active
 stack always runs from the root down child links, so the path of its top determines all of it.
 */
module CallTree {
  import opened Words
  import opened NodeStats
  import MapSums

  type Name = string
  type Path = seq<Name>

  const ROOT_NAME: Name := "root_node"

  /** `opens` and `reported` are the unbounded forms of the two 64-bit activity counters. */
  datatype Tree = Tree(logs: map<Path, Log>, top: Path, opens: nat, reported: nat)

  function Parent(p: Path): Path
    requires p != []
  {
    p[..|p| - 1]
  }

  lemma ChildPath(p: Path, k: Name)
    ensures p + [k] != [] && Parent(p + [k]) == p && NameAt(p + [k]) == k
  {}

  lemma PathParts(p: Path)
    requires p != []
    ensures p == Parent(p) + [NameAt(p)] && p != Parent(p)
  {}

  function NameAt(p: Path): Name {
    if p == [] then ROOT_NAME else p[|p| - 1]
  }

  function New(): Tree {
    Tree(map[[] := NewLog(true)], [], 0, 0)
  }

  function LogsWith(logs: map<Path, Log>, p: Path): map<Path, Log> {
    if p in logs then logs else logs[p := NewLog(false)]
  }

  /** Opens an element: the found or created child of the top becomes the top. */
  function Open(t: Tree, name: Name): Tree {
    var p := t.top + [name];
    Tree(LogsWith(t.logs, p), p, t.opens + 1, t.reported)
  }

  /** Adds one call to a node. */
  function AddCall(t: Tree, p: Path, s: Sample): Tree {
    if p in t.logs then t.(logs := t.logs[p := t.logs[p].Add(s)]) else t
  }

  /** Closes a node: it leaves the stack only when it is the top, and the root never leaves it. */
  function CloseNode(t: Tree, p: Path): Tree {
    if p == t.top && p != [] then t.(top := Parent(p)) else t
  }

  /** The end of a record that points to the node at `p`. */
  function EndRecord(t: Tree, p: Path, s: Sample): Tree {
    CloseNode(AddCall(t, p, s), p)
  }

  /** The end of an element known only by its name: nothing happens unless the top has that name. */
  function ExitByName(t: Tree, name: Name, s: Sample): Tree {
    if NameAt(t.top) == name then EndRecord(t, t.top, s) else t
  }

  /** A full report: every node starts a new interval, and the activity is marked as reported. */
  function Report(t: Tree): Tree {
    t.(logs := map p | p in t.logs :: t.logs[p].Reset(), reported := t.opens)
  }

  /** No element opened since the last report (in 64 bits) and only the root on the stack. */
  predicate IsInactive(t: Tree) {
    Wrap(t.opens) == Wrap(t.reported) && t.top == []
  }

  // ----- Well-formedness -----------------------------------------------------------------------------

  ghost predicate Closed(paths: set<Path>) {
    && [] in paths
    && forall p {:trigger Parent(p)} :: p in paths && p != [] ==> Parent(p) in paths
  }

  ghost predicate WellFormed(t: Tree) {
    && Closed(t.logs.Keys)
    && t.top in t.logs
    && (forall p :: p in t.logs ==> t.logs[p].Ok() && t.logs[p].seed == (if p == [] then 1 else 0)
                                    && t.logs[p].intervalSeed <= t.logs[p].seed)
    && t.reported <= t.opens
  }

  lemma {:induction false} PrefixesAreIn(paths: set<Path>, p: Path, q: Path)
    requires Closed(paths) && p in paths && q <= p
    ensures q in paths
    decreases |p|
  {
    if q != p {
      PrefixesAreIn(paths, Parent(p), q);
    }
  }

  lemma OpenKeepsWellFormed(t: Tree, name: Name)
    requires WellFormed(t)
    ensures WellFormed(Open(t, name))
  {
    assert Parent(t.top + [name]) == t.top;
  }

  lemma AddCallKeepsWellFormed(t: Tree, p: Path, s: Sample)
    requires WellFormed(t)
    ensures WellFormed(AddCall(t, p, s))
  {}

  lemma ReportKeepsWellFormed(t: Tree)
    requires WellFormed(t)
    ensures WellFormed(Report(t))
  {
    assert Report(t).logs.Keys == t.logs.Keys;
  }

  lemma OpenParts(t: Tree, name: Name)
    ensures var u := Open(t, name); var p := t.top + [name];
      u.top == p && u.opens == t.opens + 1 && u.reported == t.reported && u.logs == LogsWith(t.logs, p)
  {}

  lemma CloseKeepsWellFormed(t: Tree, p: Path)
    requires WellFormed(t)
    ensures WellFormed(CloseNode(t, p))
  {}

  lemma EndKeepsWellFormed(t: Tree, p: Path, s: Sample)
    requires WellFormed(t)
    ensures WellFormed(EndRecord(t, p, s))
  {}

  // ----- Conservation --------------------------------------------------------------------------------

  /** Recorded calls per node, the root left out. */
  function Counts(t: Tree): map<Path, nat> {
    map p | p in t.logs && p != [] :: |t.logs[p].calls|
  }

  ghost function Calls(t: Tree): nat {
    MapSums.Sum(Counts(t))
  }

  /** Calls that a full report has already printed, per node and in all. */
  function ReportedCounts(t: Tree): map<Path, nat> {
    map p | p in t.logs && p != [] :: t.logs[p].mark
  }

  ghost function ReportedCalls(t: Tree): nat {
    MapSums.Sum(ReportedCounts(t))
  }

  lemma OpenKeepsCalls(t: Tree, name: Name)
    ensures Calls(Open(t, name)) == Calls(t)
    ensures ReportedCalls(Open(t, name)) == ReportedCalls(t)
  {
    var p := t.top + [name];
    var u := Open(t, name);
    if p in t.logs {
      assert Counts(u) == Counts(t) && ReportedCounts(u) == ReportedCounts(t);
    } else {
      assert Counts(u) == Counts(t)[p := 0] && ReportedCounts(u) == ReportedCounts(t)[p := 0];
      MapSums.Update(Counts(t), p, 0);
      MapSums.Update(ReportedCounts(t), p, 0);
    }
  }

  lemma EndAddsOneCall(t: Tree, p: Path, s: Sample)
    requires p in t.logs
    ensures Calls(EndRecord(t, p, s)) == Calls(t) + (if p == [] then 0 else 1)
    ensures ReportedCalls(EndRecord(t, p, s)) == ReportedCalls(t)
  {
    var u := EndRecord(t, p, s);
    assert ReportedCounts(u) == ReportedCounts(t);
    if p == [] {
      assert Counts(u) == Counts(t);
    } else {
      assert Counts(u) == Counts(t)[p := Counts(t)[p] + 1];
      MapSums.Update(Counts(t), p, Counts(t)[p] + 1);
    }
  }

  lemma ReportMarksAllCalls(t: Tree)
    ensures Calls(Report(t)) == Calls(t) == ReportedCalls(Report(t))
  {
    assert Counts(Report(t)) == Counts(t) == ReportedCounts(Report(t));
  }

  lemma NewHasNoCalls()
    ensures Calls(New()) == 0 && ReportedCalls(New()) == 0 && WellFormed(New())
  {
    assert Counts(New()) == map[] && ReportedCounts(New()) == map[];
  }

  /** Every reported call is recorded. */
  lemma ReportedAtMostCalls(t: Tree)
    requires WellFormed(t)
    ensures ReportedCalls(t) <= Calls(t)
  {
    MapSums.Monotone(ReportedCounts(t), Counts(t));
  }

  // ----- Runs of one tree ----------------------------------------------------------------------------

  datatype Op =
    | OpOpen(name: Name)
    | OpEnd(path: Path, sample: Sample)
    | OpExit(name: Name, sample: Sample)
    | OpReport

  function Apply(t: Tree, op: Op): Tree {
    match op
    case OpOpen(n) => Open(t, n)
    case OpEnd(p, s) => EndRecord(t, p, s)
    case OpExit(n, s) => ExitByName(t, n, s)
    case OpReport => Report(t)
  }

  function ApplyAll(ops: seq<Op>): Tree {
    if ops == [] then New() else Apply(ApplyAll(ops[..|ops| - 1]), ops[|ops| - 1])
  }

  /** The call that one operation records at a path, if any. */
  function CallOf(t: Tree, op: Op, p: Path): seq<Sample> {
    match op
    case OpEnd(q, s) => if q == p && p in t.logs then [s] else []
    case OpExit(n, s) => if t.top == p && NameAt(p) == n then [s] else []
    case _ => []
  }

  /** The calls that a run records at a path. */
  function CallsAt(ops: seq<Op>, p: Path): seq<Sample> {
    if ops == [] then [] else
      CallsAt(ops[..|ops| - 1], p) + CallOf(ApplyAll(ops[..|ops| - 1]), ops[|ops| - 1], p)
  }

  lemma {:induction false} RunIsWellFormed(ops: seq<Op>)
    ensures WellFormed(ApplyAll(ops))
    decreases |ops|
  {
    if ops == [] {
      NewHasNoCalls();
    } else {
      var t := ApplyAll(ops[..|ops| - 1]);
      RunIsWellFormed(ops[..|ops| - 1]);
      match ops[|ops| - 1] {
        case OpOpen(n) => OpenKeepsWellFormed(t, n);
        case _ =>
      }
    }
  }

  /** The paths that one operation adds are exactly the prefixes of the new top. */
  lemma StepPaths(t: Tree, op: Op, p: Path)
    requires WellFormed(t)
    ensures p in Apply(t, op).logs <==> p in t.logs || p <= Apply(t, op).top
  {
    var u := Apply(t, op);
    if p <= u.top && p !in t.logs {
      if op.OpOpen? {
        assert u.top == t.top + [op.name];
        if p != u.top {
          assert p <= t.top;
          PrefixesAreIn(t.logs.Keys, t.top, p);
        }
      } else {
        assert u.top <= t.top && p <= t.top;
        PrefixesAreIn(t.logs.Keys, t.top, p);
      }
    }
  }

  /** The nodes of a tree are exactly the prefixes of the stacks it has ever had. */
  lemma {:induction false} NodesArePrefixesOfStacks(ops: seq<Op>, p: Path)
    ensures p in ApplyAll(ops).logs <==> exists i :: 0 <= i <= |ops| && p <= ApplyAll(ops[..i]).top
    decreases |ops|
  {
    hide WellFormed, Apply;
    assert ops[..|ops|] == ops;
    if ops == [] {
      assert p == [] ==> p <= ApplyAll(ops[..0]).top;
    } else {
      var before := ops[..|ops| - 1];
      RunIsWellFormed(before);
      StepPaths(ApplyAll(before), ops[|ops| - 1], p);
      NodesArePrefixesOfStacks(before, p);
      assert forall i :: 0 <= i <= |before| ==> before[..i] == ops[..i];
      if p in ApplyAll(before).logs {
        var i :| 0 <= i <= |before| && p <= ApplyAll(before[..i]).top;
        assert p <= ApplyAll(ops[..i]).top;
      } else if p <= ApplyAll(ops).top {
        assert p <= ApplyAll(ops[..|ops|]).top;
      }
    }
  }

  lemma StepCalls(t: Tree, op: Op, p: Path)
    requires WellFormed(t)
    ensures p in t.logs ==> p in Apply(t, op).logs && Apply(t, op).logs[p].calls == t.logs[p].calls + CallOf(t, op, p)
    ensures p !in t.logs ==> CallOf(t, op, p) == []
    ensures p !in t.logs && p in Apply(t, op).logs ==> Apply(t, op).logs[p].calls == []
  {
    hide Closed;
  }

  /** Each node holds exactly the calls recorded at its path, in order, for the tree's whole life. */
  lemma {:induction false} NodesHoldTheirCalls(ops: seq<Op>, p: Path)
    ensures if p in ApplyAll(ops).logs then ApplyAll(ops).logs[p].calls == CallsAt(ops, p) else CallsAt(ops, p) == []
    decreases |ops|
  {
    if ops == [] {
    } else {
      hide WellFormed, Apply, CallOf;
      var before := ops[..|ops| - 1];
      RunIsWellFormed(before);
      StepCalls(ApplyAll(before), ops[|ops| - 1], p);
      NodesHoldTheirCalls(before, p);
    }
  }
}

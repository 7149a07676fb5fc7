/**
 The mutable call tree: nodes linked by name, the active stack of pointers into them, and the activity counters.
 The ghost `index` gives the node object of every path; `state` is the plain value the objects stand for.
 */
module PerfTrees {
  import opened Words
  import opened NodeStats
  import opened CallTree
  import opened Reporting

  /** The log of node `q` after the node at `p` has been reported. */
  function AfterReport(l: Log, p: Path, q: Path, onlyDelta: bool): Log {
    if p <= q && !onlyDelta then l.Reset() else l
  }

  /** The log of node `q` once the children `names` of `p`, but not yet `p`, have been reported. */
  function AfterKids(l: Log, p: Path, q: Path, names: seq<Name>, onlyDelta: bool): Log {
    if !onlyDelta && p < q && q[|p|] in names then l.Reset() else l
  }

  /** The logs once the node at `p` and all below it have been reported. */
  ghost predicate NodeReported(before: map<Path, Log>, now: map<Path, Log>, p: Path, onlyDelta: bool) {
    now.Keys == before.Keys && forall q :: q in before ==> now[q] == AfterReport(before[q], p, q, onlyDelta)
  }

  ghost predicate KidsReported(before: map<Path, Log>, now: map<Path, Log>, p: Path, names: seq<Name>, onlyDelta: bool)
  {
    now.Keys == before.Keys && forall q :: q in before ==> now[q] == AfterKids(before[q], p, q, names, onlyDelta)
  }

  lemma NoKids(logs: map<Path, Log>, base: nat, paths: set<Path>, p: Path, onlyDelta: bool)
    requires p in paths
    ensures KidsPrinted(logs, base, paths, p, [], [])
    ensures KidsReported(logs, logs, p, [], onlyDelta)
  {}

  lemma StillToReport(logs: map<Path, Log>, now: map<Path, Log>, p: Path, names: seq<Name>, i: nat, onlyDelta: bool)
    requires i < |names| && forall a, b :: 0 <= a < b < |names| ==> names[a] != names[b]
    requires KidsReported(logs, now, p, names[..i], onlyDelta)
    ensures forall q :: q in logs && p + [names[i]] <= q ==> now[q] == logs[q]
  {
    forall q | p + [names[i]] <= q ensures q[|p|] == names[i] {}
  }

  lemma OneMore(logs: map<Path, Log>, before: map<Path, Log>, now: map<Path, Log>, p: Path, names: seq<Name>, i: nat,
                onlyDelta: bool)
    requires i < |names| && KidsReported(logs, before, p, names[..i], onlyDelta)
    requires NodeReported(before, now, p + [names[i]], onlyDelta)
    ensures KidsReported(logs, now, p, names[..i + 1], onlyDelta)
  {
    forall q | p < q
      ensures p + [names[i]] <= q <==> q[|p|] == names[i]
      ensures q[|p|] in names[..i + 1] <==> q[|p|] in names[..i] || q[|p|] == names[i]
    {}
  }

  lemma AllKids(logs: map<Path, Log>, before: map<Path, Log>, now: map<Path, Log>, p: Path, names: seq<Name>,
                onlyDelta: bool)
    requires p in logs && forall q :: q in logs && p < q ==> q[|p|] in names
    requires KidsReported(logs, before, p, names, onlyDelta)
    requires now == before[p := if onlyDelta then before[p] else before[p].Reset()]
    ensures NodeReported(logs, now, p, onlyDelta)
  {
    assert forall q :: q in logs && p <= q && q != p ==> p < q;
  }

  /** The sequence lists the nodes of the set, each once. */
  ghost predicate ListsOnce(nodes: seq<PerfNode>, all: set<PerfNode>) {
    && (forall i, j :: 0 <= i < j < |nodes| ==> nodes[i] != nodes[j])
    && (set n | n in nodes) == all
  }

  lemma ListsOne(n: PerfNode)
    ensures ListsOnce([n], {n})
  {}

  lemma ListsMore(a: seq<PerfNode>, b: seq<PerfNode>, x: set<PerfNode>, y: set<PerfNode>)
    requires ListsOnce(a, x) && ListsOnce(b, y) && x !! y
    ensures ListsOnce(a + b, x + y)
  {
    assert forall n :: n in a ==> n in x;
    assert forall n :: n in b ==> n in y;
    forall i, j | 0 <= i < j < |a + b| ensures (a + b)[i] != (a + b)[j] {
      assert i < |a| <= j ==> a[i] in a && b[j - |a|] in b;
    }
    assert (set n | n in a + b) == (set n | n in a) + (set n | n in b);
  }

  class PerfNode {
    const name: Name
    var stats: TimingStats
    var tree: PerfTree?
    var children: map<Name, PerfNode>

    ghost const path: Path
    ghost var log: Log

    /** The fields say what the history of the node says. */
    ghost predicate Counted()
      reads this`stats, this`log
    {
      log.Ok() && stats == Meaning(log)
    }

    constructor Root()
      ensures name == ROOT_NAME && path == [] && tree == null && children == map[]
      ensures log == NewLog(true) && Counted()
    {
      name, path := ROOT_NAME, [];
      tree, children := null, map[];
      stats := TimingStats(0, 0, INITIAL_MIN_VALUE, 1, 0, 0, INITIAL_MIN_VALUE, 1, 0, 0, 0, 0, 0, 0, 0);
      log := NewLog(true);
    }

    constructor (name: Name, ghost path: Path)
      ensures this.name == name && this.path == path && tree == null && children == map[]
      ensures log == NewLog(false) && Counted()
    {
      this.name, this.path := name, path;
      tree, children := null, map[];
      stats := TimingStats(0, 0, INITIAL_MIN_VALUE, 0, 0, 0, INITIAL_MIN_VALUE, 0, 0, 0, 0, 0, 0, 0, 0);
      log := NewLog(false);
    }

    /** Finds the child with a name, or creates it. */
    method AddChild(name: Name) returns (node: PerfNode)
      modifies this`children
      ensures if name in old(children)
              then node == old(children[name]) && children == old(children)
              else && fresh(node) && node.name == name && node.path == path + [name] && node.tree == null
                   && node.children == map[] && node.log == NewLog(false) && node.Counted()
                   && children == old(children)[name := node]
    {
      if name !in children {
        node := new PerfNode(name, path + [name]);
        children := children[name := node];
      } else {
        node := children[name];
      }
    }

    /** Accumulates one call, field by field, in the totals and in the interval. */
    method IncrementData(deltaTime: u64, userCPU: u64, systemCPU: u64)
      requires Counted()
      modifies this`stats, this`log
      ensures log == old(log).Add(Sample(deltaTime, userCPU, systemCPU)) && Counted()
    {
      MeaningAfterCall(log, Sample(deltaTime, userCPU, systemCPU));
      hide Meaning, Wrap;
      stats := stats.(lastDelta := deltaTime);
      stats := stats.(totalTime := Add(stats.totalTime, deltaTime));
      stats := stats.(totalCount := Add(stats.totalCount, 1));
      if stats.totalMin > deltaTime {
        stats := stats.(totalMin := deltaTime);
      }
      if stats.totalMax < deltaTime {
        stats := stats.(totalMax := deltaTime);
      }
      stats := stats.(intervalTime := Add(stats.intervalTime, deltaTime));
      stats := stats.(intervalCount := Add(stats.intervalCount, 1));
      if stats.intervalMin > deltaTime {
        stats := stats.(intervalMin := deltaTime);
      }
      if stats.intervalMax < deltaTime {
        stats := stats.(intervalMax := deltaTime);
      }
      stats := stats.(userCPU := userCPU, systemCPU := systemCPU);
      stats := stats.(intervalUserCPU := Add(stats.intervalUserCPU, userCPU));
      stats := stats.(intervalSystemCPU := Add(stats.intervalSystemCPU, systemCPU));
      stats := stats.(totalUserCPU := Add(stats.totalUserCPU, userCPU));
      stats := stats.(totalSystemCPU := Add(stats.totalSystemCPU, systemCPU));
      log := log.Add(Sample(deltaTime, userCPU, systemCPU));
    }

    /** Starts a new interval. */
    method ResetInterval()
      requires Counted()
      modifies this`stats, this`log
      ensures log == old(log).Reset() && Counted()
    {
      stats := stats.(intervalTime := 0, intervalMax := 0, intervalMin := INITIAL_MIN_VALUE, intervalCount := 0,
                      intervalUserCPU := 0, intervalSystemCPU := 0);
      log := log.Reset();
      assert log.Recent() == [];
    }

    /** Closes this node in its tree; the root has no tree and is never closed. */
    method CloseNode()
      requires tree != null ==> tree.Valid() && path in tree.index && tree.index[path] == this && path != []
      modifies if tree == null then {} else {tree}
      ensures tree == old(tree)
      ensures tree != null ==> tree.Valid() && tree.Repr == old(tree.Repr) && tree.index == old(tree.index)
      ensures tree != null ==> tree.state == CallTree.CloseNode(old(tree.state), path)
    {
      if tree != null {
        tree.CloseActiveNode(this);
      }
    }

    /**
     Prints this node and everything below it; a full report also starts a new interval in each of these nodes.
     `t` and `base` place the node: it is the one at `path`, printed at level `|path| - base`.
     */
    method ReportData(level: nat, onlyDelta: bool, ghost t: PerfTree, ghost base: nat) returns (lines: seq<Line>)
      requires t.Shape() && path in t.index && t.index[path] == this && |path| == level + base
      requires forall q :: q in t.index ==> t.index[q].Counted()
      modifies t.NodesBelow(path)`stats, t.NodesBelow(path)`log
      ensures Printable(old(t.Logs()), base, Visit(t.index.Keys, path))
      ensures lines == Lines(old(t.Logs()), base, Visit(t.index.Keys, path))
      ensures t.Shape()
      ensures forall q :: q in t.index ==> t.index[q].Counted()
      ensures NodeReported(old(t.Logs()), t.Logs(), path, onlyDelta)
      decreases Below(t.index.Keys, path), 1
    {
      hide Meaning, Lines, Printable, Visit, KidsPrinted, Closed, NameLt, InOrder, Kids, Below;
      hide KidsReported, NodeReported;
      hide PerfTree.NodesBelow, PerfTree.Shape, Counted;
      lines := [Line(level, name, stats)];
      var names := InOrder(children.Keys);
      t.ChildrenAreKids(path);
      t.StartLines(path, base, names);
      t.StartPlaces(path, names);
      ghost var logs := t.Logs();
      var more := ReportChildren(level, onlyDelta, names, t, base);
      lines := lines + more;
      ghost var before := t.Logs();
      label printed:
      if !onlyDelta {
        ResetInterval();
        t.OneNodeChanged@printed(path);
      } else {
        assert before == before[path := before[path]];
      }
      AllKids(logs, before, t.Logs(), path, names, onlyDelta);
    }

    /** The loop of `ReportData` over the children in key order. */
    method ReportChildren(level: nat, onlyDelta: bool, names: seq<Name>, ghost t: PerfTree, ghost base: nat)
      returns (lines: seq<Line>)
      requires t.Shape() && path in t.index && t.index[path] == this && |path| == level + base
      requires names == InOrder(children.Keys)
      requires forall q :: q in t.index ==> t.index[q].Counted()
      modifies t.NodesBelow(path)`stats, t.NodesBelow(path)`log
      ensures KidsPrinted(old(t.Logs()), base, t.index.Keys, path, names, lines)
      ensures t.Shape()
      ensures forall q :: q in t.index ==> t.index[q].Counted()
      ensures KidsReported(old(t.Logs()), t.Logs(), path, names, onlyDelta)
      decreases Below(t.index.Keys, path), 0
    {
      hide Meaning, Lines, Printable, Visit, KidsPrinted, Closed, NameLt, InOrder, Kids, Below;
      hide KidsReported, NodeReported, Counted, PerfTree.Shape, PerfTree.NodesBelow, PerfTree.Logs;
      ghost var logs := t.Logs();
      ghost var paths := t.index.Keys;
      t.ChildrenAreKids(path);
      t.LogsOfNodes();
      lines := [];
      NoKids(logs, base, paths, path, onlyDelta);
      assert names[..0] == [];
      var i := 0;
      while i < |names|
        invariant 0 <= i <= |names|
        invariant t.Shape()
        invariant forall q :: q in t.index ==> t.index[q].Counted()
        invariant KidsReported(logs, t.Logs(), path, names[..i], onlyDelta)
        invariant KidsPrinted(logs, base, paths, path, names[..i], lines)
      {
        var kid := children[names[i]];
        ghost var p := path + [names[i]];
        t.KidPlace(path, names[i]);
        ghost var before := t.Logs();
        t.LogsOfNodes();
        StillToReport(logs, before, path, names, i, onlyDelta);
        var more := kid.ReportData(level + 1, onlyDelta, t, base);
        KidsPrintedStep(before, logs, base, paths, path, names, i, p, lines, more);
        OneMore(logs, before, t.Logs(), path, names, i, onlyDelta);
        lines := lines + more;
        i := i + 1;
      }
      assert names[..i] == names;
    }

    /** Frees everything below this node, then the node itself; `freed` lists the nodes in that order. */
    method Destroy(ghost t: PerfTree) returns (freed: seq<PerfNode>)
      requires t.Shape() && path in t.index && t.index[path] == this
      ensures t.Shape() && ListsOnce(freed, t.NodesBelow(path))
      decreases Below(t.index.Keys, path)
    {
      hide Closed, NameLt, InOrder, Kids, Below, ListsOnce, PerfTree.NodesBelow, PerfTree.KidNodes, PerfTree.Shape;
      var names := InOrder(children.Keys);
      t.ChildrenAreKids(path);
      freed := [];
      assert names[..0] == [];
      t.NoKidNodes(path);
      var i := 0;
      while i < |names|
        invariant 0 <= i <= |names| && t.Shape() && ListsOnce(freed, t.KidNodes(path, names[..i]))
      {
        var kid := children[names[i]];
        t.KidPlace(path, names[i]);
        var more := kid.Destroy(t);
        t.OneMoreKid(path, names, i);
        ListsMore(freed, more, t.KidNodes(path, names[..i]), t.NodesBelow(path + [names[i]]));
        freed := freed + more;
        i := i + 1;
      }
      assert names[..i] == names;
      t.AllKidNodes(path, names);
      ListsOne(this);
      ListsMore(freed, [this], t.KidNodes(path, names), {this});
      freed := freed + [this];
    }
  }

  class PerfTree {
    var root: PerfNode?
    var activeNode: seq<PerfNode>
    var activityCount: u64
    var countAtLastReport: u64

    ghost var index: map<Path, PerfNode>
    ghost var state: Tree
    ghost var Repr: set<object>

    /** A tree just allocated: no root yet, nothing on the stack. */
    ghost predicate Empty()
      reads this
    {
      && root == null && activeNode == [] && activityCount == countAtLastReport == 0
      && index == map[] && state == New() && Repr == {this}
    }

    ghost function Nodes(): set<PerfNode>
      reads this`index
    {
      set p | p in index :: index[p]
    }

    /**
     The nodes reachable from the root form a tree: one node per path, each knowing its path, its name and its
     owner, and linked from its parent under its name.
     */
    ghost predicate Shape()
      reads this`index, this`root, Nodes()`tree, Nodes()`children
    {
      && Closed(index.Keys)
      && root == index[[]]
      && (forall p :: p in index ==>
            && index[p].path == p && index[p].name == NameAt(p)
            && index[p].tree == (if p == [] then null else this))
      && (forall p, k :: p in index && k in index[p].children ==>
            p + [k] in index && index[p].children[k] == index[p + [k]])
      && (forall p {:trigger Parent(p)} :: p in index && p != [] ==> NameAt(p) in index[Parent(p)].children)
    }

    ghost function Logs(): map<Path, Log>
      reads this`index, Nodes()`log
    {
      map p | p in index :: index[p].log
    }

    ghost function NodesBelow(p: Path): set<PerfNode>
      reads this`index
    {
      set q | q in Below(index.Keys, p) :: index[q]
    }

    twostate lemma ShapeStays()
      requires old(Shape())
      requires unchanged(this`index, this`root)
      requires forall p :: p in index ==>
                 index[p].tree == old(index[p].tree) && index[p].children == old(index[p].children)
      ensures Shape()
    {}

    /** A change of the statistics of one node. */
    twostate lemma OneNodeChanged(p: Path)
      requires old(Shape()) && p in index && unchanged(this`index, this`root)
      requires forall n :: n in Nodes() ==> n.tree == old(n.tree) && n.children == old(n.children)
      requires forall n :: n in Nodes() && n != index[p] ==> n.log == old(n.log) && n.stats == old(n.stats)
      requires index[p].Counted() && forall q :: q in index ==> old(index[q].Counted())
      ensures Shape()
      ensures forall q :: q in index ==> index[q].Counted()
      ensures Logs() == old(Logs())[p := index[p].log]
    {
      hide Meaning, Shape;
      assert forall q :: q in index ==> index[q] in Nodes();
      assert Shape() by { ShapeStays(); }
      forall q | q in index && q != p ensures index[q] != index[p] {
        Place(p);
      }
    }

    lemma Place(p: Path)
      requires Shape() && p in index
      ensures index[p].path == p && index[p].name == NameAt(p)
      ensures index[p].tree == if p == [] then null else this
      ensures index[p] in Nodes() && forall q :: q in index ==> index[q].path == q
    {}

    lemma ChildrenAreKids(p: Path)
      requires Shape() && p in index
      ensures index[p].children.Keys == Kids(index.Keys, p) && Closed(index.Keys)
    {
      forall k ensures k in index[p].children <==> k in Kids(index.Keys, p) {
        KidIsBelow(index.Keys, p, k);
        if p + [k] in index {
          assert Parent(p + [k]) == p && NameAt(p + [k]) == k;
        }
      }
    }

    lemma KidPlace(p: Path, k: Name)
      requires Shape() && p in index && k in index[p].children
      ensures p + [k] in index && index[p].children[k] == index[p + [k]] && index[p + [k]].path == p + [k]
      ensures NodesBelow(p + [k]) <= NodesBelow(p)
      ensures Below(index.Keys, p + [k]) < Below(index.Keys, p)
    {
      KidIsBelow(index.Keys, p, k);
    }

    lemma LogsOfNodes()
      ensures Logs().Keys == index.Keys
    {}

    lemma StartLines(p: Path, base: nat, names: seq<Name>)
      requires Shape() && p in index && base <= |p| && index[p].Counted()
      requires names == InOrder(Kids(index.Keys, p))
      ensures Printable(Logs(), base, [p])
      ensures Lines(Logs(), base, [p]) == [Line(|p| - base, index[p].name, index[p].stats)]
      ensures forall more :: KidsPrinted(Logs(), base, index.Keys, p, names, more) ==>
                && Printable(Logs(), base, Visit(index.Keys, p))
                && Lines(Logs(), base, Visit(index.Keys, p)) == Lines(Logs(), base, [p]) + more
    {
      hide Meaning, Closed, VisitKids, Kids, Below, Printable, Lines;
      LinesOfOne(Logs(), base, p);
      forall more | KidsPrinted(Logs(), base, index.Keys, p, names, more)
        ensures Printable(Logs(), base, Visit(index.Keys, p))
        ensures Lines(Logs(), base, Visit(index.Keys, p)) == Lines(Logs(), base, [p]) + more
      {
        LinesConcat(Logs(), base, [p], VisitKids(index.Keys, p, names));
      }
    }

    lemma StartPlaces(p: Path, names: seq<Name>)
      requires Shape() && p in index
      requires names == InOrder(Kids(index.Keys, p))
      ensures index[p] in NodesBelow(p)
      ensures forall q :: q in index && p < q ==> q[|p|] in names
      ensures forall q :: q in index && q != p ==> index[q] != index[p]
    {
      assert p in Below(index.Keys, p);
      hide InOrder, NameLt, Kids, Below;
      forall q | q in index && p < q ensures q[|p|] in names {
        BranchIsKid(index.Keys, p, q);
      }
    }

    /** The nodes below the children `names` of `p`. */
    ghost function KidNodes(p: Path, names: seq<Name>): set<PerfNode>
      reads this`index
    {
      set q | q in index && p < q && q[|p|] in names :: index[q]
    }

    lemma NoKidNodes(p: Path)
      ensures ListsOnce([], KidNodes(p, []))
    {}

    lemma OneMoreKid(p: Path, names: seq<Name>, i: nat)
      requires Shape() && p in index && i < |names|
      requires forall a, b :: 0 <= a < b < |names| ==> names[a] != names[b]
      ensures KidNodes(p, names[..i + 1]) == KidNodes(p, names[..i]) + NodesBelow(p + [names[i]])
      ensures KidNodes(p, names[..i]) !! NodesBelow(p + [names[i]])
    {
      hide Shape;
      forall q
        ensures p + [names[i]] <= q <==> p < q && q[|p|] == names[i]
      {}
      forall k ensures k in names[..i + 1] <==> k in names[..i] || k == names[i] {}
      forall q, r | q in index && r in index && index[q] == index[r] ensures q == r { Place(q); }
      assert names[i] !in names[..i];
    }

    lemma AllKidNodes(p: Path, names: seq<Name>)
      requires Shape() && p in index && names == InOrder(Kids(index.Keys, p))
      ensures NodesBelow(p) == KidNodes(p, names) + {index[p]} && index[p] !in KidNodes(p, names)
    {
      hide Closed, NameLt, InOrder, Kids;
      StartPlaces(p, names);
    }

    /** The statistics of every node say what `state` records for its path. */
    ghost predicate Tallied()
      reads this`index, this`state, Nodes()
    {
      && state.logs.Keys == index.Keys
      && forall p :: p in index ==> index[p].log == state.logs[p] && index[p].Counted()
    }

    /** The stack holds the nodes on the way from the root to the top. */
    ghost predicate Stacked()
      reads this`index, this`state, this`activeNode
    {
      && |activeNode| == |state.top| + 1
      && forall i :: 0 <= i < |activeNode| ==> state.top[..i] in index && activeNode[i] == index[state.top[..i]]
    }

    /** Shape, statistics, stack and counters all agree with `state`. */
    ghost predicate Valid()
      reads this, Repr
    {
      && Repr == {this} + Nodes()
      && Shape()
      && WellFormed(state)
      && Tallied()
      && Stacked()
      && activityCount == Wrap(state.opens)
      && countAtLastReport == Wrap(state.reported)
    }

    constructor ()
      ensures Empty()
    {
      root, activeNode := null, [];
      activityCount, countAtLastReport := 0, 0;
      index, state, Repr := map[], New(), {this};
    }

    /** Creates the root and puts it on the stack. */
    method NewRoot()
      requires Empty()
      modifies this
      ensures Valid() && state == New() && index.Keys == {[]}
      ensures fresh(Repr - {this}) && this in Repr
    {
      hide Valid, New;
      root := new PerfNode.Root();
      activeNode := activeNode + [root];
      index := map[[] := root];
      Repr := {this, root};
      RootAlone();
    }

    lemma RootAlone()
      requires root != null && activeNode == [root] && index == map[[] := root] && Repr == {this, root}
      requires root.name == ROOT_NAME && root.path == [] && root.tree == null && root.children == map[]
      requires root.log == NewLog(true) && root.Counted() && state == New()
      requires activityCount == countAtLastReport == 0
      ensures Valid()
    {
      hide Wrap, Meaning, Counts, Calls;
      WrapOfWord(0);
      NewHasNoCalls();
      assert state.top[..0] == [] && index[[]] == root;
      assert Nodes() == {root};
      assert Shape() && Tallied() && Stacked();
    }

    /**
     Opens an element: pushes the found or created child of the top. Nodes that exist keep their place, so a path
     means the same object for the whole life of the tree.
     */
    method AddNode(name: Name) returns (node: PerfNode)
      requires Empty() || Valid()
      modifies Repr
      ensures Valid() && fresh(Repr - old(Repr))
      ensures state == Open(old(state), name)
      ensures state.top in index && node == index[state.top]
      ensures forall p :: p in old(index) ==> p in index && index[p] == old(index[p])
    {
      if |activeNode| == 0 {
        NewRoot();
      }
      node := Push(name);
    }

    /** The part of `AddNode` that follows once the stack is not empty. */
    method Push(name: Name) returns (node: PerfNode)
      requires Valid()
      modifies Repr
      ensures Valid() && fresh(Repr - old(Repr))
      ensures state == Open(old(state), name)
      ensures state.top in index && node == index[state.top]
      ensures forall p :: p in old(index) ==> p in index && index[p] == old(index[p])
    {
      hide Valid, Wrap, Add, Open, Nodes, PerfNode.Counted;
      PushFacts(name);
      var top := activeNode[|activeNode| - 1];
      node := top.AddChild(name);
      activeNode := activeNode + [node];
      activityCount := Add(activityCount, 1);
      node.tree := this;
      index := index[state.top + [name] := node];
      Repr := Repr + {node};
      state := Open(state, name);
      OpenParts(old(state), name);
      PushKeepsValid(name, top, node);
    }

    lemma PushFacts(name: Name)
      requires Valid()
      ensures activeNode != [] && state.top in index && activeNode[|activeNode| - 1] == index[state.top]
      ensures index[state.top].path == state.top && index[state.top] in Nodes()
      ensures this in Repr && Nodes() <= Repr && forall q :: q in index ==> index[q].path == q
      ensures var p, top := state.top + [name], index[state.top];
        && (name in top.children <==> p in index)
        && (p in index ==> && top.children[name] == index[p] && index[p] in Nodes() && index[p].tree == this
                           && index[p].path == p && index[p].name == name)
    {
      TopIsLast();
      ChildLookup(state.top, name);
    }

    twostate lemma PushKeepsValid(name: Name, new top: PerfNode, new node: PerfNode)
      requires old(Valid()) && state == Open(old(state), name) && root == old(root) && old(state).top in old(index)
      requires index == old(index)[old(state).top + [name] := node] && Repr == old(Repr) + {node}
      requires activeNode == old(activeNode) + [node]
      requires activityCount == Add(old(activityCount), 1) && countAtLastReport == old(countAtLastReport)
      requires node.tree == this && node.path == old(state).top + [name] && node.name == name
      requires if node.path in old(index) then node == old(index)[node.path]
               else fresh(node) && node.children == map[] && node.log == NewLog(false) && node.Counted()
      requires top == old(index)[old(state).top] && forall q :: q in old(index) ==> old(index)[q].path == q
      requires forall n :: n in old(Nodes()) ==>
                 && n.log == old(n.log) && n.stats == old(n.stats) && (n != node ==> n.tree == old(n.tree))
                 && (n != top ==> n.children == old(n.children))
      requires node.path in old(index) ==> top.children == old(top.children) && node.tree == old(node.tree)
      requires node.path !in old(index) ==> top.children == old(top.children)[name := node]
      ensures Valid()
    {
      hide Shape, Wrap, Tallied, Stacked, Meaning, Open, WellFormed;
      ChildPath(old(state).top, name);
      assert forall q :: q in old(index) ==> old(index)[q] in old(Nodes());
      OpenKeepsWellFormed(old(state), name);
      OpenParts(old(state), name);
      assert activityCount == Wrap(state.opens) by { WrapAdd(old(state).opens, 1); }
      assert Shape() by { ShapeGrows(node.path, node); }
      assert Tallied() by { TalliesGrow(node.path, node); }
      assert Stacked() by { StackGrows(node); }
      assert Repr == {this} + Nodes() by { NodesGrow(node.path, node); }
    }

    twostate lemma NodesGrow(p: Path, new node: PerfNode)
      requires index == old(index)[p := node]
      requires p in old(index) ==> node == old(index)[p]
      ensures Nodes() == old(Nodes()) + {node}
    {
      assert node == index[p];
      forall n | n in old(Nodes()) ensures n in Nodes() {
        var q :| q in old(index) && n == old(index)[q];
        assert n == index[q];
      }
    }

    lemma TopIsLast()
      requires Shape() && Stacked()
      ensures activeNode != [] && state.top in index && activeNode[|activeNode| - 1] == index[state.top]
      ensures index[state.top].path == state.top && index[state.top].name == NameAt(state.top)
      ensures index[state.top].tree == if state.top == [] then null else this
      ensures forall q :: q in index ==> index[q].path == q
      ensures index[state.top] in Nodes()
    {
      assert state.top[..|state.top|] == state.top;
    }

    lemma ChildLookup(p: Path, name: Name)
      requires Shape() && p in index
      ensures name in index[p].children <==> p + [name] in index
      ensures name in index[p].children ==>
                && index[p].children[name] == index[p + [name]] && index[p + [name]].tree == this
                && index[p + [name]].path == p + [name] && index[p + [name]].name == name
                && index[p + [name]] in Nodes()
    {
      ChildPath(p, name);
    }

    /** Linking a found or fresh node under its parent keeps the shape. */
    twostate lemma ShapeGrows(p: Path, new node: PerfNode)
      requires old(Shape()) && p != [] && Parent(p) in old(index)
      requires index == old(index)[p := node] && root == old(root)
      requires node.path == p && node.name == NameAt(p) && node.tree == this
      requires if p in old(index) then node == old(index[p]) else fresh(node) && node.children == map[]
      requires forall q :: q in old(index) ==> index[q].tree == old(index[q].tree)
      requires forall q :: q in old(index) && (p in old(index) || q != Parent(p)) ==>
                 index[q].children == old(index[q].children)
      requires p !in old(index) ==>
                 index[Parent(p)].children == old(index[Parent(p)].children)[NameAt(p) := node]
      ensures Shape()
    {
      PathParts(p);
      if p in old(index) {
        assert index == old(index);
      } else {
        forall q, k | q in index && k in index[q].children
          ensures q + [k] in index && index[q].children[k] == index[q + [k]]
        {
          ChildPath(q, k);
        }
        forall q {:trigger Parent(q)} | q in index && q != []
          ensures Parent(q) in index && NameAt(q) in index[Parent(q)].children
        {}
      }
    }

    twostate lemma TalliesGrow(p: Path, new node: PerfNode)
      requires old(Tallied()) && index == old(index)[p := node] && p == state.top
      requires state.logs == LogsWith(old(state).logs, p)
      requires if p in old(index) then node == old(index[p]) else node.log == NewLog(false) && node.Counted()
      requires forall q :: q in old(index) ==>
                 index[q].log == old(index[q].log) && index[q].stats == old(index[q].stats)
      ensures Tallied()
    {
      hide Meaning;
    }

    twostate lemma StackGrows(new node: PerfNode)
      requires old(Stacked()) && state.top != [] && Parent(state.top) == old(state).top
      requires index == old(index)[state.top := node]
      requires state.top in old(index) ==> node == old(index)[state.top]
      requires activeNode == old(activeNode) + [node]
      ensures Stacked()
    {
      forall i | 0 <= i < |activeNode|
        ensures state.top[..i] in index && activeNode[i] == index[state.top[..i]]
      {
        if i < |state.top| {
          assert state.top[..i] == old(state).top[..i];
        } else {
          assert state.top[..i] == state.top;
        }
      }
    }

    /** Pops the stack if the node is its top. */
    method CloseActiveNode(node: PerfNode)
      requires Valid() && node.path in index && index[node.path] == node && node.path != []
      modifies this
      ensures Valid() && Repr == old(Repr) && index == old(index)
      ensures state == CallTree.CloseNode(old(state), node.path)
    {
      hide Shape, WellFormed, Closed, PerfNode.Counted;
      TopIsLast();
      CloseKeepsWellFormed(state, node.path);
      var top := activeNode[|activeNode| - 1];
      Place(node.path);
      if node != top {
      } else {
        activeNode := activeNode[..|activeNode| - 1];
        state := state.(top := Parent(state.top));
        assert forall i :: 0 <= i < |activeNode| ==> state.top[..i] == old(state.top)[..i];
      }
    }

    /** Takes into `state` the one call that a node of this tree has just recorded. */
    ghost method Absorb(node: PerfNode, s: Sample)
      requires Repr == {this} + Nodes() && Shape() && WellFormed(state) && Stacked()
      requires activityCount == Wrap(state.opens) && countAtLastReport == Wrap(state.reported)
      requires state.logs.Keys == index.Keys && node.path in index && index[node.path] == node
      requires node.log == state.logs[node.path].Add(s)
      requires forall p :: p in index ==> index[p].Counted()
      requires forall p :: p in index && p != node.path ==> index[p].log == state.logs[p]
      modifies this`state
      ensures Valid() && state == AddCall(old(state), node.path, s)
    {
      hide Shape, Wrap, Meaning, WellFormed;
      AddCallKeepsWellFormed(state, node.path, s);
      state := AddCall(state, node.path, s);
    }

    /**
     The end of a call of an element of this tree: its node records the call, then leaves the stack if it is the top.
     Both the end of a record and an exit message do this.
     */
    method EndCall(node: PerfNode, deltaTime: u64, userCPU: u64, systemCPU: u64)
      requires Valid() && node.path in index && index[node.path] == node
      modifies Repr
      ensures Valid() && Repr == old(Repr) && index == old(index)
      ensures state == EndRecord(old(state), node.path, Sample(deltaTime, userCPU, systemCPU))
    {
      hide Meaning, Wrap, WellFormed, Closed, Shape, Tallied;
      Place(node.path);
      TalliesLogs();
      node.IncrementData(deltaTime, userCPU, systemCPU);
      ShapeStays();
      Absorb(node, Sample(deltaTime, userCPU, systemCPU));
      node.CloseNode();
    }

    /** No element opened since the last report, and only the root on the stack. */
    method IsInactive() returns (inactive: bool)
      requires Valid()
      ensures inactive <==> CallTree.IsInactive(state)
    {
      hide Wrap, Meaning, WellFormed, Closed;
      inactive := false;
      TopIsLast();
      RootPlace();
      if activityCount == countAtLastReport {
        if activeNode[|activeNode| - 1] == root {
          inactive := true;
        }
      }
    }

    /** Prints every node and starts new intervals; the activity so far counts as reported. */
    method ReportData() returns (lines: seq<Line>)
      requires Valid()
      modifies Repr
      ensures Valid() && Repr == old(Repr) && index == old(index)
      ensures state == Report(old(state))
      ensures lines == FullReport(old(state))
    {
      hide Meaning, Wrap, Closed, Lines, Printable, Visit, Tallied, Shape, WellFormed, NodesBelow, Nodes;
      hide NodeReported;
      RootPlace();
      TalliesLogs();
      lines := root.ReportData(0, false, this, 0);
      countAtLastReport := activityCount;
      state := Report(state);
      assert WellFormed(state) by { ReportKeepsWellFormed(old(state)); }
      assert Shape() by { ShapeStays(); }
      assert Tallied() by { TalliesReset(); }
    }

    /** Prints one node and everything below it, and changes nothing. */
    method ReportNode(node: PerfNode) returns (lines: seq<Line>)
      requires Valid() && node.path in index && index[node.path] == node
      modifies Repr
      ensures Valid() && Repr == old(Repr) && index == old(index) && state == old(state)
      ensures lines == NodeReport(state, node.path)
    {
      hide Meaning, Wrap, Closed, Lines, Printable, Visit, Tallied, Shape, WellFormed, NodesBelow, Nodes;
      hide NodeReported;
      Place(node.path);
      TalliesLogs();
      BelowAreNodes(node.path);
      lines := node.ReportData(0, true, this, |node.path|);
      assert Shape() by { ShapeStays(); }
      assert Tallied() by { TalliesStay(node.path); }
    }

    twostate lemma TalliesStay(p: Path)
      requires old(Tallied()) && index == old(index) && state == old(state)
      requires forall q :: q in index ==> index[q].Counted()
      requires NodeReported(old(Logs()), Logs(), p, true)
      ensures Tallied()
    {
      hide Meaning;
      assert old(Logs()) == old(state).logs;
      assert forall q :: q in index ==> Logs()[q] == index[q].log;
    }

    lemma TalliesLogs()
      requires Tallied()
      ensures Logs() == state.logs && index.Keys == state.logs.Keys
      ensures forall p :: p in index ==> index[p].Counted()
    {}

    twostate lemma TalliesReset()
      requires old(Tallied()) && index == old(index) && state == Report(old(state))
      requires forall p :: p in index ==> index[p].Counted()
      requires NodeReported(old(Logs()), Logs(), [], false)
      ensures Tallied()
    {
      hide Meaning;
      assert old(Logs()) == old(state).logs;
      assert forall p :: p in index ==> Logs()[p] == index[p].log;
    }

    /** Deletes the whole tree: frees each of its nodes once and nothing else. */
    method Destroy() returns (freed: seq<PerfNode>)
      requires Valid()
      ensures ListsOnce(freed, Nodes())
    {
      hide Meaning, Wrap, Closed;
      RootPlace();
      freed := root.Destroy(this);
      assert Below(index.Keys, []) == index.Keys;
    }

    lemma StateIsWellFormed()
      requires Valid()
      ensures WellFormed(state)
    {}

    lemma BelowAreNodes(p: Path)
      ensures NodesBelow(p) <= Nodes()
    {}

    lemma NodeIsThere(p: Path)
      requires Valid() && p in index
      ensures p in state.logs
    {}

    lemma OwnsItself()
      requires Valid()
      ensures this in Repr && Nodes() <= Repr
    {}

    lemma RootPlace()
      requires Shape()
      ensures [] in index && root == index[[]] && root != null && root.path == [] && root.tree == null
      ensures root in Nodes() && NodesBelow([]) == Nodes()
    {
      assert Below(index.Keys, []) == index.Keys;
    }
  }
}

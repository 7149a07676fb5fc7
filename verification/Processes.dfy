/** One profiled process: a call tree per thread, and the clock that times the reporting intervals. */
module Processes {
  import opened Words
  import opened NodeStats
  import opened CallTree
  import opened Reporting
  import opened PerfTrees

  type Tid = nat

  datatype Option<T> = None | Some(value: T)

  // ----- Clock ---------------------------------------------------------------------------------------

  /** Wall clock and CPU times in microseconds. */
  datatype Reading = Reading(wall: u64, user: u64, system: u64)

  function Since(now: Reading, mark: Reading): Reading {
    Reading(Sub(now.wall, mark.wall), Sub(now.user, mark.user), Sub(now.system, mark.system))
  }

  /** A time that leads from one moment to another: added to the first it gives the second, in 64 bits. */
  predicate Leads(from: u64, time: u64, to: u64) {
    (from + time) % 0x1_0000_0000_0000_0000 == to && (from <= to ==> from + time == to)
  }

  /** The same for the wall clock and both CPU times. */
  predicate Spans(mark: Reading, elapsed: Reading, now: Reading) {
    && Leads(mark.wall, elapsed.wall, now.wall)
    && Leads(mark.user, elapsed.user, now.user)
    && Leads(mark.system, elapsed.system, now.system)
  }

  lemma SinceSpans(now: Reading, mark: Reading)
    ensures Spans(mark, Since(now, mark), now)
  {
    SubLeads(now.wall, mark.wall);
    SubLeads(now.user, mark.user);
    SubLeads(now.system, mark.system);
  }

  lemma SubLeads(to: u64, from: u64)
    ensures Leads(from, Sub(to, from), to)
  {}

  datatype Operation = Elapsed | Marker

  class PerfClock {
    var timeStamp: Reading

    constructor ()
      ensures timeStamp == Reading(0, 0, 0)
    {
      timeStamp := Reading(0, 0, 0);
    }

    /** A marker stores the time; an elapsed operation replaces the stored mark by the time since it. */
    method Now(operation: Operation, now: Reading)
      modifies this
      ensures timeStamp == if operation == Marker then now else Since(now, old(timeStamp))
      ensures operation == Elapsed ==> Spans(old(timeStamp), timeStamp, now)
    {
      SinceSpans(now, timeStamp);
      if operation == Marker {
        timeStamp := now;
      } else {
        timeStamp := Reading(Sub(now.wall, timeStamp.wall), timeStamp.user, timeStamp.system);
        timeStamp := timeStamp.(user := Sub(now.user, timeStamp.user));
        timeStamp := timeStamp.(system := Sub(now.system, timeStamp.system));
      }
    }
  }

  // ----- The process as a value --------------------------------------------------------------------------

  datatype Process = Process(trees: map<Tid, Tree>, clock: Reading)

  function NewProcess(): Process {
    Process(map[], Reading(0, 0, 0))
  }

  /** Opens an element in a thread, whose tree is created when there is none; a new tree marks the clock. */
  function Enter(p: Process, tid: Tid, name: Name, now: Reading): Process {
    if tid in p.trees then p.(trees := p.trees[tid := Open(p.trees[tid], name)])
    else Process(p.trees[tid := Open(New(), name)], now)
  }

  lemma EnterSteps(p: Process, tid: Tid, name: Name, now: Reading)
    ensures tid in p.trees ==> Enter(p, tid, name, now) == p.(trees := p.trees[tid := Open(p.trees[tid], name)])
    ensures tid !in p.trees ==>
              var q := Process(p.trees[tid := New()], now);
              Enter(p, tid, name, now) == q.(trees := q.trees[tid := Open(New(), name)])
  {
    hide Open, New;
  }

  /** Applies a change to the tree of one thread, if there is one. */
  function Change(p: Process, tid: Tid, t: Tree): Process {
    if tid in p.trees then p.(trees := p.trees[tid := t]) else p
  }

  function CloseInactive(p: Process): Process {
    p.(trees := map tid | tid in p.trees && !IsInactive(p.trees[tid]) :: p.trees[tid])
  }

  ghost function Inactive(p: Process): set<Tid> {
    set t | t in p.trees && IsInactive(p.trees[t])
  }

  /** A full report of every tree; the clock is marked anew unless there is nothing to report. */
  function ReportAll(p: Process, mark: Reading): Process {
    if p.trees == map[] then p
    else Process(map tid | tid in p.trees :: Report(p.trees[tid]), mark)
  }

  lemma ReportAllParts(p: Process, mark: Reading, q: Process)
    requires q.trees.Keys == p.trees.Keys && forall t :: t in p.trees ==> q.trees[t] == Report(p.trees[t])
    requires q.clock == if p.trees == map[] then p.clock else mark
    ensures q == ReportAll(p, mark)
  {
    hide Report;
  }

  function ReportClosed(p: Process, mark: Reading): Process {
    ReportAll(CloseInactive(p), mark)
  }

  ghost predicate HasActive(trees: map<Tid, Tree>) {
    exists tid :: tid in trees && !IsInactive(trees[tid])
  }

  /** So there is something to report exactly when some tree is not inactive. */
  lemma ActiveTreesStay(p: Process)
    ensures CloseInactive(p).trees != map[] <==> HasActive(p.trees)
  {
    hide IsInactive;
    var kept := CloseInactive(p).trees;
    if HasActive(p.trees) {
      var tid :| tid in p.trees && !IsInactive(p.trees[tid]);
      assert tid in kept;
    }
    if kept != map[] {
      var tid :| tid in kept;
      assert !IsInactive(p.trees[tid]);
    }
  }

  function DropTree(p: Process, tid: Tid): Process {
    p.(trees := p.trees - {tid})
  }

  ghost function Gather(nodes: map<Tid, set<PerfNode>>, tids: set<Tid>): set<PerfNode> {
    set t, n | t in tids && t in nodes && n in nodes[t] :: n
  }

  lemma GatherMore(nodes: map<Tid, set<PerfNode>>, tids: set<Tid>, tid: Tid)
    requires tid in nodes
    ensures Gather(nodes, tids + {tid}) == Gather(nodes, tids) + nodes[tid]
  {
    forall n | n in Gather(nodes, tids) + nodes[tid] ensures n in Gather(nodes, tids + {tid}) {
      if n in nodes[tid] {
        assert tid in tids + {tid};
      } else {
        var t :| t in tids && t in nodes && n in nodes[t];
        assert t in tids + {tid};
      }
    }
  }

  /** Progress of closing: `threads` and `now` are what is left once only the threads `it` remain to be visited. */
  datatype Closing = Closing(threads: map<Tid, PerfTree>, now: Process, removed: bool, freed: set<PerfNode>)

  ghost predicate ClosedExcept(threads: map<Tid, PerfTree>, before: Process, nodes: map<Tid, set<PerfNode>>,
                               it: set<Tid>, c: Closing)
  {
    var gone := Inactive(before) - it;
    && it <= before.trees.Keys == threads.Keys == nodes.Keys
    && c.threads == threads - gone
    && c.now == before.(trees := before.trees - gone)
    && (c.removed <==> gone != {})
    && c.freed == Gather(nodes, gone)
  }

  function CloseOne(c: Closing, tid: Tid, inactive: bool, gone: set<PerfNode>): Closing {
    var here := if inactive then {tid} else {};
    Closing(c.threads - here, c.now.(trees := c.now.trees - here), c.removed || inactive, c.freed + gone)
  }

  lemma ClosingStarts(threads: map<Tid, PerfTree>, p: Process, nodes: map<Tid, set<PerfNode>>)
    requires p.trees.Keys == threads.Keys == nodes.Keys
    ensures ClosedExcept(threads, p, nodes, threads.Keys, Closing(threads, p, false, {}))
  {
    hide IsInactive;
    assert Inactive(p) - threads.Keys == {};
  }

  lemma ClosingGoesOn(threads: map<Tid, PerfTree>, p: Process, nodes: map<Tid, set<PerfNode>>,
                      it: set<Tid>, c: Closing, tid: Tid, inactive: bool)
    requires ClosedExcept(threads, p, nodes, it, c) && tid in it
    requires tid in p.trees && (inactive <==> IsInactive(p.trees[tid])) && tid in nodes
    ensures ClosedExcept(threads, p, nodes, it - {tid}, CloseOne(c, tid, inactive, if inactive then nodes[tid] else {}))
  {
    hide IsInactive;
    if IsInactive(p.trees[tid]) {
      assert Inactive(p) - (it - {tid}) == Inactive(p) - it + {tid};
      assert tid in Inactive(p) - (it - {tid});
    } else {
      assert Inactive(p) - (it - {tid}) == Inactive(p) - it;
    }
  }

  lemma StillThere(threads: map<Tid, PerfTree>, p: Process, nodes: map<Tid, set<PerfNode>>,
                   it: set<Tid>, c: Closing, tid: Tid)
    requires ClosedExcept(threads, p, nodes, it, c) && tid in it
    ensures tid in c.threads && tid in p.trees && tid in nodes && c.threads[tid] == threads[tid]
    ensures tid in c.now.trees && c.now.trees[tid] == p.trees[tid]
  {
    hide IsInactive;
  }

  lemma ClosingEnds(threads: map<Tid, PerfTree>, p: Process, nodes: map<Tid, set<PerfNode>>, c: Closing)
    requires ClosedExcept(threads, p, nodes, {}, c)
    ensures c.threads == threads - Inactive(p) && c.now == CloseInactive(p) && c.freed == Gather(nodes, Inactive(p))
    ensures c.removed <==> exists t :: t in p.trees && IsInactive(p.trees[t])
  {
    hide IsInactive;
    assert Inactive(p) - {} == Inactive(p);
    if t :| t in p.trees && IsInactive(p.trees[t]) {
      assert t in Inactive(p);
    }
  }

  /** Every tree but those of the threads `it` has been reported, and the report kept. */
  ghost predicate ReportedExcept(before: Process, now: Process, it: set<Tid>, reports: map<Tid, seq<Line>>) {
    && now.clock == before.clock && now.trees.Keys == before.trees.Keys && it <= before.trees.Keys
    && (forall t :: t in now.trees ==>
          now.trees[t] == if t in it then before.trees[t] else Report(before.trees[t]))
    && reports.Keys == before.trees.Keys - it
    && (forall t :: t in reports ==> WellFormed(before.trees[t]) && reports[t] == FullReport(before.trees[t]))
  }

  lemma ReportStep(before: Process, now: Process, it: set<Tid>, reports: map<Tid, seq<Line>>, t: Tid, lines: seq<Line>)
    requires ReportedExcept(before, now, it, reports) && t in it
    requires WellFormed(now.trees[t]) && lines == FullReport(now.trees[t])
    ensures ReportedExcept(before, Change(now, t, Report(now.trees[t])), it - {t}, reports[t := lines])
  {
    hide Report, FullReport, WellFormed;
  }

  // ----- The process as an object ------------------------------------------------------------------------

  class PerfProcess {
    var threads: map<Tid, PerfTree>
    const clock: PerfClock

    ghost var Repr: set<object>

    /** The trees of different threads share no object. */
    ghost predicate Owned()
      reads this, Repr
    {
      && this in Repr && clock in Repr
      && (forall t :: t in threads ==> threads[t] in Repr && threads[t] in threads[t].Repr)
      && (forall t :: t in threads ==>
            threads[t].Repr <= Repr && this !in threads[t].Repr && clock !in threads[t].Repr)
      && (forall t, u :: t in threads && u in threads && t != u ==> threads[t].Repr !! threads[u].Repr)
    }

    /** Every tree in the thread map has a root and a sound stack. */
    ghost predicate Valid()
      reads this, Repr
      ensures Valid() ==> Owned() && this in Repr
    {
      Owned() && forall t :: t in threads ==> threads[t].Valid()
    }

    ghost function View(): Process
      requires Owned()
      reads this, Repr
    {
      Process(map t | t in threads :: threads[t].state, clock.timeStamp)
    }

    constructor ()
      ensures Valid() && fresh(Repr) && View() == NewProcess()
    {
      threads := map[];
      clock := new PerfClock();
      new;
      Repr := {this, clock};
    }

    method GetTree(tid: Tid) returns (tree: PerfTree?)
      ensures tree == if tid in threads then threads[tid] else null
    {
      tree := null;
      if tid in threads {
        tree := threads[tid];
      }
    }

    /** Adds an empty tree for a thread that has none, and marks the clock in any case. */
    method NewTree(tid: Tid, now: Reading) returns (tree: PerfTree?)
      requires Valid()
      modifies Repr
      ensures Owned() && fresh(Repr - old(Repr))
      ensures View() == Process(if tid in old(threads) then old(View()).trees else old(View()).trees[tid := New()], now)
      ensures tid in old(threads) ==> tree == null && threads == old(threads)
      ensures tid !in old(threads) ==>
                tree != null && fresh(tree) && tree.Empty() && threads == old(threads)[tid := tree]
      ensures forall t :: t in old(threads) ==>
                && threads[t].Valid() && threads[t].state == old(threads[t].state)
                && threads[t].index == old(threads[t].index)
    {
      hide PerfTree.Valid, New, Owned, View;
      assert this in Repr && clock in Repr by { OwnsClock(); }
      tree := null;
      if tid !in threads {
        tree := new PerfTree();
        threads := threads[tid := tree];
        Repr := Repr + tree.Repr;
      }
      clock.Now(Marker, now);
      if tree == null {
        TreesKept();
      } else {
        TreeAdded(tid, tree);
      }
    }

    lemma OwnsClock()
      requires Owned()
      ensures this in Repr && clock in Repr
    {}

    twostate lemma TreesKept()
      requires old(Valid()) && threads == old(threads) && Repr == old(Repr)
      requires unchanged(old(Repr) - {this, clock})
      ensures Valid() && View() == Process(old(View()).trees, clock.timeStamp)
      ensures forall t :: t in threads ==> threads[t].index == old(threads[t].index)
    {
      hide PerfTree.Valid;
    }

    twostate lemma TreeAdded(tid: Tid, new tree: PerfTree)
      requires old(Valid()) && tid !in old(threads) && threads == old(threads)[tid := tree]
      requires fresh(tree) && tree.Empty() && Repr == old(Repr) + tree.Repr
      requires unchanged(old(Repr) - {this, clock})
      ensures Owned() && View() == Process(old(View()).trees[tid := New()], clock.timeStamp)
      ensures forall t :: t in old(threads) ==>
                && threads[t].Valid() && threads[t].state == old(threads[t].state)
                && threads[t].index == old(threads[t].index)
    {
      hide PerfTree.Valid, New;
      forall t | t in old(threads)
        ensures threads[t].Valid() && threads[t].Repr == old(threads[t].Repr)
        ensures threads[t].state == old(threads[t].state) && threads[t].index == old(threads[t].index)
      {}
    }

    /**
     Opens an element of a thread, as a starting record and an entry message both do: finds or creates the thread's
     tree and adds the node.
     */
    method EnterElement(tid: Tid, name: Name, now: Reading) returns (node: PerfNode)
      requires Valid()
      modifies Repr
      ensures Valid() && fresh(Repr - old(Repr))
      ensures View() == Enter(old(View()), tid, name, now)
      ensures threads.Keys == old(threads).Keys + {tid}
      ensures forall t :: t in old(threads) ==> threads[t] == old(threads[t])
      ensures forall t, p :: t in old(threads) && p in old(threads[t].index) ==>
                p in threads[t].index && threads[t].index[p] == old(threads[t].index[p])
      ensures threads[tid].state.top in threads[tid].index && node == threads[tid].index[threads[tid].state.top]
    {
      hide PerfTree.Valid, Owned, Enter, View;
      ghost var before := View();
      ViewKeys();
      var tree := GetTree(tid);
      if tree == null {
        tree := NewTree(tid, now);
      }
      label found:
      TreeIsOwned(tid);
      node := tree.AddNode(name);
      Repr := Repr + tree.Repr;
      OneTreeChanged@found(tid, tree);
      EnterSteps(before, tid, name, now);
    }

    lemma ViewKeys()
      requires Owned()
      ensures View().trees.Keys == threads.Keys && View().clock == clock.timeStamp
      ensures forall t :: t in threads ==> View().trees[t] == threads[t].state
    {}

    lemma TreeIsOwned(tid: Tid)
      requires Owned() && tid in threads
      ensures this in Repr && threads[tid] in Repr && threads[tid].Repr <= Repr && this !in threads[tid].Repr
    {}

    /** A change confined to one tree leaves the others, and their independence, as they were. */
    twostate lemma OneTreeChanged(tid: Tid, new tree: PerfTree)
      requires old(Owned()) && threads == old(threads) && tid in threads && tree == threads[tid]
      requires forall u :: u in threads && u != tid ==> old(threads[u].Valid())
      requires tree.Valid() && fresh(tree.Repr - old(tree.Repr)) && Repr == old(Repr) + tree.Repr
      requires unchanged(old(Repr) - old(tree.Repr) - {this})
      ensures Valid()
      ensures View() == old(View()).(trees := old(View()).trees[tid := tree.state])
      ensures forall u :: u in threads && u != tid ==> threads[u].index == old(threads[u].index)
    {
      hide PerfTree.Valid;
      tree.OwnsItself();
      forall u | u in threads && u != tid
        ensures threads[u].Valid() && threads[u].Repr == old(threads[u].Repr)
        ensures threads[u].state == old(threads[u].state) && threads[u].index == old(threads[u].index)
      {
        assert old(threads[u].Repr) !! old(tree.Repr);
      }
    }

    /** The end of a call of one of this process's elements. */
    method EndElement(ghost tid: Tid, tree: PerfTree, node: PerfNode, delta: u64, user: u64, system: u64)
      requires Valid() && tid in threads && tree == threads[tid]
      requires node.path in tree.index && tree.index[node.path] == node
      modifies Repr
      ensures Valid() && Repr == old(Repr) && threads == old(threads)
      ensures View() == Change(old(View()), tid, EndRecord(old(tree.state), node.path, Sample(delta, user, system)))
      ensures forall t :: t in threads ==> threads[t].index == old(threads[t].index)
    {
      hide PerfTree.Valid, Owned, EndRecord, View;
      ViewKeys();
      TreeIsOwned(tid);
      tree.EndCall(node, delta, user, system);
      OneTreeChanged(tid, tree);
    }

    /** A report of one thread, outside a report of the process. */
    method ReportTree(tid: Tid) returns (lines: seq<Line>)
      requires Valid()
      modifies Repr
      ensures Valid() && Repr == old(Repr) && threads == old(threads)
      ensures tid in threads ==> View() == Change(old(View()), tid, Report(old(View()).trees[tid]))
      ensures tid in threads ==> WellFormed(old(View()).trees[tid]) && lines == FullReport(old(View()).trees[tid])
      ensures tid !in threads ==> View() == old(View()) && lines == []
      ensures forall t :: t in threads ==> threads[t].index == old(threads[t].index)
    {
      hide PerfTree.Valid, Owned, Report, View, FullReport, WellFormed;
      ViewKeys();
      lines := [];
      var tree := GetTree(tid);
      if tree != null {
        TreeIsOwned(tid);
        tree.StateIsWellFormed();
        lines := tree.ReportData();
        OneTreeChanged(tid, tree);
      }
    }

    /** A report of one node alone: nothing changes. */
    method ReportNode(ghost tid: Tid, tree: PerfTree, node: PerfNode) returns (lines: seq<Line>)
      requires Valid() && tid in threads && tree == threads[tid]
      requires node.path in tree.index && tree.index[node.path] == node
      modifies Repr
      ensures Valid() && Repr == old(Repr) && threads == old(threads) && View() == old(View())
      ensures forall t :: t in threads ==> threads[t].index == old(threads[t].index)
      ensures tid in View().trees && WellFormed(View().trees[tid]) && node.path in View().trees[tid].logs
      ensures lines == NodeReport(View().trees[tid], node.path)
    {
      hide PerfTree.Valid, Owned, View, WellFormed, NodeReport;
      ViewKeys();
      TreeIsOwned(tid);
      tree.StateIsWellFormed();
      tree.NodeIsThere(node.path);
      lines := tree.ReportNode(node);
      OneTreeChanged(tid, tree);
      ViewKeys();
      assert View() == old(View());
    }

    /** Leaving trees out of the map leaves the others as they were. */
    twostate lemma TreesDropped(tids: set<Tid>)
      requires old(Valid()) && Repr == old(Repr) && threads == old(threads) - tids
      requires unchanged(old(Repr) - {this})
      ensures Valid() && View() == old(View()).(trees := old(View()).trees - tids)
      ensures forall t :: t in threads ==> threads[t].index == old(threads[t].index)
      ensures forall t :: t in threads ==> threads[t].Nodes() == old(threads[t].Nodes())
    {
      hide PerfTree.Valid;
    }

    /** Removes the tree of a thread, if it has one, whatever is open in it. */
    method RemoveTree(tid: Tid) returns (removed: bool, freed: seq<PerfNode>)
      requires Valid()
      modifies this
      ensures Valid() && Repr == old(Repr) && threads == old(threads) - {tid}
      ensures removed <==> tid in old(threads)
      ensures if removed then ListsOnce(freed, old(threads[tid].Nodes())) else freed == []
      ensures View() == DropTree(old(View()), tid)
    {
      hide PerfTree.Valid, Owned, View;
      removed, freed := false, [];
      if tid in threads {
        freed := threads[tid].Destroy();
        threads := threads - {tid};
        removed := true;
      }
      TreesDropped({tid});
    }

    ghost function NodesByThread(): map<Tid, set<PerfNode>>
      reads this, threads.Values
    {
      map t | t in threads :: threads[t].Nodes()
    }

    lemma NodesKeys()
      ensures NodesByThread().Keys == threads.Keys
      ensures forall t :: t in threads ==> NodesByThread()[t] == threads[t].Nodes()
    {}

    /** The nodes of different trees differ. */
    lemma TreesApart(t: Tid, gone: set<Tid>)
      requires Valid() && t in threads && t !in gone && gone <= threads.Keys
      ensures threads[t].Nodes() !! Gather(NodesByThread(), gone)
    {
      hide PerfTree.Shape, WellFormed, PerfTree.Tallied, PerfTree.Stacked;
      forall u | u in gone ensures threads[u].Nodes() !! threads[t].Nodes() {
        assert threads[u].Repr !! threads[t].Repr && threads[u].Nodes() <= threads[u].Repr;
      }
    }

    /** Deletes all trees, whatever is open in them: every node of every tree, each once. */
    method Destroy() returns (freed: seq<PerfNode>)
      requires Valid()
      ensures ListsOnce(freed, Gather(NodesByThread(), threads.Keys))
    {
      hide Valid, Owned, PerfTree.Valid, Gather, ListsOnce;
      ghost var nodes := NodesByThread();
      freed := [];
      var it := threads.Keys;
      assert ListsOnce(freed, Gather(nodes, threads.Keys - it)) by { NothingGathered(); }
      while it != {}
        invariant it <= threads.Keys && ListsOnce(freed, Gather(nodes, threads.Keys - it))
        decreases |it|
      {
        var tid :| tid in it;
        TreeIsValid(tid);
        TreesApart(tid, threads.Keys - it);
        var more := threads[tid].Destroy();
        ListsMore(freed, more, Gather(nodes, threads.Keys - it), nodes[tid]);
        GatherMore(nodes, threads.Keys - it, tid);
        assert threads.Keys - it + {tid} == threads.Keys - (it - {tid});
        freed := freed + more;
        it := it - {tid};
      }
      assert threads.Keys - it == threads.Keys;
    }

    lemma NothingGathered()
      ensures ListsOnce([], Gather(NodesByThread(), threads.Keys - threads.Keys))
    {}

    lemma TreeIsValid(tid: Tid)
      requires Valid() && tid in threads
      ensures threads[tid].Valid()
    {
      hide PerfTree.Valid;
    }

    /**
     Deletes every inactive tree and keeps every other tree as it is; `freed` is the set of nodes deleted. The
     map of RDKPerf is walked in key order; here the order is left open, as nothing depends on it.
     */
    method CloseInactiveThreads() returns (removed: bool, freed: set<PerfNode>)
      requires Valid()
      modifies this
      ensures Valid() && Repr == old(Repr)
      ensures threads == old(threads) - Inactive(old(View()))
      ensures View() == CloseInactive(old(View()))
      ensures removed <==> exists t :: t in old(View()).trees && IsInactive(old(View()).trees[t])
      ensures freed == Gather(old(NodesByThread()), Inactive(old(View())))
      ensures forall t :: t in threads ==> threads[t].index == old(threads[t].index)
    {
      hide PerfTree.Valid, IsInactive, Owned, View, Gather, NodesByThread, Inactive, CloseInactive, PerfTree.Nodes;
      hide ClosedExcept;
      ghost var before := View();
      ghost var nodes := NodesByThread();
      ghost var c := Closing(threads, before, false, {});
      ViewKeys();
      NodesKeys();
      ClosingStarts(threads, before, nodes);
      removed, freed := false, {};
      var it := threads.Keys;
      while it != {}
        invariant Valid() && Repr == old(Repr) && c == Closing(threads, View(), removed, freed)
        invariant ClosedExcept(old(threads), before, nodes, it, c)
        invariant forall t :: t in threads ==>
                    && t in old(threads) && t in nodes && threads[t] == old(threads)[t]
                    && threads[t].index == old(threads[t].index) && threads[t].Nodes() == nodes[t]
        decreases |it|
      {
        var tid :| tid in it;
        ViewKeys();
        StillThere(old(threads), before, nodes, it, c, tid);
        var inactive, gone := CloseIfInactive(tid);
        ClosingGoesOn(old(threads), before, nodes, it, c, tid, inactive);
        removed, freed := removed || inactive, freed + gone;
        c := CloseOne(c, tid, inactive, gone);
        it := it - {tid};
      }
      ClosingEnds(old(threads), before, nodes, c);
    }

    /** One step of `CloseInactiveThreads`: deletes and erases the tree of a thread if it is inactive. */
    method CloseIfInactive(tid: Tid) returns (inactive: bool, gone: set<PerfNode>)
      requires Valid() && tid in threads
      modifies this
      ensures Valid() && Repr == old(Repr)
      ensures inactive <==> IsInactive(old(threads[tid].state))
      ensures gone == if inactive then old(threads[tid].Nodes()) else {}
      ensures threads == old(threads) - (if inactive then {tid} else {})
      ensures View() == old(View()).(trees := old(View()).trees - (if inactive then {tid} else {}))
      ensures forall t :: t in threads ==>
                threads[t].index == old(threads[t].index) && threads[t].Nodes() == old(threads[t].Nodes())
    {
      hide PerfTree.Valid, IsInactive, Owned, View;
      var tree := threads[tid];
      gone := {};
      inactive := tree.IsInactive();
      if inactive {
        var freed := tree.Destroy();
        gone := set n | n in freed;
        threads := threads - {tid};
      }
      TreesDropped(if inactive then {tid} else {});
    }

    /**
     Reports every tree of the process, timing the interval since the clock was marked. The two readings are the
     times of the elapsed and of the marker operation. With no tree there is nothing to report.
     */
    method ReportData(now: Reading, mark: Reading) returns (elapsed: Option<Reading>, reports: map<Tid, seq<Line>>)
      requires Valid()
      modifies Repr
      ensures Valid() && Repr == old(Repr) && threads == old(threads)
      ensures View() == ReportAll(old(View()), mark)
      ensures elapsed == if old(threads) == map[] then None else Some(Since(now, old(View()).clock))
      ensures elapsed.Some? ==> Spans(old(View()).clock, elapsed.value, now)
      ensures reports.Keys == threads.Keys
      ensures forall t :: t in reports ==>
                WellFormed(old(View()).trees[t]) && reports[t] == FullReport(old(View()).trees[t])
      ensures forall t :: t in threads ==> threads[t].index == old(threads[t].index)
    {
      hide PerfTree.Valid, Owned, Report, View, FullReport, WellFormed, ReportAll;
      ghost var before := View();
      SinceSpans(now, before.clock);
      hide Spans;
      ViewKeys();
      assert this in Repr && clock in Repr by { OwnsClock(); }
      elapsed, reports := None, map[];
      assert before.trees == map[] <==> threads == map[];
      if threads != map[] {
        clock.Now(Elapsed, now);
        elapsed := Some(clock.timeStamp);
        clock.Now(Marker, mark);
        TreesKept();
        reports := ReportTrees();
      }
      ReportAllParts(before, mark, View());
    }

    /** The loop of `ReportData` over the trees; nothing depends on its order. */
    method ReportTrees() returns (reports: map<Tid, seq<Line>>)
      requires Valid()
      modifies Repr
      ensures Valid() && Repr == old(Repr) && threads == old(threads)
      ensures View().clock == old(View()).clock && View().trees.Keys == old(View()).trees.Keys
      ensures forall t :: t in View().trees ==> View().trees[t] == Report(old(View()).trees[t])
      ensures reports.Keys == threads.Keys == View().trees.Keys
      ensures forall t :: t in reports ==>
                WellFormed(old(View()).trees[t]) && reports[t] == FullReport(old(View()).trees[t])
      ensures forall t :: t in threads ==> threads[t].index == old(threads[t].index)
    {
      hide PerfTree.Valid, Owned, Report, View, FullReport, WellFormed;
      ghost var before := View();
      ghost var now := before;
      ViewKeys();
      reports := map[];
      var it := threads.Keys;
      while it != {}
        invariant threads == old(threads) && Repr == old(Repr) && Valid() && View() == now
        invariant it <= threads.Keys && ReportedExcept(before, now, it, reports)
        invariant forall t :: t in threads ==> threads[t].index == old(threads[t].index)
        decreases |it|
      {
        hide ReportedExcept, Change;
        var tid :| tid in it;
        ViewKeys();
        var lines := ReportTree(tid);
        ReportStep(before, now, it, reports, tid, lines);
        now := Change(now, tid, Report(now.trees[tid]));
        reports := reports[tid := lines];
        it := it - {tid};
      }
      ViewKeys();
    }

    /** The report of a whole process: inactive trees are removed, then the others are reported. */
    method ReportProcess(now: Reading, mark: Reading) returns (elapsed: Option<Reading>, reports: map<Tid, seq<Line>>)
      requires Valid()
      modifies Repr
      ensures Valid() && Repr == old(Repr)
      ensures threads == old(threads) - Inactive(old(View()))
      ensures View() == ReportClosed(old(View()), mark)
      ensures elapsed == if threads == map[] then None else Some(Since(now, old(View()).clock))
      ensures elapsed.Some? ==> Spans(old(View()).clock, elapsed.value, now)
      ensures reports.Keys == threads.Keys == View().trees.Keys
      ensures forall t :: t in reports ==>
                && t in old(View()).trees && WellFormed(old(View()).trees[t])
                && reports[t] == FullReport(old(View()).trees[t])
      ensures forall t :: t in threads ==> threads[t].index == old(threads[t].index)
    {
      hide PerfTree.Valid, Owned, View, Report, FullReport, WellFormed, IsInactive;
      ViewKeys();
      var removed, freed := CloseInactiveThreads();
      ViewKeys();
      elapsed, reports := ReportData(now, mark);
      ViewKeys();
    }

    /** A node of a thread's tree knows its path and its tree. */
    lemma NodeFacts(tid: Tid, p: Path)
      requires Valid() && tid in threads && p in threads[tid].index
      ensures var tree := threads[tid];
        && tree.index[p].path == p && tree.index[p].tree == (if p == [] then null else tree)
        && tid in View().trees && View().trees[tid] == tree.state && WellFormed(tree.state) && p in tree.state.logs
    {
      hide WellFormed, PerfTree.Shape;
      threads[tid].Place(p);
    }

    /** The top of a thread's stack, which always exists. */
    lemma TopFacts(tid: Tid)
      requires Valid() && tid in threads
      ensures var tree := threads[tid];
        && tree.activeNode != [] && tree.state.top in tree.index
        && tree.activeNode[|tree.activeNode| - 1] == tree.index[tree.state.top]
        && tree.index[tree.state.top].path == tree.state.top
        && tree.index[tree.state.top].name == NameAt(tree.state.top)
    {
      hide WellFormed;
      threads[tid].TopIsLast();
    }
  }
}

/** The service: it rebuilds the call trees of every process from the messages of their threads. */
module Service {
  import opened Words
  import opened NodeStats
  import opened CallTree
  import opened Reporting
  import opened PerfTrees
  import opened Processes
  import opened Messages

  /** A message with the clock readings made while it is handled. */
  datatype Event = Event(message: Message, now: Reading, mark: Reading)

  type State = map<Pid, Process>

  function WithTree(s: State, pid: Pid, tid: Tid, t: Tree): State {
    if pid in s then s[pid := Change(s[pid], tid, t)] else s
  }

  function TreeOf(s: State, pid: Pid, tid: Tid): Option<Tree> {
    if pid in s && tid in s[pid].trees then Some(s[pid].trees[tid]) else None
  }

  function ProcessOf(s: State, pid: Pid): Process {
    if pid in s then s[pid] else NewProcess()
  }

  /** What one message does to the service. */
  function Handle(s: State, e: Event): State {
    match e.message
    case Entry(pid, tid, name) => s[pid := Enter(ProcessOf(s, pid), tid, name, e.now)]
    case Exit(pid, tid, name, elapsed) =>
      (match TreeOf(s, pid, tid)
       case Some(t) => WithTree(s, pid, tid, ExitByName(t, name, Sample(elapsed, 0, 0)))
       case None => s)
    case ReportThread(pid, tid) =>
      (match TreeOf(s, pid, tid)
       case Some(t) => WithTree(s, pid, tid, Report(t))
       case None => s)
    case ReportProcess(pid) => if pid in s then s[pid := ReportClosed(s[pid], e.mark)] else s
    case CloseThread(pid, tid) => if pid in s then s[pid := DropTree(s[pid], tid)] else s
    case CloseProcess(pid) => s - {pid}
    case Threshold(_, _, _, _) => s
    case Unknown(_) => s
  }

  /** What the handler of a message returns. */
  predicate Answer(s: State, m: Message) {
    match m
    case Entry(_, _, _) => true
    case Exit(pid, tid, name, _) => var t := TreeOf(s, pid, tid); t.Some? && NameAt(t.value.top) == name
    case Threshold(pid, tid, _, us) => TreeOf(s, pid, tid).Some? && us > 0
    case ReportThread(pid, tid) => TreeOf(s, pid, tid).Some?
    case ReportProcess(pid) => pid in s
    case CloseThread(pid, tid) => TreeOf(s, pid, tid).Some?
    case CloseProcess(_) => true
    case Unknown(_) => false
  }

  function HandleAll(s: State, events: seq<Event>): State {
    if events == [] then s else Handle(HandleAll(s, events[..|events| - 1]), events[|events| - 1])
  }

  // ----- The message loop --------------------------------------------------------------------------------

  /** What one wait for a message returns. */
  datatype Received = Got(event: Event) | NoMessage | ExitQueue | MaxType

  const MAX_TIMEOUT := 6

  /** The loop ends with this wait: an exit or failed read, or the last of too many waits in a row without a message. */
  ghost predicate Ends(r: seq<Received>, i: nat)
    requires i < |r|
  {
    || r[i].ExitQueue? || r[i].MaxType?
    || (MAX_TIMEOUT <= i && forall j :: i - MAX_TIMEOUT <= j <= i ==> r[j].NoMessage?)
  }

  function Handled(r: seq<Received>): seq<Event> {
    if r == [] then [] else
      Handled(r[..|r| - 1]) + match r[|r| - 1] case Got(e) => [e] case _ => []
  }

  lemma HandledStep(s: State, r: seq<Received>, i: nat)
    requires i < |r|
    ensures HandleAll(s, Handled(r[..i + 1])) ==
            if r[i].Got? then Handle(HandleAll(s, Handled(r[..i])), r[i].event) else HandleAll(s, Handled(r[..i]))
  {
    hide Handle;
    assert r[..i + 1][..i] == r[..i];
    var h := Handled(r[..i + 1]);
    if r[i].Got? {
      assert h[..|h| - 1] == Handled(r[..i]);
    } else {
      assert h == Handled(r[..i]);
    }
  }

  /** The waits without a message at the end of what was received. */
  function Silence(r: seq<Received>): nat {
    if r == [] || !r[|r| - 1].NoMessage? then 0 else Silence(r[..|r| - 1]) + 1
  }

  lemma {:induction false} SilenceIsSuffix(r: seq<Received>, n: nat)
    requires n <= |r|
    ensures Silence(r) >= n <==> forall j :: |r| - n <= j < |r| ==> r[j].NoMessage?
    decreases |r|
  {
    if r == [] || n == 0 {
    } else {
      var before := r[..|r| - 1];
      SilenceIsSuffix(before, n - 1);
      assert forall j :: 0 <= j < |before| ==> r[j] == before[j];
    }
  }

  /** The loop ends with an exit or a failed read, or with the seventh wait in a row that brings no message. */
  lemma SeventhSilenceEnds(r: seq<Received>, i: nat)
    requires i < |r|
    ensures Ends(r, i) <==> r[i].ExitQueue? || r[i].MaxType? || Silence(r[..i + 1]) >= 7
  {
    if i < 6 {
      SilenceIsShort(r[..i + 1]);
    } else {
      SilenceIsSuffix(r[..i + 1], 7);
    }
  }

  lemma {:induction false} SilenceIsShort(r: seq<Received>)
    ensures Silence(r) <= |r|
  {
    if r == [] {
    } else {
      SilenceIsShort(r[..|r| - 1]);
    }
  }

  function MessagesIn(r: seq<Received>): set<nat> {
    set i: nat | i < |r| && r[i].Got?
  }

  lemma HandledAfter(r: seq<Received>)
    requires r != []
    ensures Handled(r) == Handled(r[..|r| - 1]) + if r[|r| - 1].Got? then [r[|r| - 1].event] else []
  {}

  lemma {:induction false} HandledInItsTurn(r: seq<Received>, i: nat)
    requires i < |r| && r[i].Got?
    ensures |Handled(r[..i])| < |Handled(r)| && Handled(r)[|Handled(r[..i])|] == r[i].event
    decreases |r|
  {
    hide Handled;
    HandledAfter(r);
    var before := r[..|r| - 1];
    if i < |before| {
      HandledInItsTurn(before, i);
      assert before[..i] == r[..i];
    }
  }

  lemma {:induction false} HandledAreReceived(r: seq<Received>)
    ensures |Handled(r)| == |MessagesIn(r)|
  {
    if r == [] {
    } else {
      var n := |r| - 1;
      HandledAreReceived(r[..n]);
      HandledAfter(r);
      hide Handled;
      assert MessagesIn(r) == MessagesIn(r[..n]) + if r[n].Got? then {n} else {};
    }
  }

  /** Each message received is handled, in its turn, and nothing else is. */
  lemma EveryMessageIsHandled(r: seq<Received>)
    ensures forall i :: 0 <= i < |r| && r[i].Got? ==>
              |Handled(r[..i])| < |Handled(r)| && Handled(r)[|Handled(r[..i])|] == r[i].event
    ensures |Handled(r)| == |MessagesIn(r)|
  {
    hide Handled, MessagesIn;
    HandledAreReceived(r);
    forall i | 0 <= i < |r| && r[i].Got?
      ensures |Handled(r[..i])| < |Handled(r)| && Handled(r)[|Handled(r[..i])|] == r[i].event
    {
      HandledInItsTurn(r, i);
    }
  }

  /** An exit is answered with success exactly when it changes the state: when it ends the top of its thread's stack. */
  lemma ExitIsAnsweredExactlyWhenItCounts(s: State, e: Event)
    requires e.message.Exit?
    requires var t := TreeOf(s, e.message.pid, e.message.tid); t.Some? ==> WellFormed(t.value)
    ensures Answer(s, e.message) <==> Handle(s, e) != s
  {
    var m := e.message;
    var t := TreeOf(s, m.pid, m.tid);
    if t.Some? {
      var u := ExitByName(t.value, m.name, Sample(m.elapsed, 0, 0));
      if Answer(s, m) {
        assert |u.logs[t.value.top].calls| == |t.value.logs[t.value.top].calls| + 1;
        hide WellFormed, EndRecord, ExitByName;
        assert Handle(s, e)[m.pid].trees[m.tid] == u != s[m.pid].trees[m.tid];
      } else {
        WithSameTree(s, m.pid, m.tid);
      }
    }
  }

  lemma WithSameTree(s: State, pid: Pid, tid: Tid)
    requires pid in s && tid in s[pid].trees
    ensures WithTree(s, pid, tid, s[pid].trees[tid]) == s
  {
    assert s[pid].trees[tid := s[pid].trees[tid]] == s[pid].trees;
    assert s[pid := s[pid]] == s;
  }

  class PerfService {
    var processes: map<Pid, PerfProcess>
    ghost var Repr: set<object>

    ghost predicate Owned()
      reads this, Repr
    {
      && this in Repr
      && (forall p :: p in processes ==> processes[p] in Repr && processes[p] in processes[p].Repr)
      && (forall p :: p in processes ==> processes[p].Repr <= Repr && this !in processes[p].Repr)
      && (forall p, q :: p in processes && q in processes && p != q ==> processes[p].Repr !! processes[q].Repr)
    }

    ghost predicate Valid()
      reads this, Repr
    {
      Owned() && forall p :: p in processes ==> processes[p].Valid()
    }

    ghost function View(): State
      requires Valid()
      reads this, Repr
    {
      map p | p in processes :: processes[p].View()
    }

    constructor ()
      ensures Valid() && fresh(Repr) && View() == map[]
    {
      processes := map[];
      Repr := {this};
    }

    lemma ProcessIsOwned(pid: Pid)
      requires Valid() && pid in processes
      ensures processes[pid].Valid() && processes[pid] in Repr && processes[pid].Repr <= Repr
      ensures this in Repr && this !in processes[pid].Repr
    {}

    lemma ViewKeys()
      requires Valid()
      ensures View().Keys == processes.Keys
      ensures forall p :: p in processes ==> processes[p].Valid() && View()[p] == processes[p].View()
      ensures forall p :: p in processes ==> View()[p].trees.Keys == processes[p].threads.Keys
      ensures forall p, t :: p in processes && t in processes[p].threads ==>
                View()[p].trees[t] == processes[p].threads[t].state
    {}

    /** A change confined to one process leaves the others as they were. */
    twostate lemma OneProcessChanged(pid: Pid, new process: PerfProcess)
      requires old(Valid()) && processes == old(processes)[pid := process]
      requires if pid in old(processes) then process == old(processes)[pid] else fresh(process)
      requires process.Valid() && Repr == old(Repr) + process.Repr
      requires pid in old(processes) ==> fresh(process.Repr - old(processes[pid].Repr))
      requires pid !in old(processes) ==> fresh(process.Repr)
      requires unchanged(old(Repr) - {this} - (if pid in old(processes) then old(processes[pid].Repr) else {}))
      ensures Valid() && View() == old(View())[pid := process.View()]
    {
      hide PerfProcess.Valid;
      forall q | q in old(processes) && q != pid
        ensures processes[q].Valid() && processes[q].View() == old(processes[q].View())
      {}
      hide PerfProcess.View;
      assert Owned();
    }

    twostate lemma ProcessesDropped(pids: set<Pid>)
      requires old(Valid()) && Repr == old(Repr) && processes == old(processes) - pids
      requires unchanged(old(Repr) - {this})
      ensures Valid() && View() == old(View()) - pids
    {
      hide PerfProcess.Valid;
      forall q | q in processes ensures processes[q].Valid() && processes[q].View() == old(processes[q].View()) {}
      hide PerfProcess.View;
      assert Owned();
    }

    /** The thread has a tree. */
    ghost predicate HasTree(pid: Pid, tid: Tid)
      reads this, processes.Values
    {
      pid in processes && tid in processes[pid].threads
    }

    /** The process with an id, or null. */
    method FindProcess(pid: Pid) returns (process: PerfProcess?)
      ensures process == if pid in processes then processes[pid] else null
    {
      process := null;
      if pid in processes {
        process := processes[pid];
      }
    }

    /** An element was entered: its process and its thread's tree are created if they are missing. */
    method HandleEntry(pid: Pid, tid: Tid, name: Name, now: Reading) returns (ok: bool)
      requires Valid()
      modifies Repr
      ensures Valid() && fresh(Repr - old(Repr))
      ensures ok && View() == old(View())[pid := Enter(ProcessOf(old(View()), pid), tid, name, now)]
    {
      hide PerfProcess.Valid, PerfProcess.View, PerfProcess.Owned, Owned, Valid, View, Enter, NewProcess;
      ViewKeys();
      ValidFacts();
      var process := FindProcess(pid);
      if process == null {
        process := new PerfProcess();
        processes := processes[pid := process];
      } else {
        ProcessIsOwned(pid);
      }
      assert processes == old(processes)[pid := process];
      var node := process.EnterElement(tid, name, now);
      Repr := Repr + process.Repr;
      OneProcessChanged(pid, process);
      ok := true;
    }

    lemma ValidFacts()
      requires Valid()
      ensures this in Repr
    {}

    /** The tree of a thread, or null; nothing is created. */
    method GetTree(pid: Pid, tid: Tid) returns (process: PerfProcess?, tree: PerfTree?)
      requires Valid()
      ensures process == if pid in processes then processes[pid] else null
      ensures tree == if pid in processes && tid in processes[pid].threads then processes[pid].threads[tid] else null
      ensures tree == null <==> TreeOf(View(), pid, tid) == None
      ensures tree != null ==> TreeOf(View(), pid, tid) == Some(tree.state)
    {
      hide PerfProcess.Valid, PerfProcess.View, PerfProcess.Owned, Owned, Valid, View;
      ViewKeys();
      process := FindProcess(pid);
      tree := null;
      if process != null {
        tree := process.GetTree(tid);
      }
    }

    /** An element was left: it ends if it is the top of its thread's stack, by name. */
    method HandleExit(pid: Pid, tid: Tid, name: Name, elapsed: u64) returns (ok: bool)
      requires Valid()
      modifies Repr
      ensures Valid() && Repr == old(Repr)
      ensures View() == match TreeOf(old(View()), pid, tid)
                        case Some(t) => WithTree(old(View()), pid, tid, ExitByName(t, name, Sample(elapsed, 0, 0)))
                        case None => old(View())
      ensures ok <==> Answer(old(View()), Exit(pid, tid, name, elapsed))
      ensures ok <==> old(HasTree(pid, tid)) && NameAt(old(processes[pid].threads[tid].state.top)) == name
    {
      hide PerfProcess.Valid, PerfProcess.View, PerfProcess.Owned, PerfTree.Valid, Owned, Valid, View, EndRecord;
      ViewKeys();
      ValidFacts();
      ok := false;
      var process, tree := GetTree(pid, tid);
      if tree != null {
        ProcessIsOwned(pid);
        process.TopFacts(tid);
        var node := tree.activeNode[|tree.activeNode| - 1];
        if node.name == name {
          process.EndElement(tid, tree, node, elapsed, 0, 0);
          OneProcessChanged(pid, process);
          ok := true;
        } else {
          WithSameTree(View(), pid, tid);
        }
      }
    }

    /** A threshold is kept in a node but never read; it changes nothing that the reports show. */
    method HandleThreshold(pid: Pid, tid: Tid, name: Name, us: int) returns (ok: bool)
      requires Valid()
      ensures ok <==> Answer(View(), Threshold(pid, tid, name, us))
      ensures ok <==> HasTree(pid, tid) && us > 0
    {
      hide PerfProcess.Valid, PerfProcess.View, PerfProcess.Owned, Owned, Valid, View;
      var process, tree := GetTree(pid, tid);
      ok := tree != null && us > 0;
    }

    method HandleReportThread(pid: Pid, tid: Tid) returns (ok: bool, lines: seq<Line>)
      requires Valid()
      modifies Repr
      ensures Valid() && Repr == old(Repr)
      ensures View() == match TreeOf(old(View()), pid, tid)
                        case Some(t) => WithTree(old(View()), pid, tid, Report(t))
                        case None => old(View())
      ensures ok <==> Answer(old(View()), Message.ReportThread(pid, tid))
      ensures ok <==> old(HasTree(pid, tid))
      ensures var t := TreeOf(old(View()), pid, tid);
              t.Some? ==> WellFormed(t.value) && lines == FullReport(t.value)
    {
      hide PerfProcess.Valid, PerfProcess.View, PerfProcess.Owned, PerfTree.Valid, Owned, Valid, View;
      hide Report, FullReport, WellFormed;
      ViewKeys();
      ValidFacts();
      ok, lines := false, [];
      var process, tree := GetTree(pid, tid);
      if tree != null {
        ProcessIsOwned(pid);
        lines := process.ReportTree(tid);
        OneProcessChanged(pid, process);
        ok := true;
      }
    }

    /** Inactive trees are removed before the rest is reported. */
    method HandleReportProcess(pid: Pid, now: Reading, mark: Reading)
      returns (ok: bool, elapsed: Option<Reading>, reports: map<Tid, seq<Line>>)
      requires Valid()
      modifies Repr
      ensures Valid() && Repr == old(Repr)
      ensures ok <==> pid in old(View())
      ensures View() == if ok then old(View())[pid := ReportClosed(old(View())[pid], mark)] else old(View())
      ensures ok ==> reports.Keys == View()[pid].trees.Keys
      ensures ok ==> forall t :: t in reports ==>
                && t in old(View())[pid].trees && WellFormed(old(View())[pid].trees[t])
                && reports[t] == FullReport(old(View())[pid].trees[t])
      ensures ok ==> elapsed == if reports == map[] then None else Some(Since(now, old(View())[pid].clock))
      ensures ok && elapsed.Some? ==> Spans(old(View())[pid].clock, elapsed.value, now)
    {
      hide PerfProcess.Valid, PerfProcess.View, PerfProcess.Owned, PerfTree.Valid, Owned, Valid, View;
      hide Report, FullReport, WellFormed;
      ViewKeys();
      ValidFacts();
      ok, elapsed, reports := false, None, map[];
      var process := FindProcess(pid);
      if process != null {
        ProcessIsOwned(pid);
        elapsed, reports := process.ReportProcess(now, mark);
        OneProcessChanged(pid, process);
        ok := true;
      }
    }

    method HandleCloseThread(pid: Pid, tid: Tid) returns (ok: bool)
      requires Valid()
      modifies Repr
      ensures Valid() && Repr == old(Repr)
      ensures View() == if pid in old(View()) then old(View())[pid := DropTree(old(View())[pid], tid)] else old(View())
      ensures ok <==> Answer(old(View()), Message.CloseThread(pid, tid))
      ensures ok <==> old(HasTree(pid, tid))
    {
      hide PerfProcess.Valid, PerfProcess.View, PerfProcess.Owned, PerfTree.Valid, Owned, Valid, View;
      ViewKeys();
      ValidFacts();
      ok := false;
      var process := FindProcess(pid);
      if process != null {
        ProcessIsOwned(pid);
        var freed;
        ok, freed := process.RemoveTree(tid);
        OneProcessChanged(pid, process);
      }
    }

    /** Deletes a process with all its trees; that succeeds even when the process is unknown. */
    method HandleCloseProcess(pid: Pid) returns (ok: bool, freed: seq<PerfNode>)
      requires Valid()
      modifies this
      ensures Valid() && Repr == old(Repr)
      ensures ok && View() == old(View()) - {pid}
      ensures if pid in old(processes)
              then ListsOnce(freed, Gather(old(processes[pid].NodesByThread()), old(processes[pid].threads.Keys)))
              else freed == []
    {
      hide PerfProcess.Valid, PerfProcess.View, PerfProcess.Owned, Owned, Valid, View;
      hide Gather, PerfProcess.NodesByThread;
      freed := [];
      var process := FindProcess(pid);
      if process != null {
        ProcessIsOwned(pid);
        freed := process.Destroy();
        processes := processes - {pid};
      }
      assert processes == old(processes) - {pid};
      ProcessesDropped({pid});
      ok := true;
    }

    /** Handles any message, whatever state the service is in. */
    method HandleMessage(e: Event) returns (ok: bool)
      requires Valid()
      modifies Repr
      ensures Valid() && fresh(Repr - old(Repr))
      ensures View() == Handle(old(View()), e)
      ensures ok <==> Answer(old(View()), e.message)
    {
      hide PerfProcess.Valid, PerfProcess.View, PerfProcess.Owned, Owned, Valid, View, Enter, NewProcess;
      ValidFacts();
      match e.message {
        case Entry(pid, tid, name) => ok := HandleEntry(pid, tid, name, e.now);
        case Exit(pid, tid, name, elapsed) => ok := HandleExit(pid, tid, name, elapsed);
        case Threshold(pid, tid, name, us) => ok := HandleThreshold(pid, tid, name, us);
        case ReportThread(pid, tid) =>
          var lines;
          ok, lines := HandleReportThread(pid, tid);
        case ReportProcess(pid) =>
          var elapsed, reports;
          ok, elapsed, reports := HandleReportProcess(pid, e.now, e.mark);
        case CloseThread(pid, tid) => ok := HandleCloseThread(pid, tid);
        case CloseProcess(pid) =>
          var freed;
          ok, freed := HandleCloseProcess(pid);
        case Unknown(_) => ok := false;
      }
    }

    /**
     Receives and handles messages until the first wait that ends the loop; `received` is what the successive waits
     return. When none of them ends the loop, it is still waiting after the last.
     */
    method RunLoop(received: seq<Received>) returns (ended: bool, waits: nat)
      requires Valid()
      modifies Repr
      ensures Valid() && fresh(Repr - old(Repr)) && waits <= |received|
      ensures forall i :: 0 <= i < waits - (if ended then 1 else 0) ==> !Ends(received, i)
      ensures if ended then waits > 0 && Ends(received, waits - 1) else waits == |received|
      ensures View() == HandleAll(old(View()), Handled(received[..waits]))
    {
      hide PerfProcess.Valid, PerfProcess.View, PerfProcess.Owned, Owned, Valid, View, Handle;
      var waiting := true;
      var timeouts := 0;
      waits := 0;
      ValidFacts();
      while waiting && waits < |received|
        invariant Valid() && fresh(Repr - old(Repr)) && this in Repr && waits <= |received|
        invariant 0 <= timeouts <= MAX_TIMEOUT + 1 && timeouts <= waits
        invariant waiting ==> forall j :: waits - timeouts <= j < waits ==> received[j].NoMessage?
        invariant waiting && timeouts < waits ==> !received[waits - timeouts - 1].NoMessage?
        invariant forall i :: 0 <= i < waits - (if waiting then 0 else 1) ==> !Ends(received, i)
        invariant waiting ==> timeouts <= MAX_TIMEOUT
        invariant !waiting ==> waits > 0 && Ends(received, waits - 1)
        invariant View() == HandleAll(old(View()), Handled(received[..waits]))
        decreases |received| - waits
      {
        var msg := received[waits];
        HandledStep(old(View()), received, waits);
        if msg.ExitQueue? || msg.MaxType? {
          waiting := false;
        } else if msg.NoMessage? {
          timeouts := timeouts + 1;
          if timeouts > MAX_TIMEOUT {
            waiting := false;
          }
        } else {
          timeouts := 0;
          var ok := HandleMessage(msg.event);
        }
        ValidFacts();
        waits := waits + 1;
      }
      ended := !waiting;
    }
  }
}

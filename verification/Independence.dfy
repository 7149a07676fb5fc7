/**
 The service is a product of independent automata, one per thread: the tree of a thread depends only on the messages
 that concern the thread, in their order, and not on how they are interleaved with the others.
 */
module Independence {
  import opened NodeStats
  import opened CallTree
  import opened Processes
  import opened Messages
  import opened Service

  /** The message can change the tree of this thread: it is from the thread, or for its whole process. */
  predicate Concerns(m: Message, pid: Pid, tid: Tid) {
    match m
    case Entry(p, t, _) => p == pid && t == tid
    case Exit(p, t, _, _) => p == pid && t == tid
    case ReportThread(p, t) => p == pid && t == tid
    case CloseThread(p, t) => p == pid && t == tid
    case ReportProcess(p) => p == pid
    case CloseProcess(p) => p == pid
    case Threshold(_, _, _, _) => false
    case Unknown(_) => false
  }

  /** What a message that concerns a thread does to its tree, seen from the thread alone. */
  function ThreadStep(t: Option<Tree>, m: Message): Option<Tree> {
    match m
    case Entry(_, _, name) => Some(Open(if t.Some? then t.value else New(), name))
    case Exit(_, _, name, elapsed) =>
      if t.Some? then Some(ExitByName(t.value, name, Sample(elapsed, 0, 0))) else None
    case ReportThread(_, _) => if t.Some? then Some(Report(t.value)) else None
    case ReportProcess(_) => if t.Some? && !IsInactive(t.value) then Some(Report(t.value)) else None
    case CloseThread(_, _) => None
    case CloseProcess(_) => None
    case _ => t
  }

  function ThreadRun(t: Option<Tree>, ms: seq<Message>): Option<Tree> {
    if ms == [] then t else ThreadStep(ThreadRun(t, ms[..|ms| - 1]), ms[|ms| - 1])
  }

  function Relevant(events: seq<Event>, pid: Pid, tid: Tid): seq<Message> {
    if events == [] then [] else
      var m := events[|events| - 1].message;
      Relevant(events[..|events| - 1], pid, tid) + if Concerns(m, pid, tid) then [m] else []
  }

  lemma OneMessage(s: State, e: Event, pid: Pid, tid: Tid)
    ensures TreeOf(Handle(s, e), pid, tid) ==
            if Concerns(e.message, pid, tid) then ThreadStep(TreeOf(s, pid, tid), e.message) else TreeOf(s, pid, tid)
  {
    hide IsInactive, Report, Open, New, ExitByName;
  }

  /** The tree of a thread is what the thread's own automaton makes of the messages that concern it. */
  lemma {:induction false} TreeFollowsItsThread(s: State, events: seq<Event>, pid: Pid, tid: Tid)
    ensures TreeOf(HandleAll(s, events), pid, tid)
            == ThreadRun(TreeOf(s, pid, tid), Relevant(events, pid, tid))
  {
    if events == [] {
    } else {
      hide Handle, ThreadStep, TreeOf;
      var before := events[..|events| - 1];
      var e := events[|events| - 1];
      TreeFollowsItsThread(s, before, pid, tid);
      OneMessage(HandleAll(s, before), e, pid, tid);
      if Concerns(e.message, pid, tid) {
        var ms := Relevant(events, pid, tid);
        assert ms[..|ms| - 1] == Relevant(before, pid, tid);
      } else {
        assert Relevant(events, pid, tid) == Relevant(before, pid, tid);
      }
    }
  }

  /** The service knows the process of a thread with these messages: an entry came after the last close. */
  predicate KnownAfter(known: bool, ms: seq<Message>) {
    if ms == [] then known else
      match ms[|ms| - 1]
      case Entry(_, _, _) => true
      case CloseProcess(_) => false
      case _ => KnownAfter(known, ms[..|ms| - 1])
  }

  ghost predicate KnownToSome(known: bool, events: seq<Event>, pid: Pid) {
    exists tid: Tid :: KnownAfter(known, Relevant(events, pid, tid))
  }

  lemma {:induction false} ProcessIsKnown(s: State, events: seq<Event>, pid: Pid)
    ensures pid in HandleAll(s, events) <==> KnownToSome(pid in s, events, pid)
  {
    if events == [] {
      assert KnownAfter(pid in s, Relevant(events, pid, 0)) == (pid in s);
    } else {
      hide Handle, Relevant;
      var before := events[..|events| - 1];
      var e := events[|events| - 1];
      ProcessIsKnown(s, before, pid);
      OneMessageKnown(HandleAll(s, before), e, pid);
      if tid: Tid :| KnownAfter(pid in s, Relevant(before, pid, tid)) {
        LastRelevant(events, pid, tid);
        assert e.message != CloseProcess(pid) ==> KnownAfter(pid in s, Relevant(events, pid, tid));
      }
      if tid: Tid :| KnownAfter(pid in s, Relevant(events, pid, tid)) {
        LastRelevant(events, pid, tid);
        assert (e.message.Entry? && e.message.pid == pid) || KnownAfter(pid in s, Relevant(before, pid, tid));
      }
      if e.message.Entry? && e.message.pid == pid {
        LastRelevant(events, pid, e.message.tid);
        assert KnownAfter(pid in s, Relevant(events, pid, e.message.tid));
      }
    }
  }

  lemma LastRelevant(events: seq<Event>, pid: Pid, tid: Tid)
    requires events != []
    ensures var ms, before := Relevant(events, pid, tid), Relevant(events[..|events| - 1], pid, tid);
      if Concerns(events[|events| - 1].message, pid, tid)
      then && ms == before + [events[|events| - 1].message]
           && ms != [] && ms[|ms| - 1] == events[|events| - 1].message && ms[..|ms| - 1] == before
      else ms == before
  {}

  lemma OneMessageKnown(s: State, e: Event, pid: Pid)
    ensures pid in Handle(s, e) <==>
              if e.message == CloseProcess(pid) then false
              else (e.message.Entry? && e.message.pid == pid) || pid in s
  {
    hide WithTree, Enter, ReportClosed, DropTree, ProcessOf, Report, ExitByName;
    match e.message {
      case Exit(p, t, _, _) => WithTreeKeys(s, p, t);
      case ReportThread(p, t) => WithTreeKeys(s, p, t);
      case _ =>
    }
  }

  lemma WithTreeKeys(s: State, p: Pid, tid: Tid)
    ensures forall t :: WithTree(s, p, tid, t).Keys == s.Keys
  {}

  /** Everything the service keeps but the interval clocks, which depend on when messages are handled. */
  function Forest(s: State): map<Pid, map<Tid, Tree>> {
    map p | p in s :: s[p].trees
  }

  ghost predicate SameForEachThread(a: seq<Event>, b: seq<Event>) {
    forall pid, tid :: Relevant(a, pid, tid) == Relevant(b, pid, tid)
  }

  /** However the messages of the threads are interleaved, the service builds the same trees for the same processes. */
  lemma InterleavingDoesNotMatter(s: State, a: seq<Event>, b: seq<Event>)
    requires SameForEachThread(a, b)
    ensures Forest(HandleAll(s, a)) == Forest(HandleAll(s, b))
  {
    hide HandleAll, KnownAfter;
    var x, y := HandleAll(s, a), HandleAll(s, b);
    forall pid ensures pid in x <==> pid in y {
      ProcessIsKnown(s, a, pid);
      ProcessIsKnown(s, b, pid);
      assert forall tid: Tid :: Relevant(a, pid, tid) == Relevant(b, pid, tid);
    }
    forall pid | pid in x ensures x[pid].trees == y[pid].trees {
      forall tid: Tid ensures TreeOf(x, pid, tid) == TreeOf(y, pid, tid) {
        TreeFollowsItsThread(s, a, pid, tid);
        TreeFollowsItsThread(s, b, pid, tid);
      }
      SameTrees(x, y, pid);
    }
  }

  lemma SameTrees(x: State, y: State, pid: Pid)
    requires pid in x && pid in y && forall tid: Tid :: TreeOf(x, pid, tid) == TreeOf(y, pid, tid)
    ensures x[pid].trees == y[pid].trees
  {
    forall tid: Tid
      ensures tid in x[pid].trees <==> tid in y[pid].trees
      ensures tid in x[pid].trees ==> x[pid].trees[tid] == y[pid].trees[tid]
    {
      assert TreeOf(x, pid, tid) == TreeOf(y, pid, tid);
    }
  }

  /** Two messages that never concern the same thread can be handled in either order. */
  lemma UnrelatedMessagesCommute(s: State, d: Event, e: Event)
    requires forall pid, tid :: !(Concerns(d.message, pid, tid) && Concerns(e.message, pid, tid))
    ensures Forest(HandleAll(s, [d, e])) == Forest(HandleAll(s, [e, d]))
  {
    hide HandleAll, Forest;
    forall pid, tid ensures Relevant([d, e], pid, tid) == Relevant([e, d], pid, tid) {
      assert [d, e][..1] == [d] && [e, d][..1] == [e];
      assert [d][..0] == [] && [e][..0] == [];
    }
    InterleavingDoesNotMatter(s, [d, e], [e, d]);
  }

  /** Messages of different processes can be handled in either order, the clocks included. */
  lemma DifferentProcessesCommute(s: State, d: Event, e: Event)
    requires !d.message.Unknown? && !e.message.Unknown? && d.message.pid != e.message.pid
    ensures Handle(Handle(s, d), e) == Handle(Handle(s, e), d)
  {
    hide Enter, ReportClosed, DropTree, Change, ExitByName, Report;
    OnlyItsProcess(s, d);
    OnlyItsProcess(s, e);
    OnlyItsProcess(Handle(s, d), e);
    OnlyItsProcess(Handle(s, e), d);
    SameProcess(s, Handle(s, d), e);
    SameProcess(s, Handle(s, e), d);
  }

  lemma OnlyItsProcess(s: State, e: Event)
    requires !e.message.Unknown?
    ensures Handle(s, e) - {e.message.pid} == s - {e.message.pid}
  {
    hide Enter, ReportClosed, DropTree, Change, ExitByName, Report;
  }

  lemma SameProcess(s: State, u: State, e: Event)
    requires !e.message.Unknown?
    requires var p := e.message.pid; (p in s <==> p in u) && (p in s ==> s[p] == u[p])
    ensures var p := e.message.pid;
      && (p in Handle(s, e) <==> p in Handle(u, e))
      && (p in Handle(s, e) ==> Handle(s, e)[p] == Handle(u, e)[p])
  {
    hide Enter, ReportClosed, DropTree, Change, ExitByName, Report;
  }
}

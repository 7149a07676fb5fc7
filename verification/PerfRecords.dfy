/**
 Record objects over the heap: what a record's constructor and destructor do to the objects of the process, and that the
 node a live record points to is never deleted under it. The steps are those of the in-process transition system.
 */
module PerfRecords {
  import opened Words
  import opened NodeStats
  import opened CallTree
  import opened Reporting
  import opened PerfTrees
  import opened Processes
  import opened Records
  import opened InProcess
  import opened ReportClock

  /** The fields of a record object. */
  datatype Fields = Fields(name: Name, tid: Tid, start: u64, node: PerfNode?)

  type Indexes = map<Tid, map<Path, PerfNode>>

  /** Every live record points to the node object at its path, in the tree object of its thread. */
  ghost predicate Linked(fields: map<Rid, Fields>, records: map<Rid, Record>, nodes: Indexes) {
    && fields.Keys == records.Keys
    && forall r :: r in fields ==>
         && fields[r].name == records[r].name && fields[r].tid == records[r].tid && fields[r].start == records[r].start
         && records[r].tid in nodes && records[r].path in nodes[records[r].tid]
         && fields[r].node == nodes[records[r].tid][records[r].path]
  }

  /** The nodes that exist stay where they are. */
  ghost predicate Grows(nodes: Indexes, more: Indexes) {
    forall t, p :: t in nodes && p in nodes[t] ==> t in more && p in more[t] && more[t][p] == nodes[t][p]
  }

  /** No live record points to a node of another thread's tree. */
  ghost predicate Apart(fields: map<Rid, Fields>, records: map<Rid, Record>, nodes: map<Tid, set<PerfNode>>) {
    forall r, t :: r in fields && r in records && t in nodes && t != records[r].tid ==> fields[r].node !in nodes[t]
  }

  lemma StartKeepsLinked(s: Program, fields: map<Rid, Fields>, nodes: Indexes, rid: Rid, e: Event, more: Indexes,
                         f: Fields)
    requires Linked(fields, s.records, nodes) && rid !in s.records && e.Start? && e.rid == rid && Grows(nodes, more)
    requires f.name == e.name && f.tid == e.tid && f.start == e.start && e.tid in more
    requires var p := TreeIn(s, e.tid).top + [e.name]; p in more[e.tid] && f.node == more[e.tid][p]
    ensures Linked(fields[rid := f], Step(s, e).records, more)
  {
    hide Enter;
  }

  lemma EndKeepsLinked(s: Program, fields: map<Rid, Fields>, nodes: Indexes, e: Event)
    requires Inv(s) && Linked(fields, s.records, nodes) && e.End? && e.rid in s.records
    ensures Linked(fields - {e.rid}, Step(s, e).records, nodes)
  {
    hide Inv, EndRecord;
    EndEffect(s, e.rid, e.end);
  }

  /** Only trees that no live record points into are left out. */
  lemma ReportKeepsLinked(s: Program, fields: map<Rid, Fields>, nodes: Indexes, mark: Reading, left: Indexes)
    requires Inv(s) && Linked(fields, s.records, nodes)
    requires forall t :: t in nodes && t in s.Trees() && !IsInactive(s.Trees()[t]) ==> t in left && left[t] == nodes[t]
    ensures Linked(fields, StepReport(s, mark).records, left)
  {
    hide Inv, IsInactive;
    ReportEffect(s, mark);
    forall r | r in fields ensures s.records[r].tid in left && left[s.records[r].tid] == nodes[s.records[r].tid] {
      RemovalNeedsNoRecord(s, s.records[r].tid, r);
    }
  }

  function ProcessIn(s: Program): Process {
    if s.process.Some? then s.process.value else NewProcess()
  }

  lemma StepProcess(s: Program, e: Event)
    requires Inv(s)
    ensures e.Start? && e.rid !in s.records ==>
              Step(s, e).process == Some(Enter(ProcessIn(s), e.tid, e.name, e.mark))
    ensures e.End? && e.rid in s.records ==>
              var r := s.records[e.rid];
              && NodeExists(s, r)
              && Step(s, e).process ==
                   Some(Change(s.process.value, r.tid, EndRecord(s.Trees()[r.tid], r.path, SampleOf(r, e.end))))
    ensures e.Report? ==>
              Step(s, e).process == if s.process.Some? then Some(ReportClosed(s.process.value, e.mark)) else None
    ensures e.ReportOne? ==>
              Step(s, e).process ==
                if e.tid in s.Trees() then Some(Change(s.process.value, e.tid, CallTree.Report(s.Trees()[e.tid])))
                else s.process
  {
    hide Sound, Enter, EndRecord, CallTree.Report, ReportClosed;
    if e.End? && e.rid in s.records {
      NodesExist(s, e.rid);
    }
  }

  /** The statics of the library in a profiled process: its own entry in the process map. The rest is ghost. */
  class PerfModule {
    var process: PerfProcess?

    ghost var records: map<Rid, PerfRecord>
    ghost var program: Program
    ghost var Repr: set<object>

    /** The process does not share objects with the module or with any record. */
    ghost predicate Owned()
      reads this, Repr
    {
      && this in Repr
      && (forall r :: r in records ==> records[r] in Repr)
      && (process != null ==>
            && process in Repr && process.Repr <= Repr && this !in process.Repr
            && forall r :: r in records ==> records[r] !in process.Repr)
    }

    ghost function RecordFields(): map<Rid, Fields>
      reads this`records, records.Values
    {
      map r | r in records :: records[r].View()
    }

    ghost function Nodes(): Indexes
      requires process != null ==> process.Owned()
      reads this`process, process, if process == null then {} else process.Repr
    {
      if process == null then map[] else map t | t in process.threads :: process.threads[t].index
    }

    /** The objects stand for a state of the transition system that keeps its invariant. */
    ghost predicate Valid()
      reads this, Repr
    {
      && Owned() && (process != null ==> process.Valid())
      && program.process == (if process == null then None else Some(process.View()))
      && Inv(program)
      && Linked(RecordFields(), program.records, Nodes())
    }

    constructor ()
      ensures Valid() && fresh(Repr) && program == Initial() && records == map[]
    {
      process, records, program := null, map[], Initial();
      Repr := {this};
    }

    /** A node that a live record points to belongs to a tree in the map, and knows that tree. */
    lemma RecordIsLinked(r: Rid)
      requires Valid() && r in records
      ensures r in program.records && process != null
      ensures var v := program.records[r];
        && v.tid in process.threads && process.threads[v.tid].Valid()
        && v.path != [] && v.path in process.threads[v.tid].index
        && records[r].nodeInTree == process.threads[v.tid].index[v.path]
        && records[r].nodeInTree.path == v.path && records[r].nodeInTree.tree == process.threads[v.tid]
        && records[r].idThread == v.tid && records[r].startTime == v.start
        && program.Trees()[v.tid] == process.threads[v.tid].state
    {
      hide Inv, PerfTree.Valid;
      assert r in RecordFields();
      process.ViewKeys();
      process.NodeFacts(program.records[r].tid, program.records[r].path);
      RecordPath(program, r);
    }

    lemma RecordPath(s: Program, r: Rid)
      requires Inv(s) && r in s.records
      ensures s.records[r].path != []
    {
      hide Sound;
      RecordFacts(s, r);
    }

    twostate lemma StartKeepsValid(rid: Rid, new e: Event, new record: PerfRecord)
      requires old(Valid()) && e.Start? && e.rid == rid && rid !in old(records)
      requires process != null && process.Valid()
      requires process.View() == Enter(ProcessIn(old(program)), e.tid, e.name, e.mark)
      requires if old(process) == null then fresh(process.Repr)
               else process == old(process) && fresh(process.Repr - old(process.Repr))
      requires Grows(old(Nodes()), Nodes())
      requires e.tid in process.threads
      requires var t := process.threads[e.tid]; t.state.top in t.index && record.nodeInTree == t.index[t.state.top]
      requires record !in old(Repr) && record !in process.Repr
      requires record.elementName == e.name && record.idThread == e.tid && record.startTime == e.start
      requires records == old(records)[rid := record] && Repr == old(Repr) + process.Repr + {record}
      requires program == Step(old(program), e)
      requires forall r :: r in old(records) ==> records[r].nodeInTree == old(records[r].nodeInTree)
      ensures Valid()
    {
      hide PerfProcess.Valid, PerfProcess.Owned, PerfProcess.View, PerfTree.Valid, Inv, Step, Enter, Grows, Linked;
      assert rid !in old(program).records by { LiveKeys(); }
      StepProcess(old(program), e);
      StepKeepsInv(old(program), e);
      assert RecordFields() == old(RecordFields())[rid := record.View()];
      assert Owned();
      TopAfterEntering(old(program), e.tid, e.name, e.mark);
      StartKeepsLinked(old(program), old(RecordFields()), old(Nodes()), rid, e, Nodes(), record.View());
    }

    lemma TopAfterEntering(s: Program, tid: Tid, name: Name, mark: Reading)
      requires process != null && process.Owned() && tid in process.threads
      requires process.View() == Enter(ProcessIn(s), tid, name, mark)
      ensures process.threads[tid].state.top == TreeIn(s, tid).top + [name]
    {
      hide Enter, Open;
      EnterTree(s, tid, name, mark);
      OpenParts(TreeIn(s, tid), name);
      process.ViewKeys();
    }

    /** What the constructor of a record does to the process, which it creates when it is missing. */
    method EnterElement(tid: Tid, name: Name, mark: Reading) returns (node: PerfNode)
      requires Valid()
      modifies Repr
      ensures process != null && process.Valid() && process.View() == Enter(ProcessIn(old(program)), tid, name, mark)
      ensures if old(process) == null then fresh(process.Repr)
              else process == old(process) && fresh(process.Repr - old(process.Repr))
      ensures Grows(old(Nodes()), Nodes())
      ensures tid in process.threads
      ensures var t := process.threads[tid]; t.state.top in t.index && node == t.index[t.state.top]
      ensures records == old(records) && program == old(program) && Repr == old(Repr)
      ensures forall r :: r in old(records) ==>
                records[r] in Repr && records[r].nodeInTree == old(records[r].nodeInTree)
      ensures this in Repr && this !in process.Repr && forall o :: o in process.Repr ==> o in Repr || fresh(o)
    {
      hide PerfProcess.Valid, PerfProcess.Owned, PerfProcess.View, PerfTree.Valid, Inv, Enter, Linked;
      ghost var before := ProcessIn(program);
      if process == null {
        process := new PerfProcess();
      }
      assert process.View() == before;
      node := process.EnterElement(tid, name, mark);
    }

    /** Opens the element of a record that is being constructed, and points the record to its node. */
    method OpenRecord(ghost rid: Rid, record: PerfRecord, mark: Reading)
      requires Valid() && rid !in records && record !in Repr
      modifies Repr, record`nodeInTree
      ensures Valid() && fresh(Repr - old(Repr) - {record})
      ensures records == old(records)[rid := record]
      ensures program == Step(old(program), Start(rid, record.idThread, record.elementName, record.startTime, mark))
    {
      hide Valid, Owned, PerfProcess.Valid, PerfProcess.Owned, PerfProcess.View, PerfTree.Valid;
      hide Inv, Step, Enter, Grows, Linked, Nodes;
      ghost var e := Start(rid, record.idThread, record.elementName, record.startTime, mark);
      var node := EnterElement(record.idThread, record.elementName, mark);
      record.nodeInTree := node;
      Repr := Repr + process.Repr + {record};
      records := records[rid := record];
      program := Step(program, e);
      StartKeepsValid(rid, e, record);
    }

    /** A change of the process that keeps its nodes where they are, at the end of a record. */
    twostate lemma EndKeepsValid(rid: Rid, new e: Event)
      requires old(Valid()) && e.End? && e.rid == rid && rid in old(program).records
      requires process != null && process == old(process) && process.Valid() && process.Repr == old(process.Repr)
      requires Some(process.View()) == Step(old(program), e).process && Nodes() == old(Nodes())
      requires records == old(records) - {rid} && Repr == old(Repr) && program == Step(old(program), e)
      requires forall r :: r in records ==> records[r].nodeInTree == old(records[r].nodeInTree)
      ensures Valid()
    {
      hide PerfProcess.Valid, PerfProcess.Owned, PerfProcess.View, PerfTree.Valid, Inv, Step, Linked, Nodes;
      StepKeepsInv(old(program), e);
      assert program.process == Some(process.View());
      assert RecordFields() == old(RecordFields()) - {rid};
      EndKeepsLinked(old(program), old(RecordFields()), old(Nodes()), e);
    }

    /** What the destructor of a record does to the process, and what it prints. */
    method EndElement(ghost rid: Rid, record: PerfRecord, ghost e: Event, end: u64) returns (lines: seq<Line>)
      requires Valid() && rid in records && record == records[rid] && e.End? && e.rid == rid && e.end == end
      modifies Repr
      ensures records == old(records) && program == old(program) && Repr == old(Repr)
      ensures process != null && process == old(process) && process.Valid() && process.Repr == old(process.Repr)
      ensures Some(process.View()) == Step(old(program), e).process && Nodes() == old(Nodes())
      ensures this in Repr && this !in process.Repr
      ensures forall r :: r in records ==> records[r].nodeInTree == old(records[r].nodeInTree)
      ensures rid in program.records
      ensures var r := program.records[rid];
        && r.tid in process.View().trees && WellFormed(process.View().trees[r.tid])
        && r.path in process.View().trees[r.tid].logs
        && lines == if 0 < old(record.thresholdInUs) < Sub(end, r.start)
                    then NodeReport(process.View().trees[r.tid], r.path) else []
    {
      hide PerfProcess.Valid, PerfProcess.Owned, PerfProcess.View, PerfTree.Valid, Inv, Step, Linked;
      hide WellFormed, NodeReport, EndRecord;
      RecordIsLinked(rid);
      StepProcess(program, e);
      var delta := Sub(end, record.startTime);
      process.EndElement(record.idThread, record.nodeInTree.tree, record.nodeInTree, delta, 0, 0);
      process.NodeFacts(record.idThread, record.nodeInTree.path);
      lines := [];
      if record.thresholdInUs > 0 && delta > record.thresholdInUs {
        lines := process.ReportNode(record.idThread, record.nodeInTree.tree, record.nodeInTree);
      }
    }

    /**
     The end of a record: its node takes the elapsed time and leaves the stack if it is the top. When the time exceeds
     the record's threshold, the node is then reported with everything below it, which changes nothing.
     */
    method CloseRecord(ghost rid: Rid, record: PerfRecord, ghost caller: Tid, end: u64) returns (lines: seq<Line>)
      requires Valid() && rid in records && record == records[rid]
      modifies Repr
      ensures Valid() && Repr == old(Repr)
      ensures records == old(records) - {rid} && program == Step(old(program), End(rid, caller, end))
      ensures rid in old(program).records
      ensures var r := old(program).records[rid];
        && r.tid in program.Trees() && WellFormed(program.Trees()[r.tid]) && r.path in program.Trees()[r.tid].logs
        && lines == if 0 < old(record.thresholdInUs) < Sub(end, r.start)
                    then NodeReport(program.Trees()[r.tid], r.path) else []
    {
      hide Valid, Owned, PerfProcess.Valid, PerfProcess.Owned, PerfProcess.View, PerfTree.Valid, Nodes;
      hide Inv, Step, Linked, WellFormed, NodeReport;
      ghost var e := End(rid, caller, end);
      lines := EndElement(rid, record, e, end);
      records := records - {rid};
      program := Step(program, e);
      EndKeepsValid(rid, e);
    }

    /** A report keeps every tree that a live record points into, whatever it does to the statistics. */
    twostate lemma ReportKeepsValid(e: Event)
      requires old(Valid()) && (e.Report? || e.ReportOne?)
      requires process != null && process == old(process) && process.Valid() && process.Repr == old(process.Repr)
      requires Some(process.View()) == Step(old(program), e).process
      requires forall t :: t in process.threads ==>
                 t in old(process.threads) && process.threads[t].index == old(process.threads[t].index)
      requires e.ReportOne? ==> process.threads.Keys == old(process.threads).Keys
      requires records == old(records) && Repr == old(Repr) && program == Step(old(program), e)
      requires forall r :: r in records ==> records[r].nodeInTree == old(records[r].nodeInTree)
      ensures Valid()
    {
      hide PerfProcess.Valid, PerfTree.Valid, Inv, StepReport, IsInactive, CallTree.Report, Linked;
      StepKeepsInv(old(program), e);
      assert RecordFields() == old(RecordFields());
      process.ViewKeys();
      if e.Report? {
        ReportEffect(old(program), e.mark);
        ReportKeepsLinked(old(program), old(RecordFields()), old(Nodes()), e.mark, Nodes());
      } else {
        assert Nodes() == old(Nodes());
      }
    }

    /** A live record's node belongs to the tree of its own thread, so to no other tree. */
    lemma NodesApart()
      requires Valid() && process != null
      ensures Apart(RecordFields(), program.records, process.NodesByThread())
    {
      forall r, t | r in records && t in process.threads && r in program.records && t != program.records[r].tid
        ensures records[r].nodeInTree !in process.threads[t].Nodes()
      {
        hide Inv, Linked, PerfTree.Shape, WellFormed, PerfTree.Tallied, PerfTree.Stacked;
        RecordIsLinked(r);
        var own := process.threads[program.records[r].tid];
        assert own.index[program.records[r].path] in own.Nodes();
      }
    }

    /** The trees that are still there include those of all live records. */
    lemma NoneDeleted(nodes: map<Tid, set<PerfNode>>)
      requires Valid() && process != null && Apart(RecordFields(), program.records, nodes)
      ensures forall r, t :: r in records && t in nodes && t !in process.threads ==> records[r].nodeInTree !in nodes[t]
    {
      hide Inv, PerfProcess.Valid;
      forall r | r in records ensures r in program.records && program.records[r].tid in process.threads {
        assert r in RecordFields();
      }
    }

    lemma ReportKeepsRecords(s: Program, e: Event)
      requires e.Report? || e.ReportOne?
      ensures Step(s, e).records == s.records
    {
      hide IsInactive, CallTree.Report;
    }

    lemma NothingToReport(s: Program, e: Event)
      requires e.Report? && s.process.None?
      ensures Step(s, e) == s
    {}

    /** The report of one thread. Before any record has created the process, RDKPerf has none to look in. */
    method ReportThread(tid: Tid) returns (lines: seq<Line>)
      requires Valid() && process != null
      modifies Repr
      ensures Valid() && Repr == old(Repr) && records == old(records) && process == old(process)
      ensures program == Step(old(program), ReportOne(tid))
      ensures tid in old(program).Trees() ==>
                WellFormed(old(program).Trees()[tid]) && lines == FullReport(old(program).Trees()[tid])
      ensures tid !in old(program).Trees() ==> lines == []
    {
      hide PerfProcess.Valid, PerfProcess.Owned, PerfProcess.View, PerfTree.Valid, Inv, Step, Linked;
      hide CallTree.Report, WellFormed, FullReport;
      ghost var e := ReportOne(tid);
      StepProcess(program, e);
      process.ViewKeys();
      lines := process.ReportTree(tid);
      program := Step(program, e);
      ReportKeepsValid(e);
    }

    /**
     The report of the process. A tree that it deletes holds no node of a live record; it prints an elapsed time as the
     transition system says.
     */
    method ReportProcess(now: Reading, mark: Reading) returns (elapsed: Option<Reading>, reports: map<Tid, seq<Line>>)
      requires Valid()
      modifies Repr
      ensures Valid() && Repr == old(Repr) && records == old(records) && process == old(process)
      ensures program == Step(old(program), Event.Report(now, mark))
      ensures process != null ==>
                forall r, t :: r in records && t in old(process.threads) && t !in process.threads ==>
                  records[r].nodeInTree !in old(process.NodesByThread())[t]
      ensures forall r :: r in records ==> records[r].nodeInTree == old(records[r].nodeInTree)
      ensures elapsed == Printed(old(program), now)
      ensures reports.Keys == program.Trees().Keys
      ensures forall t :: t in reports ==>
                && t in old(program).Trees() && WellFormed(old(program).Trees()[t])
                && reports[t] == FullReport(old(program).Trees()[t])
    {
      hide PerfProcess.Valid, PerfProcess.Owned, PerfProcess.View, PerfTree.Valid, Inv, Step, Linked, Apart;
      hide PerfTree.Nodes, WellFormed, FullReport, IsInactive, CallTree.Report;
      ghost var e := Event.Report(now, mark);
      StepProcess(program, e);
      elapsed, reports := None, map[];
      if process != null {
        ghost var nodes := process.NodesByThread();
        assert Apart(RecordFields(), program.records, nodes) by { NodesApart(); }
        elapsed, reports := process.ReportProcess(now, mark);
        program := Step(program, e);
        ReportKeepsValid(e);
        assert program.records == old(program).records by { ReportKeepsRecords(old(program), e); }
        NoneDeleted(nodes);
      } else {
        NothingToReport(program, e);
      }
    }

    twostate lemma LiveKeys()
      requires old(Valid())
      ensures old(records).Keys == old(program).records.Keys
    {
      assert old(RecordFields()).Keys == old(records).Keys;
    }
  }

  class PerfRecord {
    const elementName: Name
    const idThread: Tid
    const startTime: u64
    var nodeInTree: PerfNode?
    var thresholdInUs: i32

    ghost function View(): Fields
      reads this
    {
      Fields(elementName, idThread, startTime, nodeInTree)
    }

    /** Thresholds are not part of what the records and trees stand for. */
    method SetThreshold(ghost m: PerfModule, ghost rid: Rid, us: i32)
      requires m.Valid() && rid in m.records && m.records[rid] == this
      modifies this`thresholdInUs
      ensures m.Valid() && thresholdInUs == us
      ensures m.Repr == old(m.Repr) && m.records == old(m.records) && m.program == old(m.program)
    {
      hide PerfProcess.Valid, PerfProcess.Owned, PerfProcess.View, PerfTree.Valid, Inv, Linked;
      ghost var fields, nodes := m.RecordFields(), m.Nodes();
      thresholdInUs := us;
      assert m.RecordFields() == fields && m.Nodes() == nodes;
    }

    /** The constructor creates the process and the tree of the thread when they are missing. */
    constructor (m: PerfModule, ghost rid: Rid, name: Name, tid: Tid, start: u64, mark: Reading)
      requires m.Valid() && rid !in m.records
      modifies m.Repr
      ensures m.Valid() && fresh(m.Repr - old(m.Repr))
      ensures m.records == old(m.records)[rid := this]
      ensures m.program == Step(old(m.program), Start(rid, tid, name, start, mark))
    {
      hide PerfModule.Valid, Step;
      elementName, idThread, startTime, nodeInTree := name, tid, start, null;
      thresholdInUs := -1;
      new;
      m.OpenRecord(rid, this, mark);
    }
  }
}

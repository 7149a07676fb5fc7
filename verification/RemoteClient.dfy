/** The remote form's records as objects: each sends a message when it is constructed and one when it is destroyed. */
module RemoteClient {
  import opened Words
  import opened CallTree
  import opened Processes
  import opened Records
  import opened InProcess
  import opened Messages
  import opened Remote
  import opened Wire
  import Service

  /** The statics of the library in a remote client: the queue it has found, which is taken to keep every message. */
  class PerfClient {
    const pid: Pid31
    var connected: bool
    var sent: seq<Message>

    ghost var records: map<Rid, RDKPerfRemote>

    ghost function View(): Client
      reads this
    {
      Client(map r | r in records :: Timing(records[r].name, records[r].startTime), connected)
    }

    /** A live record has found the queue when it was constructed. */
    ghost predicate Valid()
      reads this
    {
      && (records != map[] ==> connected)
      && forall r :: r in records ==> '\0' !in records[r].name
    }

    constructor (pid: Pid31)
      ensures Valid() && View() == Client(map[], false) && sent == [] && this.pid == pid
    {
      this.pid, connected, sent, records := pid, false, [], map[];
    }

    /** Sends a message; `sent` keeps what the service will read from it. */
    method Send(o: Outgoing, self: u64)
      requires Valid() && '\0' !in NameOf(o) && !o.OutOther?
      modifies this
      ensures Valid() && records == old(records) && connected == old(connected)
      ensures sent == old(sent) + [Arriving(o, pid, self)]
    {
      var ok, buffer := SendMessage(o, pid, self);
      sent := sent + [Read(buffer[..])];
    }

    method ReportProcess(ghost e: Event, self: u64)
      requires Valid() && e.Report?
      modifies this
      ensures Valid() && View() == ClientStep(old(View()), e)
      ensures sent == old(sent) + Remote.Send(old(View()), pid, e)
    {
      if connected {
        Send(OutReportProcess, self);
      }
    }

    /** The client sends its own thread, whatever thread it is asked to report. */
    method ReportThread(asked: Tid, self: u64)
      requires Valid()
      modifies this
      ensures Valid() && View() == ClientStep(old(View()), ReportOne(self))
      ensures sent == old(sent) + Remote.Send(old(View()), pid, ReportOne(self))
    {
      if connected {
        Send(OutReportThread, self);
      }
    }
  }

  /** The service refuses every threshold that a client sends: it reads zero. */
  lemma SentThresholdIsRefused(s: Service.State, o: Outgoing, pid: Pid31, self: u64)
    requires o.OutThreshold? && '\0' !in o.name
    ensures !Service.Answer(s, Read(Data(o, pid, self)))
  {
    DataArrives(o, pid, self);
  }

  class RDKPerfRemote {
    const name: Name
    const startTime: u64
    var thresholdInUs: u32
    var endTime: u64

    constructor (c: PerfClient, ghost rid: Rid, name: Name, us: u32, thread: Name, self: u64, now: u64,
                 ghost mark: Reading)
      requires c.Valid() && rid !in c.records && '\0' !in name
      modifies c
      ensures c.Valid() && c.records == old(c.records)[rid := this]
      ensures var e := Start(rid, self, name, now, mark);
        c.View() == ClientStep(old(c.View()), e) && c.sent == old(c.sent) + Remote.Send(old(c.View()), c.pid, e)
    {
      this.name, startTime, endTime, thresholdInUs := name, now, 0, us;
      new;
      if !c.connected {
        c.connected := true;
      }
      c.Send(OutEntry(name, thread, now, Signed(us)), self);
      c.records := c.records[rid := this];
    }

    /** Sends a threshold for the element that the service has on top; it arrives as zero. */
    method SetThreshold(c: PerfClient, ghost rid: Rid, us: u32, self: u64)
      requires c.Valid() && rid in c.records && c.records[rid] == this
      modifies this`thresholdInUs, c
      ensures c.Valid() && c.View() == old(c.View()) && thresholdInUs == us
      ensures c.sent == old(c.sent) + [Threshold(c.pid, self, Cut(name), 0)]
    {
      thresholdInUs := us;
      if c.connected {
        c.Send(OutThreshold(name, Signed(us)), self);
      }
    }

    /** The destructor sends the elapsed time, with the name and the thread that destroys the record. */
    method Destroy(c: PerfClient, ghost rid: Rid, self: u64, now: u64)
      requires c.Valid() && rid in c.records && c.records[rid] == this
      modifies this, c
      ensures c.Valid() && c.records == old(c.records) - {rid}
      ensures var e := End(rid, self, now);
        c.View() == ClientStep(old(c.View()), e) && c.sent == old(c.sent) + Remote.Send(old(c.View()), c.pid, e)
    {
      endTime := now;
      if c.connected {
        c.Send(OutExit(name, Sub(endTime, startTime)), self);
      }
      c.records := c.records - {rid};
    }
  }
}

/**
 Messages as bytes: how a client fills a message, a type and a union of data, and what the service reads from it. A
 field is a place in the message, counted in bytes on a 64-bit platform; a number is stored with its low byte first.
 */
module Wire {
  import opened Words
  import opened CallTree
  import opened Processes
  import opened Messages

  const MESSAGE_SIZE := 296

  const TYPE_AT := 0

  // The members of the union have their process, thread and name at the same places.
  const PID_AT := 8
  const TID_AT := 16
  const NAME_AT := 24

  // The others lie where each member has room for them.
  const ENTRY_THREAD_AT := 152
  const ENTRY_TIME_AT := 280
  const ENTRY_THRESHOLD_AT := 288
  const EXIT_TIME_AT := 152
  const THRESHOLD_AT := 152

  const ENTRY: nat := 1
  const EXIT: nat := 2
  const THRESHOLD: nat := 3
  const REPORT_THREAD: nat := 4
  const REPORT_PROCESS: nat := 5
  const CLOSE_THREAD: nat := 6
  const CLOSE_PROCESS: nat := 7
  const EXIT_QUEUE: nat := 9998

  const KNOWN_TYPES: set<int> :=
    {ENTRY, EXIT, THRESHOLD, REPORT_THREAD, REPORT_PROCESS, CLOSE_THREAD, CLOSE_PROCESS, EXIT_QUEUE}

  type Pid31 = n: int | 0 <= n < 0x8000_0000

  type Bytes = seq<char>

  // ----- Numbers -------------------------------------------------------------------------------------------

  function Power(n: nat): nat {
    if n == 0 then 1 else 256 * Power(n - 1)
  }

  lemma Powers()
    ensures Power(4) == 0x1_0000_0000 && Power(8) == 0x1_0000_0000_0000_0000
  {
    assert Power(2) == 0x1_0000;
    assert Power(6) == 0x1_0000_0000_0000;
  }

  function ToBytes(x: nat, n: nat): (b: Bytes)
    ensures |b| == n
  {
    if n == 0 then [] else [(x % 256) as char] + ToBytes(x / 256, n - 1)
  }

  function Number(b: Bytes): nat {
    if b == [] then 0 else b[0] as int + 256 * Number(b[1..])
  }

  lemma {:induction false} NumberOfBytes(x: nat, n: nat)
    requires x < Power(n)
    ensures Number(ToBytes(x, n)) == x
  {
    if n == 0 {
    } else {
      NumberOfBytes(x / 256, n - 1);
      assert ToBytes(x, n)[1..] == ToBytes(x / 256, n - 1);
    }
  }

  /** A signed number of 32 bits, in two's complement. */
  function Unsigned(x: i32): u32 {
    if x < 0 then x + 0x1_0000_0000 else x
  }

  function Signed(n: nat): int {
    if n < 0x8000_0000 then n else n - 0x1_0000_0000
  }

  // ----- Places --------------------------------------------------------------------------------------------

  function Put(b: Bytes, at: nat, s: Bytes): (r: Bytes)
    requires at + |s| <= |b|
    ensures |r| == |b|
  {
    b[..at] + s + b[at + |s|..]
  }

  /** What is put at a place is found there, and nothing else changes. */
  lemma PutThere(b: Bytes, at: nat, s: Bytes, lo: nat, hi: nat)
    requires at + |s| <= |b| && lo <= hi <= |b|
    ensures Put(b, at, s)[at..at + |s|] == s
    ensures hi <= at || at + |s| <= lo ==> Put(b, at, s)[lo..hi] == b[lo..hi]
  {}

  method Write(buffer: array<char>, at: nat, s: Bytes)
    requires at + |s| <= buffer.Length
    modifies buffer
    ensures buffer[..] == Put(old(buffer[..]), at, s)
  {
    var i := 0;
    while i < |s|
      invariant 0 <= i <= |s|
      invariant buffer[..at] == old(buffer[..at]) && buffer[at..at + i] == s[..i]
      invariant buffer[at + |s|..] == old(buffer[at + |s|..])
    {
      buffer[at + i] := s[i];
      i := i + 1;
    }
    assert buffer[..] == buffer[..at] + buffer[at..at + |s|] + buffer[at + |s|..];
  }

  // ----- Messages ------------------------------------------------------------------------------------------

  /** What a client asks to be sent, besides its process and thread. */
  datatype Outgoing =
    | OutEntry(name: Name, thread: Name, time: u64, us: i32)
    | OutExit(name: Name, elapsed: u64)
    | OutThreshold(name: Name, us: i32)
    | OutReportThread
    | OutReportProcess
    | OutCloseThread
    | OutCloseProcess
    | OutExitQueue
    | OutOther(code: i32)

  function TypeOf(o: Outgoing): u32 {
    match o
    case OutEntry(_, _, _, _) => ENTRY
    case OutExit(_, _) => EXIT
    case OutThreshold(_, _) => THRESHOLD
    case OutReportThread => REPORT_THREAD
    case OutReportProcess => REPORT_PROCESS
    case OutCloseThread => CLOSE_THREAD
    case OutCloseProcess => CLOSE_PROCESS
    case OutExitQueue => EXIT_QUEUE
    case OutOther(code) => Unsigned(code)
  }

  function NumberAt(b: Bytes, at: nat, n: nat): nat
    requires at + n <= |b|
  {
    Number(b[at..at + n])
  }

  function NameIn(b: Bytes, at: nat): Name
    requires at + MAX_NAME_LEN <= |b|
  {
    CString(b[at..at + MAX_NAME_LEN])
  }

  /** What the service reads: the type decides which member of the union its handler looks at. */
  function Read(b: Bytes): Message
    requires |b| == MESSAGE_SIZE
  {
    var pid, tid, name := NumberAt(b, PID_AT, 4), NumberAt(b, TID_AT, 8), NameIn(b, NAME_AT);
    var code := NumberAt(b, TYPE_AT, 4);
    if code == ENTRY then Entry(pid, tid, name)
    else if code == THRESHOLD then Threshold(pid, tid, name, Signed(NumberAt(b, THRESHOLD_AT, 4)))
    else if code == EXIT then Exit(pid, tid, name, Wrap(NumberAt(b, EXIT_TIME_AT, 8)))
    else if code == REPORT_THREAD then ReportThread(pid, tid)
    else if code == REPORT_PROCESS then ReportProcess(pid)
    else if code == CLOSE_THREAD then CloseThread(pid, tid)
    else if code == CLOSE_PROCESS then CloseProcess(pid)
    else Unknown(Signed(code))
  }

  /** The message that arrives: names are cut, and the value of a threshold is lost. */
  function Arriving(o: Outgoing, pid: Pid, tid: Tid): Message {
    match o
    case OutEntry(name, _, _, _) => Entry(pid, tid, Cut(name))
    case OutExit(name, elapsed) => Exit(pid, tid, Cut(name), elapsed)
    case OutThreshold(name, _) => Threshold(pid, tid, Cut(name), 0)
    case OutReportThread => ReportThread(pid, tid)
    case OutReportProcess => ReportProcess(pid)
    case OutCloseThread => CloseThread(pid, tid)
    case OutCloseProcess => CloseProcess(pid)
    case OutExitQueue => Unknown(EXIT_QUEUE)
    case OutOther(code) => Unknown(code)
  }

  function Zeros(n: nat): (b: Bytes)
    ensures |b| == n
  {
    seq(n, _ => '\0')
  }

  /** A message with nothing but its type. */
  function Blank(code: u32): (b: Bytes)
    ensures |b| == MESSAGE_SIZE
  {
    Put(Zeros(MESSAGE_SIZE), TYPE_AT, ToBytes(code, 4))
  }

  /** The part that messages of a thread share, with a name or without. */
  function Header(code: u32, pid: Pid31, tid: u64, name: Name): (b: Bytes)
    ensures |b| == MESSAGE_SIZE
  {
    Put(Put(Put(Blank(code), PID_AT, ToBytes(pid, 4)), TID_AT, ToBytes(tid, 8)), NAME_AT, Cut(name))
  }

  lemma ZerosPart(n: nat, lo: nat, hi: nat)
    requires lo <= hi <= n
    ensures Zeros(n)[lo..hi] == Zeros(hi - lo)
  {}

  lemma Split(b: Bytes, lo: nat, mid: nat, hi: nat)
    requires lo <= mid <= hi <= |b|
    ensures b[lo..hi] == b[lo..mid] + b[mid..hi]
  {}

  lemma CutFits(name: Name)
    requires '\0' !in name
    ensures |Cut(name)| < MAX_NAME_LEN && '\0' !in Cut(name)
  {}

  /** After the header, the space beyond the name is zero. */
  lemma HeaderParts(code: u32, pid: Pid31, tid: u64, name: Name)
    ensures var b := Header(code, pid, tid, name);
      && b[TYPE_AT..TYPE_AT + 4] == ToBytes(code, 4)
      && b[PID_AT..PID_AT + 4] == ToBytes(pid, 4) && b[TID_AT..TID_AT + 8] == ToBytes(tid, 8)
      && b[NAME_AT..NAME_AT + |Cut(name)|] == Cut(name)
      && (forall lo, hi :: NAME_AT + |Cut(name)| <= lo <= hi <= MESSAGE_SIZE ==> b[lo..hi] == Zeros(hi - lo))
  {
    hide Put, Zeros, ToBytes, Cut;
    var z, c, p, t := Zeros(MESSAGE_SIZE), ToBytes(code, 4), ToBytes(pid, 4), ToBytes(tid, 8);
    var b0 := Put(z, TYPE_AT, c);
    var b1 := Put(b0, PID_AT, p);
    var b2 := Put(b1, TID_AT, t);
    PutThere(z, TYPE_AT, c, 0, 0);
    PutThere(b0, PID_AT, p, TYPE_AT, TYPE_AT + 4);
    PutThere(b1, TID_AT, t, TYPE_AT, TYPE_AT + 4);
    PutThere(b1, TID_AT, t, PID_AT, PID_AT + 4);
    PutThere(b2, NAME_AT, Cut(name), TYPE_AT, TYPE_AT + 4);
    PutThere(b2, NAME_AT, Cut(name), PID_AT, PID_AT + 4);
    PutThere(b2, NAME_AT, Cut(name), TID_AT, TID_AT + 8);
    forall lo: nat, hi: nat | NAME_AT + |Cut(name)| <= lo <= hi <= MESSAGE_SIZE
      ensures Header(code, pid, tid, name)[lo..hi] == Zeros(hi - lo)
    {
      PutThere(z, TYPE_AT, c, lo, hi);
      PutThere(b0, PID_AT, p, lo, hi);
      PutThere(b1, TID_AT, t, lo, hi);
      PutThere(b2, NAME_AT, Cut(name), lo, hi);
      ZerosPart(MESSAGE_SIZE, lo, hi);
    }
  }

  /** The type, process, thread and name of any message with a header are read as they were sent, the name cut. */
  ghost predicate HasHeader(b: Bytes, code: u32, pid: Pid31, tid: u64, name: Name) {
    && |b| == MESSAGE_SIZE && NumberAt(b, TYPE_AT, 4) == code
    && NumberAt(b, PID_AT, 4) == pid && NumberAt(b, TID_AT, 8) == tid && NameIn(b, NAME_AT) == Cut(name)
  }

  lemma HeaderReads(code: u32, pid: Pid31, tid: u64, name: Name)
    requires '\0' !in name
    ensures HasHeader(Header(code, pid, tid, name), code, pid, tid, name)
  {
    Powers();
    NumberOfBytes(code, 4);
    NumberOfBytes(pid, 4);
    NumberOfBytes(tid, 8);
    HeaderParts(code, pid, tid, name);
    CutFits(name);
    hide Power, ToBytes, Number, Header, Cut, CString;
    var b := Header(code, pid, tid, name);
    var end := NAME_AT + |Cut(name)|;
    Split(b, NAME_AT, end, NAME_AT + MAX_NAME_LEN);
    CStringOf(Cut(name), Zeros(MAX_NAME_LEN - |Cut(name)|));
  }

  /** A field beyond the name leaves the header as it is. */
  lemma PutKeepsHeader(b: Bytes, at: nat, s: Bytes, code: u32, pid: Pid31, tid: u64, name: Name)
    requires HasHeader(b, code, pid, tid, name) && NAME_AT + MAX_NAME_LEN <= at && at + |s| <= MESSAGE_SIZE
    ensures HasHeader(Put(b, at, s), code, pid, tid, name)
  {
    hide Put, Number, CString, Cut;
    PutThere(b, at, s, TYPE_AT, TYPE_AT + 4);
    PutThere(b, at, s, PID_AT, PID_AT + 4);
    PutThere(b, at, s, TID_AT, TID_AT + 8);
    PutThere(b, at, s, NAME_AT, NAME_AT + MAX_NAME_LEN);
  }

  function NameOf(o: Outgoing): Name {
    match o
    case OutEntry(name, _, _, _) => name
    case OutExit(name, _) => name
    case OutThreshold(name, _) => name
    case _ => []
  }

  /** What `SendMessage` puts into a message. A threshold is put where an entry has it. */
  function Data(o: Outgoing, pid: Pid31, tid: u64): (b: Bytes)
    ensures |b| == MESSAGE_SIZE
  {
    var h := Header(TypeOf(o), pid, tid, NameOf(o));
    match o
    case OutEntry(_, thread, time, us) =>
      Put(Put(Put(h, ENTRY_TIME_AT, ToBytes(time, 8)), ENTRY_THRESHOLD_AT, ToBytes(Unsigned(us), 4)),
          ENTRY_THREAD_AT, Cut(thread))
    case OutExit(_, elapsed) => Put(h, EXIT_TIME_AT, ToBytes(elapsed, 8))
    case OutThreshold(_, us) => Put(h, ENTRY_THRESHOLD_AT, ToBytes(Unsigned(us), 4))
    case OutReportThread => h
    case OutCloseThread => h
    case OutReportProcess => Put(Blank(REPORT_PROCESS), PID_AT, ToBytes(pid, 4))
    case OutCloseProcess => Put(Blank(CLOSE_PROCESS), PID_AT, ToBytes(pid, 4))
    case _ => Blank(TypeOf(o))
  }

  /** Messages of one thread; the others carry no thread. */
  predicate OfThread(o: Outgoing) {
    o.OutEntry? || o.OutExit? || o.OutThreshold? || o.OutReportThread? || o.OutCloseThread?
  }

  lemma DataHasHeader(o: Outgoing, pid: Pid31, tid: u64)
    requires '\0' !in NameOf(o) && OfThread(o)
    ensures HasHeader(Data(o, pid, tid), TypeOf(o), pid, tid, NameOf(o))
  {
    var code, name := TypeOf(o), NameOf(o);
    HeaderReads(code, pid, tid, name);
    hide Put, Header, HasHeader, ToBytes, TypeOf, NameOf, Unsigned;
    var h := Header(code, pid, tid, name);
    match o {
      case OutEntry(_, thread, time, us) =>
        PutKeepsHeader(h, ENTRY_TIME_AT, ToBytes(time, 8), code, pid, tid, name);
        var h1 := Put(h, ENTRY_TIME_AT, ToBytes(time, 8));
        PutKeepsHeader(h1, ENTRY_THRESHOLD_AT, ToBytes(Unsigned(us), 4), code, pid, tid, name);
        var h2 := Put(h1, ENTRY_THRESHOLD_AT, ToBytes(Unsigned(us), 4));
        PutKeepsHeader(h2, ENTRY_THREAD_AT, Cut(thread), code, pid, tid, name);
      case OutExit(_, elapsed) => PutKeepsHeader(h, EXIT_TIME_AT, ToBytes(elapsed, 8), code, pid, tid, name);
      case OutThreshold(_, us) =>
        PutKeepsHeader(h, ENTRY_THRESHOLD_AT, ToBytes(Unsigned(us), 4), code, pid, tid, name);
      case _ =>
    }
  }

  lemma NumberIsRead(b: Bytes, at: nat, x: nat, n: nat)
    requires at + n <= |b| && x < Power(n)
    ensures NumberAt(Put(b, at, ToBytes(x, n)), at, n) == x
  {
    PutThere(b, at, ToBytes(x, n), 0, 0);
    NumberOfBytes(x, n);
  }

  /** Nothing is ever put where a threshold message is read. */
  lemma ThresholdIsLost(name: Name, us: i32, pid: Pid31, tid: u64)
    ensures NumberAt(Data(OutThreshold(name, us), pid, tid), THRESHOLD_AT, 4) == 0
  {
    HeaderParts(THRESHOLD, pid, tid, name);
    var h := Header(THRESHOLD, pid, tid, name);
    hide Header, ToBytes, Cut;
    PutThere(h, ENTRY_THRESHOLD_AT, ToBytes(Unsigned(us), 4), THRESHOLD_AT, THRESHOLD_AT + 4);
    assert NumberAt(h, THRESHOLD_AT, 4) == 0 by { NumberOfZeros(4); }
  }

  lemma {:induction false} NumberOfZeros(n: nat)
    ensures Number(Zeros(n)) == 0
  {
    if n == 0 {
    } else {
      assert Zeros(n)[1..] == Zeros(n - 1);
      NumberOfZeros(n - 1);
    }
  }

  /** A message of no thread: its type and, for a whole process, its process are read as they were sent. */
  lemma BlankReads(code: u32, pid: Pid31)
    ensures NumberAt(Blank(code), TYPE_AT, 4) == code
    ensures var b := Put(Blank(code), PID_AT, ToBytes(pid, 4));
      NumberAt(b, TYPE_AT, 4) == code && NumberAt(b, PID_AT, 4) == pid
  {
    Powers();
    hide Power, ToBytes, Number, Put;
    NumberIsRead(Zeros(MESSAGE_SIZE), TYPE_AT, code, 4);
    NumberIsRead(Blank(code), PID_AT, pid, 4);
    PutThere(Blank(code), PID_AT, ToBytes(pid, 4), TYPE_AT, TYPE_AT + 4);
  }

  /**
   The service reads the message that was sent, its name cut, with one exception: of a threshold it always reads zero,
   since the value is written at the place of one member of the union and read at that of another.
   */
  lemma DataArrives(o: Outgoing, pid: Pid31, tid: u64)
    requires '\0' !in NameOf(o) && !o.OutOther?
    ensures Read(Data(o, pid, tid)) == Arriving(o, pid, tid)
  {
    hide Header, ToBytes, NumberAt, Cut, Power, NameIn, Put, Zeros, Blank, Wrap;
    if OfThread(o) {
      DataHasHeader(o, pid, tid);
      hide Unsigned;
      match o {
        case OutExit(name, elapsed) =>
          Powers();
          NumberIsRead(Header(EXIT, pid, tid, name), EXIT_TIME_AT, elapsed, 8);
          WrapOfWord(elapsed);
        case OutThreshold(name, us) => ThresholdIsLost(name, us, pid, tid);
        case _ =>
      }
    } else {
      BlankReads(TypeOf(o), pid);
    }
  }

  /** The other fields of an entry are read as they were sent: its time, its threshold and the thread's name, cut. */
  lemma EntryIsRead(name: Name, thread: Name, time: u64, us: i32, pid: Pid31, tid: u64)
    requires '\0' !in thread
    ensures var b := Data(OutEntry(name, thread, time, us), pid, tid);
      && NumberAt(b, ENTRY_TIME_AT, 8) == time && Signed(NumberAt(b, ENTRY_THRESHOLD_AT, 4)) == us
      && NameIn(b, ENTRY_THREAD_AT) == Cut(thread)
  {
    Powers();
    HeaderParts(ENTRY, pid, tid, name);
    CutFits(thread);
    var h := Header(ENTRY, pid, tid, name);
    hide Header, ToBytes, Number, Cut, Power, CString, Put;
    var h1 := Put(h, ENTRY_TIME_AT, ToBytes(time, 8));
    var h2 := Put(h1, ENTRY_THRESHOLD_AT, ToBytes(Unsigned(us), 4));
    NumberIsRead(h, ENTRY_TIME_AT, time, 8);
    NumberIsRead(h1, ENTRY_THRESHOLD_AT, Unsigned(us), 4);
    PutThere(h1, ENTRY_THRESHOLD_AT, ToBytes(Unsigned(us), 4), ENTRY_TIME_AT, ENTRY_TIME_AT + 8);
    PutThere(h2, ENTRY_THREAD_AT, Cut(thread), ENTRY_TIME_AT, ENTRY_TIME_AT + 8);
    PutThere(h2, ENTRY_THREAD_AT, Cut(thread), ENTRY_THRESHOLD_AT, ENTRY_THRESHOLD_AT + 4);
    var end := ENTRY_THREAD_AT + |Cut(thread)|;
    PutThere(h, ENTRY_TIME_AT, ToBytes(time, 8), end, ENTRY_TIME_AT);
    PutThere(h1, ENTRY_THRESHOLD_AT, ToBytes(Unsigned(us), 4), end, ENTRY_TIME_AT);
    PutThere(h2, ENTRY_THREAD_AT, Cut(thread), end, ENTRY_TIME_AT);
    Split(Put(h2, ENTRY_THREAD_AT, Cut(thread)), ENTRY_THREAD_AT, end, ENTRY_TIME_AT);
    CStringOf(Cut(thread), Zeros(ENTRY_TIME_AT - end));
  }

  /** The field of a name holds its characters, at most 127 of them, and zeros up to its end. */
  ghost predicate HoldsName(b: Bytes, at: nat, name: Name)
    requires at + 128 <= |b|
  {
    forall i :: 0 <= i < 128 ==> b[at + i] == if i < |name| && i < 127 then name[i] else '\0'
  }

  lemma NameIsHeld(b: Bytes, at: nat, name: Name)
    requires at + 128 <= |b| && b[at..at + |Cut(name)|] == Cut(name)
    requires b[at + |Cut(name)|..at + 128] == Zeros(128 - |Cut(name)|)
    ensures HoldsName(b, at, name)
  {
    var n := |Cut(name)|;
    forall i | 0 <= i < 128 ensures b[at + i] == if i < |name| && i < 127 then name[i] else '\0' {
      if i < n {
        assert b[at + i] == b[at..at + n][i] == Cut(name)[i];
      } else {
        assert b[at + i] == b[at + n..at + 128][i - n];
      }
    }
  }

  lemma PutKeepsName(b: Bytes, put: nat, s: Bytes, at: nat, name: Name)
    requires at + 128 <= |b| && HoldsName(b, at, name) && put + |s| <= |b| && (put + |s| <= at || at + 128 <= put)
    ensures HoldsName(Put(b, put, s), at, name)
  {}

  /** The names in a message, character by character. */
  lemma NamesAreHeld(o: Outgoing, pid: Pid31, tid: u64)
    requires OfThread(o)
    ensures HoldsName(Data(o, pid, tid), NAME_AT, NameOf(o))
    ensures o.OutEntry? ==> HoldsName(Data(o, pid, tid), ENTRY_THREAD_AT, o.thread)
  {
    var name := NameOf(o);
    HeaderParts(TypeOf(o), pid, tid, name);
    hide Header, Put, ToBytes, HoldsName, Zeros, Cut;
    var h := Header(TypeOf(o), pid, tid, name);
    NameIsHeld(h, NAME_AT, name);
    match o {
      case OutEntry(_, thread, time, us) =>
        var h1 := Put(h, ENTRY_TIME_AT, ToBytes(time, 8));
        var h2 := Put(h1, ENTRY_THRESHOLD_AT, ToBytes(Unsigned(us), 4));
        PutKeepsName(h, ENTRY_TIME_AT, ToBytes(time, 8), NAME_AT, name);
        PutKeepsName(h1, ENTRY_THRESHOLD_AT, ToBytes(Unsigned(us), 4), NAME_AT, name);
        PutKeepsName(h2, ENTRY_THREAD_AT, Cut(thread), NAME_AT, name);
        var end := ENTRY_THREAD_AT + |Cut(thread)|;
        PutThere(h, ENTRY_TIME_AT, ToBytes(time, 8), end, ENTRY_TIME_AT);
        PutThere(h1, ENTRY_THRESHOLD_AT, ToBytes(Unsigned(us), 4), end, ENTRY_TIME_AT);
        PutThere(h2, ENTRY_THREAD_AT, Cut(thread), end, ENTRY_TIME_AT);
        NameIsHeld(Put(h2, ENTRY_THREAD_AT, Cut(thread)), ENTRY_THREAD_AT, thread);
      case OutExit(_, elapsed) => PutKeepsName(h, EXIT_TIME_AT, ToBytes(elapsed, 8), NAME_AT, name);
      case OutThreshold(_, us) =>
        PutKeepsName(h, ENTRY_THRESHOLD_AT, ToBytes(Unsigned(us), 4), NAME_AT, name);
      case _ =>
    }
  }

  /** Fills a zeroed message field by field. One of an unknown type is given up. */
  method SendMessage(o: Outgoing, pid: Pid31, tid: u64) returns (ok: bool, buffer: array<char>)
    requires '\0' !in NameOf(o) && (o.OutOther? ==> o.code !in KNOWN_TYPES)
    ensures ok <==> !o.OutOther?
    ensures fresh(buffer) && buffer.Length == MESSAGE_SIZE && buffer[..] == Data(o, pid, tid)
    ensures ok ==> Read(buffer[..]) == Arriving(o, pid, tid)
    ensures OfThread(o) ==> HoldsName(buffer[..], NAME_AT, NameOf(o))
    ensures o.OutEntry? ==> HoldsName(buffer[..], ENTRY_THREAD_AT, o.thread)
  {
    hide Put, ToBytes, Cut, Read, HoldsName;
    buffer := new char[MESSAGE_SIZE](_ => '\0');
    assert buffer[..] == Zeros(MESSAGE_SIZE);
    Write(buffer, TYPE_AT, ToBytes(TypeOf(o), 4));
    ok := true;
    if OfThread(o) {
      Write(buffer, PID_AT, ToBytes(pid, 4));
      Write(buffer, TID_AT, ToBytes(tid, 8));
      Write(buffer, NAME_AT, Cut(NameOf(o)));
    }
    match o {
      case OutEntry(_, thread, time, us) =>
        Write(buffer, ENTRY_TIME_AT, ToBytes(time, 8));
        Write(buffer, ENTRY_THRESHOLD_AT, ToBytes(Unsigned(us), 4));
        Write(buffer, ENTRY_THREAD_AT, Cut(thread));
      case OutExit(_, elapsed) => Write(buffer, EXIT_TIME_AT, ToBytes(elapsed, 8));
      case OutThreshold(_, us) => Write(buffer, ENTRY_THRESHOLD_AT, ToBytes(Unsigned(us), 4));
      case OutReportProcess => Write(buffer, PID_AT, ToBytes(pid, 4));
      case OutCloseProcess => Write(buffer, PID_AT, ToBytes(pid, 4));
      case OutOther(_) => ok := false;
      case _ =>
    }
    if ok {
      DataArrives(o, pid, tid);
    }
    if OfThread(o) {
      NamesAreHeld(o, pid, tid);
    }
  }
}

/**
 The figures kept by one node of the call tree (`TimingStats`), and what they mean: every field is a
 function of the calls recorded in the node and of the place where the current reporting interval began.
 */
module NodeStats {
  import opened Words

  const INITIAL_MIN_VALUE: u64 := 1000000000

  /** One recorded call: elapsed wall clock and CPU times in microseconds. */
  datatype Sample = Sample(delta: u64, user: u64, system: u64)

  datatype Column = Delta | User | System

  function Get(s: Sample, c: Column): u64 {
    match c
    case Delta => s.delta
    case User => s.user
    case System => s.system
  }

  function Total(s: seq<Sample>, c: Column): nat {
    if s == [] then 0 else Total(s[..|s| - 1], c) + Get(s[|s| - 1], c)
  }

  function Longest(s: seq<Sample>): u64 {
    if s == [] then 0 else Max(Longest(s[..|s| - 1]), s[|s| - 1].delta)
  }

  function Shortest(s: seq<Sample>): u64 {
    if s == [] then INITIAL_MIN_VALUE else Min(Shortest(s[..|s| - 1]), s[|s| - 1].delta)
  }

  lemma {:induction false} TotalConcat(a: seq<Sample>, b: seq<Sample>, c: Column)
    ensures Total(a + b, c) == Total(a, c) + Total(b, c)
  {
    if b == [] {
      assert a + b == a;
    } else {
      TotalConcat(a, b[..|b| - 1], c);
      assert (a + b)[..|a + b| - 1] == a + b[..|b| - 1];
    }
  }

  lemma {:induction false} ExtremesConcat(a: seq<Sample>, b: seq<Sample>)
    ensures Longest(a + b) == Max(Longest(a), Longest(b))
    ensures Shortest(a + b) == Min(Shortest(a), Shortest(b))
  {
    if b == [] {
      assert a + b == a;
      ShortestIsCapped(a);
    } else {
      ExtremesConcat(a, b[..|b| - 1]);
      assert (a + b)[..|a + b| - 1] == a + b[..|b| - 1];
    }
  }

  lemma ShortestIsCapped(s: seq<Sample>)
    ensures Shortest(s) <= INITIAL_MIN_VALUE
  {}

  /** The maximum is an upper bound that is reached, or zero when there is no call. */
  lemma {:induction false} LongestIsMaximum(s: seq<Sample>)
    ensures forall i :: 0 <= i < |s| ==> s[i].delta <= Longest(s)
    ensures if s == [] then Longest(s) == 0 else exists i :: 0 <= i < |s| && s[i].delta == Longest(s)
  {
    if s == [] {
    } else {
      var r := s[..|s| - 1];
      LongestIsMaximum(r);
      if Longest(r) <= s[|s| - 1].delta {
        assert s[|s| - 1].delta == Longest(s);
      } else if r != [] {
        var i :| 0 <= i < |r| && r[i].delta == Longest(r);
        assert s[i].delta == Longest(s);
      }
    }
  }

  ghost predicate IsMinimum(s: seq<Sample>, m: u64) {
    (exists i :: 0 <= i < |s| && s[i].delta == m) && forall i :: 0 <= i < |s| ==> m <= s[i].delta
  }

  /**
   The recorded minimum is the least of the calls exactly when that least call is not longer than the preset
   value; a node all of whose calls are longer keeps the preset value instead.
   */
  lemma {:induction false} ShortestIsCappedMinimum(s: seq<Sample>, m: u64)
    requires IsMinimum(s, m)
    ensures Shortest(s) == Min(m, INITIAL_MIN_VALUE)
    ensures Shortest(s) == m <==> m <= INITIAL_MIN_VALUE
  {
    ShortestBounds(s);
    var i :| 0 <= i < |s| && s[i].delta == m;
    assert Shortest(s) <= s[i].delta;
  }

  /** So a node whose only call took a microsecond more than the preset value shows the preset value. */
  lemma LongCallIsNotTheMinimum()
    ensures Meaning(NewLog(false).Add(Sample(1_000_000_001, 0, 0))).totalMin == 1_000_000_000
  {
    var calls := [Sample(1_000_000_001, 0, 0)];
    assert calls[0].delta == 1_000_000_001;
    ShortestIsCappedMinimum(calls, 1_000_000_001);
  }

  lemma {:induction false} ShortestBounds(s: seq<Sample>)
    ensures Shortest(s) <= INITIAL_MIN_VALUE
    ensures forall i :: 0 <= i < |s| ==> Shortest(s) <= s[i].delta
    ensures Shortest(s) == INITIAL_MIN_VALUE || exists i :: 0 <= i < |s| && s[i].delta == Shortest(s)
  {
    if s == [] {
    } else {
      var r := s[..|s| - 1];
      ShortestBounds(r);
      if s[|s| - 1].delta < Shortest(r) {
        assert s[|s| - 1].delta == Shortest(s);
      } else if Shortest(r) != INITIAL_MIN_VALUE {
        var i :| 0 <= i < |r| && r[i].delta == Shortest(r);
        assert s[i].delta == Shortest(s);
      }
    }
  }

  // ----- Logs ----------------------------------------------------------------------------------------

  /**
   The history of one node: all its calls in the order they were recorded, and how many of them precede the
   current interval. `seed` and `intervalSeed` are the counts the node was born with: the root is created
   with both counts at one, every other node with zero.
   */
  datatype Log = Log(calls: seq<Sample>, mark: nat, seed: nat, intervalSeed: nat) {
    predicate Ok() {
      mark <= |calls|
    }

    function Recent(): seq<Sample>
      requires Ok()
    {
      calls[mark..]
    }

    function Add(s: Sample): Log {
      this.(calls := calls + [s])
    }

    function Reset(): Log {
      this.(mark := |calls|, intervalSeed := 0)
    }
  }

  function NewLog(root: bool): Log {
    if root then Log([], 0, 1, 1) else Log([], 0, 0, 0)
  }

  datatype TimingStats = TimingStats(
    totalTime: u64, totalMax: u64, totalMin: u64, totalCount: u64,
    intervalTime: u64, intervalMax: u64, intervalMin: u64, intervalCount: u64,
    lastDelta: u64, userCPU: u64, systemCPU: u64,
    intervalUserCPU: u64, intervalSystemCPU: u64, totalUserCPU: u64, totalSystemCPU: u64)

  /** What the fields of a node's statistics say about its history. */
  function Meaning(l: Log): TimingStats
    requires l.Ok()
  {
    var last := if l.calls == [] then Sample(0, 0, 0) else l.calls[|l.calls| - 1];
    TimingStats(
      Wrap(Total(l.calls, Delta)), Longest(l.calls), Shortest(l.calls), Wrap(l.seed + |l.calls|),
      Wrap(Total(l.Recent(), Delta)), Longest(l.Recent()), Shortest(l.Recent()),
      Wrap(l.intervalSeed + |l.Recent()|),
      last.delta, last.user, last.system,
      Wrap(Total(l.Recent(), User)), Wrap(Total(l.Recent(), System)),
      Wrap(Total(l.calls, User)), Wrap(Total(l.calls, System)))
  }

  // ----- Intervals -----------------------------------------------------------------------------------

  datatype NodeEvent = Call(sample: Sample) | PrintAll | PrintDelta

  /** The log after some events, and the statistics printed by the full reports among them. */
  datatype Printout = Printout(log: Log, printed: seq<TimingStats>)

  function Play(l: Log, events: seq<NodeEvent>): (r: Printout)
    requires l.Ok()
    ensures r.log.Ok()
  {
    if events == [] then Printout(l, []) else
      var before := Play(l, events[..|events| - 1]);
      match events[|events| - 1]
      case Call(s) => before.(log := before.log.Add(s))
      case PrintAll => Printout(before.log.Reset(), before.printed + [Meaning(before.log)])
      case PrintDelta => before
  }

  function SumIntervals(printed: seq<TimingStats>, f: TimingStats -> u64): nat {
    if printed == [] then 0 else SumIntervals(printed[..|printed| - 1], f) + f(printed[|printed| - 1])
  }

  function MaxIntervals(printed: seq<TimingStats>): u64 {
    if printed == [] then 0 else Max(MaxIntervals(printed[..|printed| - 1]), printed[|printed| - 1].intervalMax)
  }

  function MinIntervals(printed: seq<TimingStats>): u64 {
    if printed == [] then INITIAL_MIN_VALUE
    else Min(MinIntervals(printed[..|printed| - 1]), printed[|printed| - 1].intervalMin)
  }

  function IntervalCountOf(s: TimingStats): u64 { s.intervalCount }
  function IntervalTimeOf(s: TimingStats): u64 { s.intervalTime }
  function IntervalUserOf(s: TimingStats): u64 { s.intervalUserCPU }
  function IntervalSystemOf(s: TimingStats): u64 { s.intervalSystemCPU }

  ghost predicate Partitioned(printed: seq<TimingStats>, now: TimingStats) {
    && Wrap(SumIntervals(printed, IntervalCountOf) + now.intervalCount) == now.totalCount
    && Wrap(SumIntervals(printed, IntervalTimeOf) + now.intervalTime) == now.totalTime
    && Wrap(SumIntervals(printed, IntervalUserOf) + now.intervalUserCPU) == now.totalUserCPU
    && Wrap(SumIntervals(printed, IntervalSystemOf) + now.intervalSystemCPU) == now.totalSystemCPU
    && Max(MaxIntervals(printed), now.intervalMax) == now.totalMax
    && Min(MinIntervals(printed), now.intervalMin) == now.totalMin
  }

  /**
   For every node and every mix of calls, full reports and delta-only reports: the intervals printed so far and
   the current one add up to the lifetime figures, and their extremes are the lifetime extremes.
   */
  lemma {:induction false} IntervalsPartitionTheCalls(root: bool, events: seq<NodeEvent>)
    ensures var r := Play(NewLog(root), events); Partitioned(r.printed, Meaning(r.log))
    decreases |events|
  {
    if events == [] {
    } else {
      var before := Play(NewLog(root), events[..|events| - 1]);
      IntervalsPartitionTheCalls(root, events[..|events| - 1]);
      match events[|events| - 1] {
        case Call(s) => CallKeepsPartition(before, s);
        case PrintAll => ReportKeepsPartition(before);
        case PrintDelta =>
      }
    }
  }

  /** How one more call changes each figure. */
  lemma MeaningAfterCall(l: Log, s: Sample)
    requires l.Ok()
    ensures var a, b := Meaning(l), Meaning(l.Add(s));
      && b.totalTime == Add(a.totalTime, s.delta) && b.intervalTime == Add(a.intervalTime, s.delta)
      && b.totalCount == Add(a.totalCount, 1) && b.intervalCount == Add(a.intervalCount, 1)
      && b.totalUserCPU == Add(a.totalUserCPU, s.user) && b.intervalUserCPU == Add(a.intervalUserCPU, s.user)
      && b.totalSystemCPU == Add(a.totalSystemCPU, s.system)
      && b.intervalSystemCPU == Add(a.intervalSystemCPU, s.system)
      && b.totalMax == Max(a.totalMax, s.delta) && b.intervalMax == Max(a.intervalMax, s.delta)
      && b.totalMin == Min(a.totalMin, s.delta) && b.intervalMin == Min(a.intervalMin, s.delta)
      && b.lastDelta == s.delta && b.userCPU == s.user && b.systemCPU == s.system
  {
    hide Wrap;
    var m := l.Add(s);
    assert m.calls[..|m.calls| - 1] == l.calls;
    assert m.Recent() == l.Recent() + [s];
    assert m.Recent()[..|m.Recent()| - 1] == l.Recent();
    WrapAdd(Total(l.calls, Delta), s.delta);
    WrapAdd(Total(l.Recent(), Delta), s.delta);
    WrapAdd(Total(l.calls, User), s.user);
    WrapAdd(Total(l.Recent(), User), s.user);
    WrapAdd(Total(l.calls, System), s.system);
    WrapAdd(Total(l.Recent(), System), s.system);
    WrapAdd(l.seed + |l.calls|, 1);
    WrapAdd(l.intervalSeed + |l.Recent()|, 1);
  }

  lemma CallKeepsPartition(r: Printout, s: Sample)
    requires r.log.Ok() && Partitioned(r.printed, Meaning(r.log))
    ensures Partitioned(r.printed, Meaning(r.log.Add(s)))
  {
    hide Wrap, Meaning;
    var a := Meaning(r.log);
    MeaningAfterCall(r.log, s);
    WrapSum(SumIntervals(r.printed, IntervalCountOf), a.intervalCount, 1);
    WrapSum(SumIntervals(r.printed, IntervalTimeOf), a.intervalTime, s.delta);
    WrapSum(SumIntervals(r.printed, IntervalUserOf), a.intervalUserCPU, s.user);
    WrapSum(SumIntervals(r.printed, IntervalSystemOf), a.intervalSystemCPU, s.system);
  }

  lemma WrapSum(sum: nat, a: u64, b: u64)
    ensures Wrap(sum + Add(a, b)) == Add(Wrap(sum + a), b)
  {
    WrapAdd(sum, a + b);
    WrapAdd(sum + a, b);
  }

  lemma ReportKeepsPartition(r: Printout)
    requires r.log.Ok() && Partitioned(r.printed, Meaning(r.log))
    ensures Partitioned(r.printed + [Meaning(r.log)], Meaning(r.log.Reset()))
  {
    hide Wrap;
    var p := r.printed + [Meaning(r.log)];
    assert p[..|p| - 1] == r.printed;
    assert r.log.Reset().Recent() == [];
    WrapOfWord(0);
    ShortestIsCapped(r.log.calls);
  }
}

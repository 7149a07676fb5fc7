/**
 What each report of a node shows, told from the calls between that report and the one before, whatever the node keeps
 to find it.
 */
module Intervals {
  import opened Words
  import opened NodeStats

  /** The calls of each reporting interval; the last one is still open. */
  function Between(events: seq<NodeEvent>): (r: seq<seq<Sample>>)
    ensures r != []
  {
    if events == [] then [[]] else
      var r := Between(events[..|events| - 1]);
      match events[|events| - 1]
      case Call(s) => r[..|r| - 1] + [r[|r| - 1] + [s]]
      case PrintAll => r + [[]]
      case PrintDelta => r
  }

  /** The figure is the longest of these calls, or zero. */
  ghost predicate IsLongest(max: u64, calls: seq<Sample>) {
    && (forall i :: 0 <= i < |calls| ==> calls[i].delta <= max)
    && (if calls == [] then max == 0 else exists i :: 0 <= i < |calls| && calls[i].delta == max)
  }

  /** The figure is the shortest of these calls, or the preset value if none is shorter. */
  ghost predicate IsShortest(min: u64, calls: seq<Sample>) {
    && min <= 1_000_000_000
    && (forall i :: 0 <= i < |calls| ==> min <= calls[i].delta)
    && (min == 1_000_000_000 || exists i :: 0 <= i < |calls| && calls[i].delta == min)
  }

  /** The interval figures are those of these calls; `seed` is what the count began with. */
  ghost predicate Shows(stats: TimingStats, calls: seq<Sample>, seed: nat) {
    && stats.intervalCount == Wrap(seed + |calls|)
    && stats.intervalTime == Wrap(Total(calls, Delta))
    && stats.intervalUserCPU == Wrap(Total(calls, User)) && stats.intervalSystemCPU == Wrap(Total(calls, System))
    && IsLongest(stats.intervalMax, calls)
    && IsShortest(stats.intervalMin, calls)
  }

  lemma MeaningShows(l: Log)
    requires l.Ok()
    ensures Shows(Meaning(l), l.Recent(), l.intervalSeed)
  {
    LongestIsMaximum(l.Recent());
    ShortestBounds(l.Recent());
  }

  /** The present interval of a node holds the calls since the last report; its count began with one for the root. */
  lemma {:induction false} RecentIsLastBetween(root: bool, events: seq<NodeEvent>)
    ensures var r, b := Play(NewLog(root), events), Between(events);
      && |r.printed| == |b| - 1
      && r.log.Recent() == b[|b| - 1]
      && r.log.intervalSeed == if root && |b| == 1 then 1 else 0
    decreases |events|
  {
    if events == [] {
    } else {
      hide Meaning;
      RecentIsLastBetween(root, events[..|events| - 1]);
    }
  }

  /**
   For every node and every mix of calls, full reports and delta-only reports: each full report shows exactly the calls
   since the full report before it, and the statistics at the end exactly the calls since the last one.
   */
  lemma {:induction false} ReportsShowTheirIntervals(root: bool, events: seq<NodeEvent>)
    ensures var r, b := Play(NewLog(root), events), Between(events);
      && |r.printed| == |b| - 1
      && (forall k :: 0 <= k < |r.printed| ==> Shows(r.printed[k], b[k], if root && k == 0 then 1 else 0))
      && Shows(Meaning(r.log), b[|b| - 1], if root && |b| == 1 then 1 else 0)
    decreases |events|
  {
    RecentIsLastBetween(root, events);
    MeaningShows(Play(NewLog(root), events).log);
    if events == [] {
    } else {
      var before := events[..|events| - 1];
      RecentIsLastBetween(root, before);
      MeaningShows(Play(NewLog(root), before).log);
      ReportsShowTheirIntervals(root, before);
      hide Meaning, Shows;
    }
  }

  /** A report leaves the totals and the last call as they are, and the interval figures as at the beginning. */
  lemma ResetKeepsTotals(l: Log)
    requires l.Ok()
    ensures var a, b := Meaning(l), Meaning(l.Reset());
      && b == a.(intervalTime := 0, intervalMax := 0, intervalMin := 1_000_000_000, intervalCount := 0,
                 intervalUserCPU := 0, intervalSystemCPU := 0)
  {
    assert l.Reset().Recent() == [];
    WrapOfWord(0);
  }

  /** After a call of 100, a report and a call of 5, the maximum of the interval is 5. */
  lemma MaximumIsReset()
    ensures var stats := Meaning(NewLog(false).Add(Sample(100, 0, 0)).Reset().Add(Sample(5, 0, 0)));
      stats.intervalMax == 5 && stats.totalMax == 100
  {
    var l := NewLog(false).Add(Sample(100, 0, 0)).Reset().Add(Sample(5, 0, 0));
    assert l.Recent() == [Sample(5, 0, 0)] && l.calls[..1] == [Sample(100, 0, 0)];
  }
}

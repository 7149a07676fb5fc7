/** The report timer: on every tick it may report the process, ever less often until the delay reaches its maximum. */
module Timer {
  import opened Words

  const MAX_DELAY: nat := 600
  const STEP: nat := 5

  /** The counters of the timer: ticks since the last report, and the number of them that must be exceeded. */
  datatype Counters = Counters(count: nat, delay: nat)

  /** One tick; without a process to report, nothing changes. */
  function Tick(c: Counters, found: bool): Counters {
    if !found then c
    else if Reports(c, found) then Counters(1, if c.delay < MAX_DELAY then c.delay + STEP else c.delay)
    else c.(count := c.count + 1)
  }

  predicate Reports(c: Counters, found: bool) {
    found && c.count > c.delay
  }

  class TimerCallback {
    var count: u32
    var delay: u32

    /** The fields are words of 32 bits; within these bounds they do not wrap. */
    predicate Valid()
      reads this
    {
      delay <= MAX_DELAY && delay % STEP == 0 && count <= delay + 1
    }

    function View(): Counters
      reads this
    {
      Counters(count, delay)
    }

    constructor ()
      ensures Valid() && View() == Counters(0, 0)
    {
      count, delay := 0, 0;
    }

    /** `found` says whether the process is in the process map; `reported` whether its report was called for. */
    method Loop(found: bool) returns (reported: bool)
      requires Valid()
      modifies this
      ensures Valid() && View() == Tick(old(View()), found)
      ensures reported <==> Reports(old(View()), found)
    {
      reported := false;
      if found {
        if count > delay {
          reported := true;
          count := 0;
          if delay < MAX_DELAY {
            delay := delay + STEP;
          }
        }
        count := count + 1;
      }
    }
  }

  // ----- Runs of ticks -----------------------------------------------------------------------------------

  function Run(ticks: seq<bool>): Counters {
    if ticks == [] then Counters(0, 0) else Tick(Run(ticks[..|ticks| - 1]), ticks[|ticks| - 1])
  }

  /** The reports made in a run. */
  function ReportsIn(ticks: seq<bool>): nat {
    if ticks == [] then 0 else
      var before := ticks[..|ticks| - 1];
      ReportsIn(before) + if Reports(Run(before), ticks[|ticks| - 1]) then 1 else 0
  }

  /** The ticks on which the process was found. */
  function FoundIn(ticks: seq<bool>): nat {
    if ticks == [] then 0 else FoundIn(ticks[..|ticks| - 1]) + if ticks[|ticks| - 1] then 1 else 0
  }

  /** The tick of report `k`, counting only ticks that found the process. */
  function Due(k: nat): nat {
    if k <= 121 then 1 + k + 5 * k * (k - 1) / 2 else Due(121) + 601 * (k - 121)
  }

  /** The delay once `k` reports have been made. */
  function DelayAfter(k: nat): nat {
    if k <= 120 then STEP * k else MAX_DELAY
  }

  lemma DueAfter(k: nat)
    ensures Due(0) == 1 && Due(k + 1) == Due(k) + 1 + DelayAfter(k)
  {
    if k < 121 {
      assert 5 * (k + 1) * k == 5 * k * (k - 1) + 10 * k;
    }
  }

  /** Where the timer stands after a run depends only on the number of ticks that found the process. */
  lemma {:induction false} RunIsSchedule(ticks: seq<bool>)
    ensures var n, k := FoundIn(ticks), ReportsIn(ticks);
      && (if k == 0 then 0 else Due(k)) <= n < Due(k + 1) && Due(k) <= n + 1
      && Run(ticks) == Counters(n + 1 - Due(k), DelayAfter(k))
    decreases |ticks|
  {
    hide Due;
    DueAfter(0);
    if ticks == [] {
    } else {
      var before := ticks[..|ticks| - 1];
      RunIsSchedule(before);
      DueAfter(ReportsIn(before));
      DueAfter(ReportsIn(before) + 1);
    }
  }

  lemma {:induction false} DueIncreases(j: nat, k: nat)
    requires j < k
    ensures Due(j) < Due(k)
    decreases k
  {
    DueAfter(k - 1);
    if j < k - 1 {
      DueIncreases(j, k - 1);
    }
  }

  /**
   The next tick makes report `k` exactly when it finds the process for the `Due(k)`-th time and `k` is not zero: report
   `k` comes on tick 1 + k + 5k(k - 1)/2 up to the 121st, and every 601 ticks from then on.
   */
  lemma ReportsWhenDue(ticks: seq<bool>, found: bool, k: nat)
    ensures Reports(Run(ticks), found) && ReportsIn(ticks + [found]) == k
            <==> found && FoundIn(ticks + [found]) == Due(k) && k > 0
  {
    var made := ReportsIn(ticks);
    RunIsSchedule(ticks);
    assert (ticks + [found])[..|ticks + [found]| - 1] == ticks;
    DueAfter(made);
    if k > made + 1 {
      DueIncreases(made + 1, k);
    } else if 0 < k < made {
      DueIncreases(k, made);
    }
  }

  /** Throughout a run the delay is a multiple of five up to 600, and the count at most one above it. */
  lemma {:induction false} CountersAreBounded(ticks: seq<bool>)
    ensures var c := Run(ticks); c.delay % STEP == 0 && c.delay <= MAX_DELAY && c.count <= c.delay + 1
  {
    hide Due, Run, FoundIn, ReportsIn;
    RunIsSchedule(ticks);
    DueAfter(ReportsIn(ticks));
  }

  lemma {:induction false} DelayNeverShrinks(ticks: seq<bool>, more: seq<bool>)
    ensures Run(ticks).delay <= Run(ticks + more).delay
    decreases |more|
  {
    if more == [] {
      assert ticks + more == ticks;
    } else {
      DelayNeverShrinks(ticks, more[..|more| - 1]);
      assert (ticks + more)[..|ticks + more| - 1] == ticks + more[..|more| - 1];
    }
  }
}

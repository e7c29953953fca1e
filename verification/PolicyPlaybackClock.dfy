/**
 The absolute-time scheduler of every policy mode, on 64-bit machine integers.

 `Fires` is the rule the clock is meant to implement; the class is the code.
 */
module PolicyPlaybackClock {

  const INT64_MAX: int := 0x7fff_ffff_ffff_ffff

  newtype int64 = x: int | -0x8000_0000_0000_0000 <= x <= INT64_MAX
  newtype uint64 = x: int | 0 <= x < 0x1_0000_0000_0000_0000

  /** The clock's fields as mathematical integers; `last` is -1 before the first tick. */
  datatype Clock = Clock(startNs: int, nextNs: int, last: int)

  function Reset(nowNs: int): Clock {
    Clock(nowNs, nowNs, -1)
  }

  function Tick(c: Clock, periodNs: int, nowNs: int): int
    requires periodNs > 0
  {
    (nowNs - c.startNs) / periodNs
  }

  /** The rule: the clock has been reset to a positive time, the period is positive,
      and the number of whole periods since the reset is beyond the last fired tick. */
  predicate Fires(c: Clock, periodNs: int, nowNs: int) {
    c.startNs > 0 && periodNs > 0 && nowNs >= c.startNs && Tick(c, periodNs, nowNs) > c.last
  }

  function NextNs(startNs: int, periodNs: int, tick: int): int
    requires periodNs > 0
  {
    if tick >= (INT64_MAX - startNs) / periodNs then INT64_MAX else startNs + (tick + 1) * periodNs
  }

  /** `take`: fires, and the state it leaves. */
  function Take(c: Clock, periodNs: int, nowNs: int): (bool, Clock) {
    if c.startNs <= 0 || periodNs <= 0 || nowNs < c.nextNs then (false, c)
    else
      var tick := (if nowNs < c.startNs then 0 else nowNs - c.startNs) / periodNs;
      if c.last >= 0 && tick == c.last then (false, c)
      else (true, Clock(c.startNs, NextNs(c.startNs, periodNs, tick), tick))
  }

  /** The next deadline is on the absolute grid, or saturated past its last point. */
  predicate OnGrid(c: Clock, periodNs: int) {
    && c.last >= -1
    && (c.last == -1 ==> c.nextNs == c.startNs)
    && c.startNs <= c.nextNs
    && (c.last >= 0 && c.startNs > 0 && periodNs > 0 ==>
          && c.last <= (INT64_MAX - c.startNs) / periodNs
          && c.nextNs == NextNs(c.startNs, periodNs, c.last))
  }

  lemma FloorReaches(x: int, k: int, d: int)
    requires d > 0
    ensures x / d >= k <==> x >= k * d
  {
    if x / d >= k {
      assert x / d * d >= k * d;
    } else {
      assert (x / d + 1) * d <= k * d;
    }
  }

  lemma FloorMonotone(x: int, y: int, d: int)
    requires d > 0 && x <= y
    ensures x / d <= y / d
  {
    FloorReaches(y, x / d, d);
    FloorReaches(x, x / d, d);
  }

  /** One poll refines the rule, whatever the time, early, late or repeated; with a
      representable time the clock stays on its grid, also at saturation. */
  ghost predicate Refined(c: Clock, periodNs: int, nowNs: int) {
    var (fires, d) := Take(c, periodNs, nowNs);
    && (fires <==> Fires(c, periodNs, nowNs))
    && OnGrid(d, periodNs) && d.startNs == c.startNs
    && (fires ==> d.last == Tick(c, periodNs, nowNs) > c.last)
    && (!fires ==> d == c)
  }

  lemma FirstTakeRefines(c: Clock, periodNs: int, nowNs: int)
    requires c.startNs > 0 && periodNs > 0 && c.last == -1 && c.nextNs == c.startNs
    requires nowNs <= INT64_MAX
    ensures Refined(c, periodNs, nowNs)
  {
    if nowNs >= c.startNs {
      FloorMonotone(0, nowNs - c.startNs, periodNs);
      FloorMonotone(nowNs - c.startNs, INT64_MAX - c.startNs, periodNs);
    }
  }

  lemma LaterTakeRefines(c: Clock, periodNs: int, nowNs: int)
    requires c.startNs > 0 && periodNs > 0 && OnGrid(c, periodNs) && c.last >= 0
    requires nowNs <= INT64_MAX && c.last < (INT64_MAX - c.startNs) / periodNs
    ensures Refined(c, periodNs, nowNs)
  {
    FloorReaches(nowNs - c.startNs, c.last + 1, periodNs);
    assert c.nextNs == c.startNs + (c.last + 1) * periodNs;
    assert (c.last + 1) * periodNs > 0;
    FloorMonotone(nowNs - c.startNs, INT64_MAX - c.startNs, periodNs);
  }

  lemma SaturatedTakeRefines(c: Clock, periodNs: int, nowNs: int)
    requires 0 < c.startNs <= INT64_MAX && periodNs > 0 && OnGrid(c, periodNs) && c.last >= 0
    requires nowNs <= INT64_MAX && c.last == (INT64_MAX - c.startNs) / periodNs
    ensures Refined(c, periodNs, nowNs)
  {
    FloorMonotone(nowNs - c.startNs, INT64_MAX - c.startNs, periodNs);
  }

  lemma TakeRefinesRule(c: Clock, periodNs: int, nowNs: int)
    requires OnGrid(c, periodNs) && nowNs <= INT64_MAX && c.startNs <= INT64_MAX
    ensures Refined(c, periodNs, nowNs)
  {
    if c.startNs > 0 && periodNs > 0 {
      if c.last == -1 { FirstTakeRefines(c, periodNs, nowNs); }
      else if c.last < (INT64_MAX - c.startNs) / periodNs { LaterTakeRefines(c, periodNs, nowNs); }
      else { SaturatedTakeRefines(c, periodNs, nowNs); }
    }
  }

  /** Any sequence of polls after a reset, at one period. */
  ghost predicate Polls(clocks: seq<Clock>, periodNs: int, times: seq<int>) {
    && |clocks| == |times| + 1
    && clocks[0] == Reset(clocks[0].startNs) && clocks[0].startNs <= INT64_MAX
    && forall k :: 0 <= k < |times| ==>
         times[k] <= INT64_MAX && clocks[k + 1] == Take(clocks[k], periodNs, times[k]).1
  }

  lemma {:induction false} PollsStayOnGrid(clocks: seq<Clock>, periodNs: int, times: seq<int>, n: nat)
    requires Polls(clocks, periodNs, times) && n < |clocks|
    ensures OnGrid(clocks[n], periodNs) && clocks[n].startNs == clocks[0].startNs
  {
    if n > 0 {
      PollsStayOnGrid(clocks, periodNs, times, n - 1);
      TakeRefinesRule(clocks[n - 1], periodNs, times[n - 1]);
    }
  }

  lemma {:induction false} TicksNeverFallBack(clocks: seq<Clock>, periodNs: int, times: seq<int>, j: nat, n: nat)
    requires Polls(clocks, periodNs, times) && j <= n < |clocks|
    ensures clocks[j].last <= clocks[n].last
  {
    if j < n {
      TicksNeverFallBack(clocks, periodNs, times, j, n - 1);
      PollsStayOnGrid(clocks, periodNs, times, n - 1);
      TakeRefinesRule(clocks[n - 1], periodNs, times[n - 1]);
    }
  }

  lemma NextNsExactly(startNs: int, periodNs: int, tick: int)
    requires periodNs > 0
    ensures var next := startNs + (tick + 1) * periodNs;
      NextNs(startNs, periodNs, tick) == if next <= INT64_MAX then next else INT64_MAX
  {
    FloorReaches(INT64_MAX - startNs, tick + 1, periodNs);
  }

  /** After any polls the deadline is the grid point after the last tick, or the end of
      time if there is none; before the first tick it is the reset itself. */
  lemma DeadlinesAreOnTheGrid(clocks: seq<Clock>, periodNs: int, times: seq<int>, n: nat)
    requires Polls(clocks, periodNs, times) && n < |clocks| && clocks[0].startNs > 0 && periodNs > 0
    ensures var next := clocks[0].startNs + (clocks[n].last + 1) * periodNs;
      clocks[n].nextNs == if next <= INT64_MAX then next else INT64_MAX
  {
    PollsStayOnGrid(clocks, periodNs, times, n);
    NextNsExactly(clocks[0].startNs, periodNs, clocks[n].last);
  }

  /** A poll fires exactly when no earlier poll has fired for the current period or a
      later one: the history form of the rule, with no state in it. */
  lemma FiresOncePerPeriod(clocks: seq<Clock>, periodNs: int, times: seq<int>, n: nat)
    requires Polls(clocks, periodNs, times) && n < |times| && clocks[0].startNs > 0 && periodNs > 0
    ensures Take(clocks[n], periodNs, times[n]).0 <==>
              && times[n] >= clocks[0].startNs
              && forall j :: 0 <= j < n && times[j] >= clocks[0].startNs ==>
                   Tick(clocks[0], periodNs, times[j]) < Tick(clocks[0], periodNs, times[n])
  {
    PollsStayOnGrid(clocks, periodNs, times, n);
    TakeRefinesRule(clocks[n], periodNs, times[n]);
    LastIsHighest(clocks, periodNs, times, n);
    if times[n] >= clocks[0].startNs {
      FloorMonotone(0, times[n] - clocks[0].startNs, periodNs);
    }
  }

  /** The last fired tick is the highest period any poll has fallen into. */
  lemma {:induction false} LastIsHighest(clocks: seq<Clock>, periodNs: int, times: seq<int>, n: nat)
    requires Polls(clocks, periodNs, times) && n < |clocks| && clocks[0].startNs > 0 && periodNs > 0
    ensures forall j :: 0 <= j < n && times[j] >= clocks[0].startNs ==>
              Tick(clocks[0], periodNs, times[j]) <= clocks[n].last
    ensures clocks[n].last == -1
            || exists j :: 0 <= j < n && times[j] >= clocks[0].startNs
                           && Tick(clocks[0], periodNs, times[j]) == clocks[n].last
  {
    if n > 0 {
      LastIsHighest(clocks, periodNs, times, n - 1);
      PollsStayOnGrid(clocks, periodNs, times, n - 1);
      TakeRefinesRule(clocks[n - 1], periodNs, times[n - 1]);
    }
  }

  class PlaybackClock {
    var startNs: int64
    var nextPolicyNs: int64
    var lastPolicyTick: uint64
    var hasProcessedTick: bool

    ghost function Value(): Clock
      reads this
    {
      Clock(startNs as int, nextPolicyNs as int, if hasProcessedTick then lastPolicyTick as int else -1)
    }

    constructor ()
      ensures startNs == 0 && nextPolicyNs == 0 && lastPolicyTick == 0 && !hasProcessedTick
    {
      startNs, nextPolicyNs, lastPolicyTick, hasProcessedTick := 0, 0, 0, false;
    }

    method ResetTo(nowNs: int64)
      modifies this
      ensures Value() == Reset(nowNs as int)
    {
      startNs, nextPolicyNs, lastPolicyTick, hasProcessedTick := nowNs, nowNs, 0, false;
    }

    /** Every intermediate value fits its 64-bit type. */
    method TakeTick(policyPeriodNs: int64, nowNs: int64) returns (fires: bool, policyTick: uint64)
      requires OnGrid(Value(), policyPeriodNs as int)
      modifies this
      ensures (fires, Value()) == Take(old(Value()), policyPeriodNs as int, nowNs as int)
      ensures OnGrid(Value(), policyPeriodNs as int)
      ensures fires <==> Fires(old(Value()), policyPeriodNs as int, nowNs as int)
      ensures fires ==> policyTick as int == Value().last
    {
      ghost var c := Value();
      assert Refined(c, policyPeriodNs as int, nowNs as int) by {
        TakeRefinesRule(c, policyPeriodNs as int, nowNs as int);
      }
      fires, policyTick := false, 0;
      if startNs <= 0 || policyPeriodNs <= 0 || nowNs < nextPolicyNs { return; }
      policyTick := WholePeriods(policyPeriodNs, nowNs);
      if hasProcessedTick && policyTick == lastPolicyTick { return; }
      lastPolicyTick, hasProcessedTick, fires := policyTick, true, true;
      nextPolicyNs := NextDeadline(policyPeriodNs, policyTick);
    }

    /** `std::max(0, nowNs - startNs_) / policyPeriodNs`; the maximum never bites,
        because the next deadline is not before the start. */
    method WholePeriods(policyPeriodNs: int64, nowNs: int64) returns (tick: uint64)
      requires 0 < startNs <= nowNs && policyPeriodNs > 0
      ensures tick as int == (nowNs as int - startNs as int) / policyPeriodNs as int
    {
      var elapsedNs := nowNs - startNs;
      FloorInRange(elapsedNs as int, policyPeriodNs as int);
      tick := (elapsedNs / policyPeriodNs) as uint64;
    }

    method NextDeadline(policyPeriodNs: int64, policyTick: uint64) returns (r: int64)
      requires startNs > 0 && policyPeriodNs > 0
      ensures r as int == NextNs(startNs as int, policyPeriodNs as int, policyTick as int)
    {
      var kMaxNs: int64 := 0x7fff_ffff_ffff_ffff;
      FloorInRange((kMaxNs - startNs) as int, policyPeriodNs as int);
      var maxNextTick := ((kMaxNs - startNs) / policyPeriodNs) as uint64;
      if policyTick >= maxNextTick {
        r := kMaxNs;
      } else {
        FloorReaches((kMaxNs - startNs) as int, policyTick as int + 1, policyPeriodNs as int);
        ProductBounds(policyTick as int + 1, policyPeriodNs as int);
        r := startNs + (policyTick + 1) as int64 * policyPeriodNs;
      }
    }
  }

  lemma FloorInRange(x: int, d: int)
    requires 0 <= x <= INT64_MAX && d > 0
    ensures 0 <= x / d <= x
  {
    FloorReaches(x, 0, d);
    FloorReaches(x, x + 1, d);
    ProductBounds(x + 1, d);
  }

  lemma ProductBounds(k: int, d: int)
    requires k > 0 && d > 0
    ensures k <= k * d
  {
  }
}

/**
 The hardware loop's absolute deadline grid: what each cycle does with the deadline,
 and where the cycles of a whole run fall.
 */
module LeggedHWLoop {
  import opened Common

  datatype Loop = Loop(lastTime: int, nextDeadline: int)

  /** `loopThreadConfigured_`: the grid starts at the moment of set-up. */
  function Configured(base: int, period: int): Loop {
    Loop(base, base + period)
  }

  /** The clock at the start of a cycle and at the end of its work. */
  datatype Cycle = Cycle(now: int, workEnd: int)

  /** Slots whose deadline has already passed when the cycle starts. */
  function Expired(l: Loop, period: int, now: int): (r: nat)
    requires period > 0
  {
    if now >= l.nextDeadline then (now - l.nextDeadline) / period + 1 else 0
  }

  function Deadline(l: Loop, period: int, now: int): int
    requires period > 0
  {
    l.nextDeadline + period * Expired(l, period, now)
  }

  /** One `update`. */
  function Updated(l: Loop, period: int, c: Cycle): Loop
    requires period > 0
  {
    Loop(c.now, Deadline(l, period, c.now) + period)
  }

  /** `deadlineMissed`. */
  predicate Missed(l: Loop, period: int, c: Cycle)
    requires period > 0
  {
    Expired(l, period, c.now) > 0 || c.workEnd > Deadline(l, period, c.now)
  }

  // ---------------------------------------------------------------------------
  // Runs
  // ---------------------------------------------------------------------------

  function After(base: int, period: int, cs: seq<Cycle>): Loop
    requires period > 0
  {
    if cs == [] then Configured(base, period) else Updated(After(base, period, Front(cs)), period, Last(cs))
  }

  /** The loop as cycle `k` finds it. */
  function At(base: int, period: int, cs: seq<Cycle>, k: nat): Loop
    requires period > 0 && k <= |cs|
  {
    After(base, period, cs[..k])
  }

  function ExpiredAt(base: int, period: int, cs: seq<Cycle>, k: nat): nat
    requires period > 0 && k < |cs|
  {
    Expired(At(base, period, cs, k), period, cs[k].now)
  }

  function DeadlineAt(base: int, period: int, cs: seq<Cycle>, k: nat): int
    requires period > 0 && k < |cs|
  {
    Deadline(At(base, period, cs, k), period, cs[k].now)
  }

  function TotalExpired(base: int, period: int, cs: seq<Cycle>, k: nat): nat
    requires period > 0 && k <= |cs|
  {
    if k == 0 then 0 else TotalExpired(base, period, cs, k - 1) + ExpiredAt(base, period, cs, k - 1)
  }

  /** The clock does not go back, and a sleep does not end before its deadline; it is
      skipped only when the work ended after it. */
  ghost predicate Timed(base: int, period: int, cs: seq<Cycle>)
    requires period > 0
  {
    && (forall k :: 0 <= k < |cs| ==> base <= cs[k].now <= cs[k].workEnd)
    && (forall k {:trigger DeadlineAt(base, period, cs, k)} :: 0 <= k < |cs| - 1 ==>
          && cs[k].workEnd <= cs[k + 1].now
          && (cs[k].workEnd <= DeadlineAt(base, period, cs, k) ==> DeadlineAt(base, period, cs, k) <= cs[k + 1].now))
  }

  lemma AtStep(base: int, period: int, cs: seq<Cycle>, k: nat)
    requires period > 0 && k < |cs|
    ensures At(base, period, cs, k + 1) == Loop(cs[k].now, DeadlineAt(base, period, cs, k) + period)
  {
    assert Front(cs[..k + 1]) == cs[..k];
  }

  lemma FloorBounds(x: int, d: int)
    requires d > 0
    ensures x / d * d <= x < x / d * d + d
  {
  }

  /** The chosen deadline is the first grid point after the start. */
  lemma ExpiredIsExact(l: Loop, period: int, now: int)
    requires period > 0
    ensures now < Deadline(l, period, now)
    ensures now >= l.nextDeadline - period ==> now >= Deadline(l, period, now) - period
  {
    if now >= l.nextDeadline {
      var late := (now - l.nextDeadline) / period;
      FloorBounds(now - l.nextDeadline, period);
      assert period * (late + 1) == late * period + period;
    }
  }

  lemma Distribute(p: int, a: int, b: int)
    ensures p * (a + b) == p * a + p * b
  {
  }

  // ---------------------------------------------------------------------------
  // Theorems
  // ---------------------------------------------------------------------------

  /** Every deadline lies on the absolute grid: cycle `k` has the deadline of slot
      `k`, moved on by the slots that expired up to it. */
  lemma {:induction false} DeadlinesAreOnTheGrid(base: int, period: int, cs: seq<Cycle>, k: nat)
    requires period > 0 && k < |cs|
    ensures DeadlineAt(base, period, cs, k) == base + period * (k + 1 + TotalExpired(base, period, cs, k + 1))
    ensures At(base, period, cs, k).nextDeadline == base + period * (k + 1 + TotalExpired(base, period, cs, k))
  {
    if k > 0 {
      DeadlinesAreOnTheGrid(base, period, cs, k - 1);
      AtStep(base, period, cs, k - 1);
      Distribute(period, k + TotalExpired(base, period, cs, k), 1);
    } else {
      assert cs[..0] == [];
    }
    Distribute(period, k + 1 + TotalExpired(base, period, cs, k), ExpiredAt(base, period, cs, k));
  }

  /** Every cycle starts within the slot that ends at its deadline. */
  lemma CyclesStartInTheirSlot(base: int, period: int, cs: seq<Cycle>, k: nat)
    requires period > 0 && k < |cs| && Timed(base, period, cs)
    ensures DeadlineAt(base, period, cs, k) - period <= cs[k].now < DeadlineAt(base, period, cs, k)
  {
    ExpiredIsExact(At(base, period, cs, k), period, cs[k].now);
    if k > 0 {
      AtStep(base, period, cs, k - 1);
      assert DeadlineAt(base, period, cs, k - 1) <= cs[k].now;
    } else {
      assert cs[..0] == [];
    }
  }

  /** The slot of the grid a time falls into. */
  function SlotOf(base: int, period: int, now: int): int
    requires period > 0
  {
    (now - base) / period
  }

  lemma ProductSign(p: int, n: nat)
    requires p > 0
    ensures p * n >= 0
  {
  }

  lemma ProductOrder(p: int, a: int, b: int)
    requires p > 0
    ensures a < b ==> p * a + p <= p * b
  {
    if a < b {
      Distribute(p, a + 1, b - a - 1);
      Distribute(p, a, 1);
      ProductSign(p, b - a - 1);
    }
  }

  lemma SlotIsUnique(base: int, period: int, now: int, n: int)
    requires period > 0 && base + period * n <= now < base + period * n + period
    ensures SlotOf(base, period, now) == n
  {
    var m := SlotOf(base, period, now);
    FloorBounds(now - base, period);
    ProductOrder(period, n, m);
    ProductOrder(period, m, n);
  }

  /** Each cycle runs in its own slot, the one after the slots already used or expired,
      so between two cycles exactly the slots counted as expired have none. */
  lemma OneCyclePerSlot(base: int, period: int, cs: seq<Cycle>, k: nat)
    requires period > 0 && k < |cs| && Timed(base, period, cs)
    ensures SlotOf(base, period, cs[k].now) == k + TotalExpired(base, period, cs, k + 1)
    ensures k > 0 ==>
      SlotOf(base, period, cs[k].now) == SlotOf(base, period, cs[k - 1].now) + 1 + ExpiredAt(base, period, cs, k)
  {
    CycleSlot(base, period, cs, k);
    if k > 0 { CycleSlot(base, period, cs, k - 1); }
  }

  lemma CycleSlot(base: int, period: int, cs: seq<Cycle>, k: nat)
    requires period > 0 && k < |cs| && Timed(base, period, cs)
    ensures SlotOf(base, period, cs[k].now) == k + TotalExpired(base, period, cs, k + 1)
  {
    var n := k + TotalExpired(base, period, cs, k + 1);
    DeadlinesAreOnTheGrid(base, period, cs, k);
    CyclesStartInTheirSlot(base, period, cs, k);
    Distribute(period, n, 1);
    SlotIsUnique(base, period, cs[k].now, n);
  }

  lemma {:induction false} ExpiredGrow(base: int, period: int, cs: seq<Cycle>, j: nat, k: nat)
    requires period > 0 && j <= k <= |cs|
    ensures TotalExpired(base, period, cs, j) <= TotalExpired(base, period, cs, k)
  {
    if j < k { ExpiredGrow(base, period, cs, j, k - 1); }
  }

  /** There is never a burst of cycles to catch up: cycles `j` and `k` are more than
      `k - j - 1` periods apart, however late any of them was. */
  lemma NoCatchUpBurst(base: int, period: int, cs: seq<Cycle>, j: nat, k: nat)
    requires period > 0 && j < k < |cs| && Timed(base, period, cs)
    ensures cs[k].now - cs[j].now > period * (k - j - 1)
  {
    DeadlinesApart(base, period, cs, j, k);
    CyclesStartInTheirSlot(base, period, cs, j);
    CyclesStartInTheirSlot(base, period, cs, k);
  }

  lemma DeadlinesApart(base: int, period: int, cs: seq<Cycle>, j: nat, k: nat)
    requires period > 0 && j < k < |cs|
    ensures DeadlineAt(base, period, cs, k) - DeadlineAt(base, period, cs, j) >= period * (k - j - 1) + period
  {
    ExpiredGrow(base, period, cs, j + 1, k + 1);
    var a, b := j + 1 + TotalExpired(base, period, cs, j + 1), k + 1 + TotalExpired(base, period, cs, k + 1);
    assert DeadlineAt(base, period, cs, j) == base + period * a by { DeadlinesAreOnTheGrid(base, period, cs, j); }
    assert DeadlineAt(base, period, cs, k) == base + period * b by { DeadlinesAreOnTheGrid(base, period, cs, k); }
    MultiplesApart(period, a, b, k - j);
  }

  lemma MultiplesApart(p: int, a: int, b: int, n: int)
    requires p > 0 && b - a >= n
    ensures p * b - p * a >= p * (n - 1) + p
  {
    Distribute(p, a, b - a);
    Distribute(p, n, b - a - n);
    Distribute(p, n - 1, 1);
    ProductSign(p, b - a - n);
  }

  /** A deadline is reported as missed exactly when a slot before this cycle's had no
      cycle or the work of this one outlasted its slot; so every empty slot is reported
      by the next cycle. */
  lemma MissesAreReported(base: int, period: int, cs: seq<Cycle>, k: nat)
    requires period > 0 && 0 < k < |cs| && Timed(base, period, cs)
    ensures Missed(At(base, period, cs, k), period, cs[k]) <==>
      || SlotOf(base, period, cs[k].now) > SlotOf(base, period, cs[k - 1].now) + 1
      || cs[k].workEnd > DeadlineAt(base, period, cs, k)
  {
    OneCyclePerSlot(base, period, cs, k);
  }

  class HWLoop {
    const period: int
    var lastTime: int
    var nextDeadline: int

    ghost function Value(): Loop
      reads this
    {
      Loop(lastTime, nextDeadline)
    }

    constructor (period: int, base: int)
      ensures this.period == period && Value() == Configured(base, period)
    {
      this.period, lastTime, nextDeadline := period, base, base + period;
    }

    /** The two readings of the clock are passed in; `sleeps` says whether the loop
        sleeps until `cycleDeadline`. */
    method Update(c: Cycle) returns (elapsed: int, cycleDeadline: int, deadlineMissed: bool, sleeps: bool)
      requires period > 0
      modifies this
      ensures Value() == Updated(old(Value()), period, c)
      ensures elapsed == c.now - old(lastTime) && cycleDeadline == Deadline(old(Value()), period, c.now)
      ensures deadlineMissed == Missed(old(Value()), period, c) && sleeps == (c.workEnd <= cycleDeadline)
    {
      var expiredSlots := 0;
      if c.now >= nextDeadline {
        var periodsLate := (c.now - nextDeadline) / period + 1;
        expiredSlots := periodsLate;
        nextDeadline := nextDeadline + period * periodsLate;
      }
      cycleDeadline := nextDeadline;
      elapsed := c.now - lastTime;
      lastTime := c.now;
      var workDeadlineMissed := c.workEnd > cycleDeadline;
      deadlineMissed := expiredSlots > 0 || workDeadlineMissed;
      nextDeadline := cycleDeadline + period;
      sleeps := !workDeadlineMissed;
    }
  }
}

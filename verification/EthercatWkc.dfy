/**
 The EtherCAT side of the fail-closed chain: the windowed working-counter monitor, the
 cycle tracker, and the fault latch `rt_ethercat_run` composes them with.
 */
module EthercatWkc {
  import opened Common

  // ---------------------------------------------------------------------------
  // The windowed monitor
  // ---------------------------------------------------------------------------

  datatype Window = Window(cycles: nat, maxErrors: nat)
  {
    predicate Valid() { cycles >= 1 }
  }

  /** `kEthercatErrorWindowCycles` and `kEthercatMaxErrorsPerWindow`. */
  const RT_WINDOW: Window := Window(100, 20)

  datatype Monitor = Monitor(cycleCount: nat, errorCount: nat)

  /** `EthercatWkcMonitor::observe`. */
  function Observe(w: Window, m: Monitor, valid: bool): (bool, Monitor) {
    var cycles := m.cycleCount + 1;
    var errors := if valid then m.errorCount else m.errorCount + 1;
    (errors > w.maxErrors, if cycles >= w.cycles then Monitor(0, 0) else Monitor(cycles, errors))
  }

  function Observed(w: Window, vs: seq<bool>): Monitor {
    if vs == [] then Monitor(0, 0) else Observe(w, Observed(w, Front(vs)), Last(vs)).1
  }

  /** What `observe` returns for sample `k`. */
  predicate Exceeds(w: Window, vs: seq<bool>, k: nat)
    requires k < |vs|
  {
    Observe(w, Observed(w, vs[..k]), vs[k]).0
  }

  // ---------------------------------------------------------------------------
  // The same by counting errors in the history
  // ---------------------------------------------------------------------------

  /** Invalid cycles among `vs[lo..hi]`. */
  function Errors(vs: seq<bool>, lo: nat, hi: nat): (r: nat)
    requires lo <= hi <= |vs|
    ensures r <= hi - lo
    decreases hi - lo
  {
    if lo == hi then 0 else Errors(vs, lo, hi - 1) + (if vs[hi - 1] then 0 else 1)
  }

  lemma {:induction false} ErrorsSplit(vs: seq<bool>, lo: nat, mid: nat, hi: nat)
    requires lo <= mid <= hi <= |vs|
    ensures Errors(vs, lo, hi) == Errors(vs, lo, mid) + Errors(vs, mid, hi)
    decreases hi - mid
  {
    if mid < hi { ErrorsSplit(vs, lo, mid, hi - 1); }
  }

  lemma {:induction false} ErrorsOfPrefix(vs: seq<bool>, n: nat, lo: nat, hi: nat)
    requires lo <= hi <= n <= |vs|
    ensures Errors(vs[..n], lo, hi) == Errors(vs, lo, hi)
    decreases hi - lo
  {
    if lo < hi { ErrorsOfPrefix(vs, n, lo, hi - 1); }
  }

  /** Where the aligned window that sample `k` falls into began. */
  function WindowStart(w: Window, k: nat): (r: nat)
    requires w.Valid()
    ensures r <= k && k - r == k % w.cycles < w.cycles
  {
    k - k % w.cycles
  }

  lemma NextInWindow(n: nat, d: nat)
    requires d >= 1
    ensures (n + 1) % d == if n % d + 1 == d then 0 else n % d + 1
  {
    var q, r := n / d, n % d;
    assert n == q * d + r;
    if r + 1 == d {
      assert n + 1 == (q + 1) * d;
      RemainderOf(n + 1, q + 1, 0, d);
    } else {
      RemainderOf(n + 1, q, r + 1, d);
    }
  }

  lemma RemainderOf(n: nat, q: nat, r: nat, d: nat)
    requires d >= 1 && r < d && n == q * d + r
    ensures n % d == r
  {
    var e, m: int := n / d - q, d;
    assert e * m == r - n % d by {
      assert n == (n / d) * d + n % d;
      assert e * m == (n / d) * m - q * m;
    }
    assert -m < e * m < m;
    assert e == 0;
  }

  /** The monitor holds the position in the current aligned window and its errors. */
  lemma {:induction false} MonitorIsHistory(w: Window, vs: seq<bool>)
    requires w.Valid()
    ensures Observed(w, vs) == Monitor(|vs| % w.cycles, Errors(vs, WindowStart(w, |vs|), |vs|))
  {
    if vs == [] {
    } else {
      var n := |vs| - 1;
      MonitorIsHistory(w, Front(vs));
      ErrorsOfPrefix(vs, n, WindowStart(w, n), n);
      NextInWindow(n, w.cycles);
    }
  }

  /** `observe` returns true exactly when the errors so far in the aligned window,
      this sample included, exceed the limit. */
  lemma ExceedsExactly(w: Window, vs: seq<bool>, k: nat)
    requires w.Valid() && k < |vs|
    ensures Exceeds(w, vs, k) <==> Errors(vs, WindowStart(w, k), k + 1) > w.maxErrors
  {
    MonitorIsHistory(w, vs[..k]);
    ErrorsOfPrefix(vs, k, WindowStart(w, k), k);
  }

  /** More than twice the limit in any window of that length, aligned or not, is
      noticed by its last cycle. */
  lemma DenseErrorsAreNoticed(w: Window, vs: seq<bool>, a: nat) returns (k: nat)
    requires w.Valid() && a + w.cycles <= |vs| && Errors(vs, a, a + w.cycles) > 2 * w.maxErrors
    ensures a <= k < a + w.cycles && Exceeds(w, vs, k)
  {
    var b := WindowStart(w, a + w.cycles);
    ErrorsSplit(vs, a, b, a + w.cycles);
    if Errors(vs, b, a + w.cycles) > w.maxErrors {
      k := a + w.cycles - 1;
      SameWindow(w, b, k);
      ExceedsExactly(w, vs, k);
    } else {
      k := b - 1;
      BoundaryWindow(w, a);
      ErrorsSplit(vs, WindowStart(w, k), a, b);
      ExceedsExactly(w, vs, k);
    }
  }

  /** `k` is in the window that starts at `b`, because the cycle after it still is. */
  lemma SameWindow(w: Window, b: nat, k: nat)
    requires w.Valid() && b <= k && b == WindowStart(w, k + 1)
    ensures WindowStart(w, k) == b
  {
    NextInWindow(k, w.cycles);
  }

  /** The last window boundary up to `a + cycles` is after `a`, and the window before it
      started no later than `a`. */
  lemma BoundaryWindow(w: Window, a: nat)
    requires w.Valid()
    ensures var b := WindowStart(w, a + w.cycles); b > a && WindowStart(w, b - 1) <= a
  {
    var d := w.cycles;
    assert (a + d) % d == a % d by { RemainderOf(a + d, a / d + 1, a % d, d); }
    var b := WindowStart(w, a + d);
    assert b == a - a % d + d;
    RemainderOf(b - 1, a / d, d - 1, d);
  }

  /** Conversely a report has a cause no longer than a window. */
  lemma ReportsHaveACause(w: Window, vs: seq<bool>, k: nat) returns (lo: nat)
    requires w.Valid() && k < |vs| && Exceeds(w, vs, k)
    ensures lo <= k && k + 1 - lo <= w.cycles && Errors(vs, lo, k + 1) > w.maxErrors
  {
    ExceedsExactly(w, vs, k);
    lo := WindowStart(w, k);
  }

  lemma {:induction false} ConstantErrors(vs: seq<bool>, lo: nat, hi: nat, valid: bool)
    requires lo <= hi <= |vs| && forall k :: lo <= k < hi ==> vs[k] == valid
    ensures Errors(vs, lo, hi) == if valid then 0 else hi - lo
    decreases hi - lo
  {
    if lo < hi { ConstantErrors(vs, lo, hi - 1, valid); }
  }

  lemma FirstTwoWindows(k: nat)
    requires k < 200
    ensures WindowStart(RT_WINDOW, k) == if k < 100 then 0 else 100
  {
  }

  lemma QuietWindows(vs: seq<bool>, k: nat)
    requires |vs| == 200 && k < 200
    requires Errors(vs, 0, 100) <= RT_WINDOW.maxErrors && Errors(vs, 100, 200) <= RT_WINDOW.maxErrors
    ensures !Exceeds(RT_WINDOW, vs, k)
  {
    ExceedsExactly(RT_WINDOW, vs, k);
    FirstTwoWindows(k);
    if k < 100 {
      ErrorsSplit(vs, 0, k + 1, 100);
    } else {
      ErrorsSplit(vs, 100, k + 1, 200);
    }
  }

  lemma BurstErrors(vs: seq<bool>)
    requires |vs| == 200 && forall k :: 0 <= k < 200 ==> vs[k] == (k < 80 || k >= 120)
    ensures Errors(vs, 0, 100) == Errors(vs, 100, 200) == 20 && Errors(vs, 80, 180) == 40
  {
    ConstantErrors(vs, 0, 80, true);
    ConstantErrors(vs, 80, 100, false);
    ConstantErrors(vs, 100, 120, false);
    ConstantErrors(vs, 120, 180, true);
    ConstantErrors(vs, 180, 200, true);
    ErrorsSplit(vs, 0, 80, 100);
    ErrorsSplit(vs, 100, 120, 200);
    ErrorsSplit(vs, 120, 180, 200);
    ErrorsSplit(vs, 80, 100, 180);
    ErrorsSplit(vs, 100, 120, 180);
  }

  /** The factor two is exact: with the limit and the window of the controller, forty
      errors within a hundred cycles may pass unnoticed. */
  lemma TwiceTheLimitMayPass() returns (vs: seq<bool>)
    ensures |vs| == 200 && Errors(vs, 80, 180) == 40
    ensures forall k :: 0 <= k < |vs| ==> !Exceeds(RT_WINDOW, vs, k)
  {
    vs := seq(200, k => k < 80 || k >= 120);
    BurstErrors(vs);
    forall k: nat | k < |vs| ensures !Exceeds(RT_WINDOW, vs, k) {
      QuietWindows(vs, k);
    }
  }

  // ---------------------------------------------------------------------------
  // The cycle tracker and `rt_ethercat_run`
  // ---------------------------------------------------------------------------

  datatype CycleState = Uninitialized | ValidCycle | InvalidWkc | FaultLatched | Shutdown

  datatype Snapshot = Snapshot(
    cycleSequence: nat, lastValidSequence: nat, lastInvalidSequence: nat, steadyTimestampNs: nat,
    lastValidSteadyTimestampNs: nat, totalInvalid: nat, consecutiveInvalid: nat,
    actualWkc: int, expectedWkc: int, state: CycleState, dataValid: bool, faultLatched: bool)

  const NO_CYCLE: Snapshot := Snapshot(0, 0, 0, 0, 0, 0, 0, 0, 0, Uninitialized, false, false)

  const UINT32_MAX: nat := 0xffff_ffff

  /** One exchange of process data. */
  datatype Exchange = Exchange(wkc: int, expected: int, steadyNs: nat)
  {
    predicate Valid() { expected > 0 && wkc >= expected }
  }

  /** `EthercatCycleTracker::observe`. */
  function Tracked(s: Snapshot, x: Exchange, latched: bool): Snapshot {
    var t := s.(cycleSequence := s.cycleSequence + 1, steadyTimestampNs := x.steadyNs, actualWkc := x.wkc,
                expectedWkc := x.expected, dataValid := x.Valid(), faultLatched := latched);
    var u := if x.Valid()
             then t.(lastValidSequence := t.cycleSequence, lastValidSteadyTimestampNs := x.steadyNs, consecutiveInvalid := 0)
             else t.(lastInvalidSequence := t.cycleSequence, totalInvalid := t.totalInvalid + 1,
                     consecutiveInvalid := if t.consecutiveInvalid != UINT32_MAX then t.consecutiveInvalid + 1
                                           else t.consecutiveInvalid);
    u.(state := if latched then FaultLatched else if x.Valid() then ValidCycle else InvalidWkc)
  }

  function MarkedShutdown(s: Snapshot, steadyNs: nat): Snapshot {
    s.(steadyTimestampNs := steadyNs, dataValid := false, state := Shutdown)
  }

  /** The state `rt_ethercat_run` keeps between cycles; `raisedEvents` counts how often
      it has set the event flag another thread consumes. */
  datatype Bus = Bus(monitor: Monitor, faultLatched: bool, raisedEvents: nat, snapshot: Snapshot,
                     lastCycleValid: bool, droppedTotal: nat)

  const NEW_BUS: Bus := Bus(Monitor(0, 0), false, 0, NO_CYCLE, false, 0)

  function Ran(b: Bus, x: Exchange): Bus {
    var (exceeded, m) := Observe(RT_WINDOW, b.monitor, x.Valid());
    var latched := b.faultLatched || exceeded;
    var snapshot := Tracked(b.snapshot, x, latched);
    Bus(m, latched, b.raisedEvents + if exceeded && !b.faultLatched then 1 else 0, snapshot, snapshot.dataValid,
        b.droppedTotal + if x.Valid() then 0 else 1)
  }

  function RanAll(xs: seq<Exchange>): Bus {
    if xs == [] then NEW_BUS else Ran(RanAll(Front(xs)), Last(xs))
  }

  function Validity(xs: seq<Exchange>): seq<bool> {
    seq(|xs|, k requires 0 <= k < |xs| => xs[k].Valid())
  }

  /** The number of the last exchange, counted from one, of the given validity; 0 if none. */
  function LastNumber(xs: seq<Exchange>, valid: bool): (r: nat)
    ensures r <= |xs|
    ensures r > 0 ==> xs[r - 1].Valid() == valid
    ensures forall k :: r <= k < |xs| ==> xs[k].Valid() != valid
  {
    if xs == [] then 0
    else if Last(xs).Valid() == valid then |xs|
    else LastNumber(Front(xs), valid)
  }

  /** The latch is set exactly when some cycle's window exceeded the limit, so it never
      clears; the event that reports it is raised once. */
  lemma {:induction false} LatchIsHistory(xs: seq<Exchange>)
    ensures RanAll(xs).monitor == Observed(RT_WINDOW, Validity(xs))
    ensures RanAll(xs).faultLatched <==> exists k :: 0 <= k < |xs| && Exceeds(RT_WINDOW, Validity(xs), k)
    ensures RanAll(xs).raisedEvents == if RanAll(xs).faultLatched then 1 else 0
  {
    if xs == [] {
    } else {
      var vs, n := Validity(xs), |xs| - 1;
      LatchIsHistory(Front(xs));
      assert Front(vs) == Validity(Front(xs)) == vs[..n];
      forall k | 0 <= k < n ensures Exceeds(RT_WINDOW, Front(vs), k) == Exceeds(RT_WINDOW, vs, k) {
        assert Front(vs)[..k] == vs[..k];
      }
      assert Exceeds(RT_WINDOW, vs, n) == Observe(RT_WINDOW, RanAll(Front(xs)).monitor, Last(xs).Valid()).0;
    }
  }

  /** Before the first exchange nothing is valid, nothing is latched, and nothing has been
      counted. */
  lemma NothingExchanged()
    ensures RanAll([]) == Bus(Monitor(0, 0), false, 0, Snapshot(0, 0, 0, 0, 0, 0, 0, 0, 0, Uninitialized, false, false),
                              false, 0)
  {
  }

  /** The published snapshot describes the last exchange and the counts of all of them. */
  lemma {:induction false} SnapshotIsHistory(xs: seq<Exchange>)
    requires xs != []
    ensures var b, x := RanAll(xs), Last(xs);
      && b.snapshot.cycleSequence == |xs| && b.snapshot.steadyTimestampNs == x.steadyNs
      && b.snapshot.actualWkc == x.wkc && b.snapshot.expectedWkc == x.expected
      && (b.snapshot.dataValid <==> x.expected > 0 && x.wkc >= x.expected) && b.lastCycleValid == b.snapshot.dataValid
      && b.snapshot.faultLatched == b.faultLatched
      && b.snapshot.state == (if b.faultLatched then FaultLatched
                              else if b.snapshot.dataValid then ValidCycle else InvalidWkc)
    ensures TrackedCounts(xs, RanAll(xs).snapshot) && RanAll(xs).droppedTotal == RanAll(xs).snapshot.totalInvalid
  {
    CountsAreHistory(xs);
  }

  ghost predicate TrackedCounts(xs: seq<Exchange>, s: Snapshot) {
    && s.cycleSequence == |xs|
    && s.lastValidSequence == LastNumber(xs, true) && s.lastInvalidSequence == LastNumber(xs, false)
    && s.lastValidSteadyTimestampNs == (if s.lastValidSequence == 0 then 0 else xs[s.lastValidSequence - 1].steadyNs)
    && s.totalInvalid == Errors(Validity(xs), 0, |xs|)
    && s.consecutiveInvalid == Min(|xs| - s.lastValidSequence, UINT32_MAX)
  }

  lemma CountsStep(xs: seq<Exchange>, s: Snapshot, latched: bool)
    requires xs != [] && TrackedCounts(Front(xs), s)
    ensures TrackedCounts(xs, Tracked(s, Last(xs), latched))
  {
    var vs, n := Validity(xs), |xs| - 1;
    assert Validity(Front(xs)) == vs[..n];
    ErrorsOfPrefix(vs, n, 0, n);
    assert Errors(vs, 0, |xs|) == Errors(vs, 0, n) + if vs[n] then 0 else 1;
  }

  lemma {:induction false} CountsAreHistory(xs: seq<Exchange>)
    ensures TrackedCounts(xs, RanAll(xs).snapshot) && RanAll(xs).droppedTotal == RanAll(xs).snapshot.totalInvalid
  {
    if xs == [] {
    } else {
      CountsAreHistory(Front(xs));
      CountsStep(xs, RanAll(Front(xs)).snapshot, RanAll(xs).faultLatched);
    }
  }

  /** One call on the tracker. */
  datatype TrackerCall = Observes(exchange: Exchange, latched: bool) | Marks(steadyNs: nat)

  function TrackedAll(calls: seq<TrackerCall>): Snapshot {
    if calls == [] then NO_CYCLE
    else match Last(calls)
         case Observes(x, latched) => Tracked(TrackedAll(Front(calls)), x, latched)
         case Marks(ns) => MarkedShutdown(TrackedAll(Front(calls)), ns)
  }

  function Observations(calls: seq<TrackerCall>): seq<TrackerCall> {
    if calls == [] then []
    else Observations(Front(calls)) + if Last(calls).Observes? then [Last(calls)] else []
  }

  function ExchangesOf(calls: seq<TrackerCall>): seq<Exchange> {
    if calls == [] then []
    else ExchangesOf(Front(calls)) + if Last(calls).Observes? then [Last(calls).exchange] else []
  }

  /** The snapshots differ at most in what a shutdown mark writes. */
  predicate SameButMark(s: Snapshot, u: Snapshot) {
    s.(steadyTimestampNs := u.steadyTimestampNs, dataValid := u.dataValid, state := u.state) == u
  }

  lemma NextExchangeCoversMark(s: Snapshot, u: Snapshot, x: Exchange, latched: bool)
    requires SameButMark(s, u)
    ensures Tracked(s, x, latched) == Tracked(u, x, latched)
  {
  }

  /** A shutdown mark shows until the next exchange and no longer, wherever marks fall:
      everything but the mark's own three fields, and all of the snapshot once an
      exchange follows, is as if no mark had ever been made. */
  lemma {:induction false} ShutdownsLeaveNoTrace(calls: seq<TrackerCall>)
    ensures SameButMark(TrackedAll(calls), TrackedAll(Observations(calls)))
    ensures calls != [] && Last(calls).Observes? ==> TrackedAll(calls) == TrackedAll(Observations(calls))
    ensures calls != [] && Last(calls).Marks? ==>
              && TrackedAll(calls).state == Shutdown && !TrackedAll(calls).dataValid
              && TrackedAll(calls).steadyTimestampNs == Last(calls).steadyNs
  {
    if calls != [] {
      ShutdownsLeaveNoTrace(Front(calls));
      var earlier, call := Observations(Front(calls)), Last(calls);
      if call.Observes? {
        assert Front(earlier + [call]) == earlier && Last(earlier + [call]) == call;
        NextExchangeCoversMark(TrackedAll(Front(calls)), TrackedAll(earlier), call.exchange, call.latched);
      } else {
        assert Observations(calls) == earlier;
      }
    }
  }

  /** So the counts stay those of the exchanges through any number of shutdowns. */
  lemma {:induction false} ShutdownsKeepCounts(calls: seq<TrackerCall>)
    ensures TrackedCounts(ExchangesOf(calls), TrackedAll(calls))
  {
    if calls != [] {
      ShutdownsKeepCounts(Front(calls));
      var xs := ExchangesOf(calls);
      if Last(calls).Observes? {
        assert Front(xs) == ExchangesOf(Front(calls)) && Last(xs) == Last(calls).exchange;
        CountsStep(xs, TrackedAll(Front(calls)), Last(calls).latched);
      } else {
        assert xs == ExchangesOf(Front(calls));
      }
    }
  }

  /** A hundred consecutive cycles with more than forty invalid ones latch the fault,
      and it is still latched at the end of every longer run. */
  lemma DenseErrorsLatch(xs: seq<Exchange>, a: nat)
    requires a + 100 <= |xs| && Errors(Validity(xs), a, a + 100) > 40
    ensures RanAll(xs).faultLatched && RanAll(xs).snapshot.state == FaultLatched
  {
    var k := DenseErrorsAreNoticed(RT_WINDOW, Validity(xs), a);
    LatchIsHistory(xs);
    SnapshotIsHistory(xs);
  }

  /** A latched fault had more than twenty invalid cycles within a hundred. */
  lemma LatchHasACause(xs: seq<Exchange>) returns (lo: nat, hi: nat)
    requires RanAll(xs).faultLatched
    ensures lo <= hi <= |xs| && hi - lo <= 100 && Errors(Validity(xs), lo, hi) > 20
  {
    LatchIsHistory(xs);
    var k :| 0 <= k < |xs| && Exceeds(RT_WINDOW, Validity(xs), k);
    lo := ReportsHaveACause(RT_WINDOW, Validity(xs), k);
    hi := k + 1;
  }

  // ---------------------------------------------------------------------------
  // The objects
  // ---------------------------------------------------------------------------

  class EthercatWkcMonitor {
    const window: Window
    var cycleCount: nat
    var errorCount: nat

    ghost function Value(): Monitor
      reads this
    {
      Monitor(cycleCount, errorCount)
    }

    /** A zero window counts as one cycle. */
    constructor (windowCycles: nat, maxErrors: nat)
      ensures window == Window(if windowCycles == 0 then 1 else windowCycles, maxErrors) && Value() == Monitor(0, 0)
    {
      window := Window(if windowCycles == 0 then 1 else windowCycles, maxErrors);
      cycleCount, errorCount := 0, 0;
    }

    method ObserveCycle(cycleValid: bool) returns (thresholdExceeded: bool)
      modifies this
      ensures (thresholdExceeded, Value()) == Observe(window, old(Value()), cycleValid)
    {
      cycleCount := cycleCount + 1;
      if !cycleValid { errorCount := errorCount + 1; }
      thresholdExceeded := errorCount > window.maxErrors;
      if cycleCount >= window.cycles { cycleCount, errorCount := 0, 0; }
    }

    method Reset()
      modifies this
      ensures Value() == Monitor(0, 0)
    {
      cycleCount, errorCount := 0, 0;
    }
  }

  class EthercatCycleTracker {
    var snapshot: Snapshot

    constructor ()
      ensures snapshot == NO_CYCLE
    {
      snapshot := NO_CYCLE;
    }

    method ObserveCycle(x: Exchange, latched: bool)
      modifies this
      ensures snapshot == Tracked(old(snapshot), x, latched)
    {
      snapshot := snapshot.(cycleSequence := snapshot.cycleSequence + 1, steadyTimestampNs := x.steadyNs,
                            actualWkc := x.wkc, expectedWkc := x.expected);
      snapshot := snapshot.(dataValid := x.expected > 0 && x.wkc >= x.expected, faultLatched := latched);
      if snapshot.dataValid {
        snapshot := snapshot.(lastValidSequence := snapshot.cycleSequence,
                              lastValidSteadyTimestampNs := x.steadyNs, consecutiveInvalid := 0);
      } else {
        snapshot := snapshot.(lastInvalidSequence := snapshot.cycleSequence, totalInvalid := snapshot.totalInvalid + 1);
        if snapshot.consecutiveInvalid != UINT32_MAX {
          snapshot := snapshot.(consecutiveInvalid := snapshot.consecutiveInvalid + 1);
        }
      }
      snapshot := snapshot.(state := if latched then FaultLatched else if snapshot.dataValid then ValidCycle else InvalidWkc);
    }

    method MarkShutdown(steadyNs: nat)
      modifies this
      ensures snapshot == MarkedShutdown(old(snapshot), steadyNs)
    {
      snapshot := snapshot.(steadyTimestampNs := steadyNs, dataValid := false, state := Shutdown);
    }
  }

  /** The statics of `rt_ethercat.cpp` that its cyclic part owns. */
  class RtEthercat {
    const monitor: EthercatWkcMonitor
    const tracker: EthercatCycleTracker
    var faultLatched: bool
    var raisedEvents: nat
    var lastCycleValid: bool
    var droppedTotal: nat

    ghost function Value(): Bus
      reads this, monitor, tracker
    {
      Bus(monitor.Value(), faultLatched, raisedEvents, tracker.snapshot, lastCycleValid, droppedTotal)
    }

    constructor ()
      ensures fresh(monitor) && fresh(tracker) && monitor.window == RT_WINDOW && Value() == NEW_BUS
    {
      monitor := new EthercatWkcMonitor(100, 20);
      tracker := new EthercatCycleTracker();
      faultLatched, raisedEvents, lastCycleValid, droppedTotal := false, 0, false, 0;
    }

    method Run(x: Exchange)
      requires monitor.window == RT_WINDOW
      modifies this, monitor, tracker
      ensures Value() == Ran(old(Value()), x)
    {
      var cycleValid := x.expected > 0 && x.wkc >= x.expected;
      if !cycleValid { droppedTotal := droppedTotal + 1; }
      var exceeded := monitor.ObserveCycle(cycleValid);
      if exceeded {
        var wasFaulted := faultLatched;
        faultLatched := true;
        if !wasFaulted { raisedEvents := raisedEvents + 1; }
      }
      tracker.ObserveCycle(x, faultLatched);
      lastCycleValid := tracker.snapshot.dataValid;
    }
  }
}

/**
 Debounced fault detection on the cumulative CAN error counters, channel by channel.

 The first part is the detector as the code runs it; the second part describes the
 same thing by the history of samples alone; the theorems connect the two.
 */
module CanErrorDetector {
  import opened Common

  const CHANNEL_COUNT: nat := 9

  datatype CanState = Normal | Fault

  datatype CanEvent = CanEvent(value: nat, delta: nat, streak: nat, channel: nat, state: CanState)

  datatype Settings = Settings(deltaThreshold: nat, faultSamples: nat, recoverySamples: nat, enabled: set<nat>)
  {
    predicate Valid() {
      faultSamples >= 1 && recoverySamples >= 1 && forall c :: c in enabled ==> c < CHANNEL_COUNT
    }
  }

  /** `configure`: zero sample counts become one, unknown channels are masked off. */
  function Configured(deltaThreshold: nat, faultSamples: nat, recoverySamples: nat, enabled: set<nat>): (s: Settings)
    ensures s.Valid()
  {
    Settings(deltaThreshold, if faultSamples == 0 then 1 else faultSamples,
             if recoverySamples == 0 then 1 else recoverySamples, set c | c in enabled && c < CHANNEL_COUNT)
  }

  /** One sample decides where none was asked for; the nine known channels are watched and
      no other. */
  lemma ConfiguredExactly(deltaThreshold: nat, faultSamples: nat, recoverySamples: nat, enabled: set<nat>, c: nat)
    ensures var s := Configured(deltaThreshold, faultSamples, recoverySamples, enabled);
      && s.deltaThreshold == deltaThreshold && (c in s.enabled <==> c in enabled && c < 9)
      && (if faultSamples > 0 then s.faultSamples == faultSamples else s.faultSamples == 1)
      && (if recoverySamples > 0 then s.recoverySamples == recoverySamples else s.recoverySamples == 1)
  {
  }

  datatype Monitor = Monitor(lastValue: nat, badStreak: nat, goodStreak: nat, state: CanState, initialized: bool)

  const INITIAL: Monitor := Monitor(0, 0, 0, Normal, false)

  function IncrementSaturated(value: nat, limit: nat): nat {
    if value < limit then value + 1 else value
  }

  /** A lower value is a board reset or a wrap of the counter. */
  function DeltaOf(last: nat, current: nat): nat {
    if current >= last then current - last else 0
  }

  /** `updateChannel`. */
  function UpdateChannel(cfg: Settings, channel: nat, current: nat, m: Monitor): (Monitor, Option<CanEvent>) {
    if !m.initialized then (m.(lastValue := current, initialized := true), None)
    else
      var delta := DeltaOf(m.lastValue, current);
      if delta > cfg.deltaThreshold then
        var n := m.(lastValue := current, goodStreak := 0, badStreak := IncrementSaturated(m.badStreak, cfg.faultSamples));
        if n.badStreak >= cfg.faultSamples && n.state != Fault
        then (n.(state := Fault), Some(CanEvent(current, delta, n.badStreak, channel, Fault)))
        else (n, None)
      else
        var n := m.(lastValue := current, badStreak := 0, goodStreak := IncrementSaturated(m.goodStreak, cfg.recoverySamples));
        if n.goodStreak >= cfg.recoverySamples && n.state == Fault
        then (n.(state := Normal), Some(CanEvent(current, delta, n.goodStreak, channel, Normal)))
        else (n, None)
  }

  /** One channel's monitor after the samples `cs`. */
  function Track(cfg: Settings, channel: nat, cs: seq<nat>): Monitor {
    if cs == [] then INITIAL else UpdateChannel(cfg, channel, Last(cs), Track(cfg, channel, Front(cs))).0
  }

  /** The event, if any, that the last sample of `cs` causes. */
  function EventAt(cfg: Settings, channel: nat, cs: seq<nat>): Option<CanEvent>
    requires cs != []
  {
    UpdateChannel(cfg, channel, Last(cs), Track(cfg, channel, Front(cs))).1
  }

  /** All events of one channel, in order. */
  function Events(cfg: Settings, channel: nat, cs: seq<nat>): seq<CanEvent> {
    if cs == [] then []
    else
      var e := EventAt(cfg, channel, cs);
      Events(cfg, channel, Front(cs)) + (if e.Some? then [e.value] else [])
  }

  // ---------------------------------------------------------------------------
  // The history of one channel
  // ---------------------------------------------------------------------------

  /** The last sample is more than the threshold above the one before it. */
  predicate LastIsBad(cfg: Settings, cs: seq<nat>) {
    |cs| >= 2 && cs[|cs| - 1] > cs[|cs| - 2] + cfg.deltaThreshold
  }

  function TrailingBad(cfg: Settings, cs: seq<nat>): nat {
    if LastIsBad(cfg, cs) then TrailingBad(cfg, Front(cs)) + 1 else 0
  }

  /** The first sample of all is neither bad nor good. */
  function TrailingGood(cfg: Settings, cs: seq<nat>): nat {
    if |cs| >= 2 && !LastIsBad(cfg, cs) then TrailingGood(cfg, Front(cs)) + 1 else 0
  }

  /** A run of `faultSamples` bad samples ended at time `t`. */
  predicate FaultRunAt(cfg: Settings, cs: seq<nat>, t: nat)
    requires t <= |cs|
  {
    TrailingBad(cfg, cs[..t]) >= cfg.faultSamples
  }

  predicate RecoveryRunAt(cfg: Settings, cs: seq<nat>, t: nat)
    requires t <= |cs|
  {
    TrailingGood(cfg, cs[..t]) >= cfg.recoverySamples
  }

  ghost predicate UnrecoveredSince(cfg: Settings, cs: seq<nat>, t: nat) {
    t <= |cs| && FaultRunAt(cfg, cs, t) && forall u :: t < u <= |cs| ==> !RecoveryRunAt(cfg, cs, u)
  }

  /** Some run of bad samples was long enough, and no run of good samples has been
      long enough since. */
  ghost predicate Faulted(cfg: Settings, cs: seq<nat>) {
    exists t: nat :: UnrecoveredSince(cfg, cs, t)
  }

  ghost predicate EverFaulted(cfg: Settings, cs: seq<nat>) {
    exists t :: 0 <= t <= |cs| && FaultRunAt(cfg, cs, t)
  }

  lemma PrefixRuns(cfg: Settings, cs: seq<nat>, t: nat)
    requires t < |cs|
    ensures FaultRunAt(cfg, Front(cs), t) == FaultRunAt(cfg, cs, t)
    ensures RecoveryRunAt(cfg, Front(cs), t) == RecoveryRunAt(cfg, cs, t)
  {
    assert Front(cs)[..t] == cs[..t];
  }

  lemma WholeRuns(cfg: Settings, cs: seq<nat>)
    ensures FaultRunAt(cfg, cs, |cs|) == (TrailingBad(cfg, cs) >= cfg.faultSamples)
    ensures RecoveryRunAt(cfg, cs, |cs|) == (TrailingGood(cfg, cs) >= cfg.recoverySamples)
  {
    assert cs[..|cs|] == cs;
  }

  lemma StillUnrecovered(cfg: Settings, cs: seq<nat>, t: nat)
    requires t < |cs| && UnrecoveredSince(cfg, Front(cs), t) && !RecoveryRunAt(cfg, cs, |cs|)
    ensures UnrecoveredSince(cfg, cs, t)
  {
    PrefixRuns(cfg, cs, t);
    forall u | t < u <= |cs| ensures !RecoveryRunAt(cfg, cs, u) {
      if u < |cs| { PrefixRuns(cfg, cs, u); }
    }
  }

  lemma WasUnrecovered(cfg: Settings, cs: seq<nat>, t: nat)
    requires t < |cs| && UnrecoveredSince(cfg, cs, t)
    ensures UnrecoveredSince(cfg, Front(cs), t) && !RecoveryRunAt(cfg, cs, |cs|)
  {
    PrefixRuns(cfg, cs, t);
    forall u | t < u <= |cs| - 1 ensures !RecoveryRunAt(cfg, Front(cs), u) {
      PrefixRuns(cfg, cs, u);
    }
  }

  /** The defining recurrence of `Faulted`: a hysteresis between the two runs. */
  lemma FaultedStep(cfg: Settings, cs: seq<nat>)
    requires cfg.Valid() && cs != []
    ensures Faulted(cfg, cs) <==>
      TrailingBad(cfg, cs) >= cfg.faultSamples
      || (Faulted(cfg, Front(cs)) && TrailingGood(cfg, cs) < cfg.recoverySamples)
  {
    WholeRuns(cfg, cs);
    if FaultRunAt(cfg, cs, |cs|) {
      assert UnrecoveredSince(cfg, cs, |cs|);
    }
    if t: nat :| UnrecoveredSince(cfg, cs, t) {
      if t < |cs| { WasUnrecovered(cfg, cs, t); }
    }
    if !RecoveryRunAt(cfg, cs, |cs|) && Faulted(cfg, Front(cs)) {
      var t: nat :| UnrecoveredSince(cfg, Front(cs), t);
      StillUnrecovered(cfg, cs, t);
    }
  }

  lemma EverFaultedStep(cfg: Settings, cs: seq<nat>)
    requires cs != []
    ensures EverFaulted(cfg, cs) <==> EverFaulted(cfg, Front(cs)) || TrailingBad(cfg, cs) >= cfg.faultSamples
  {
    WholeRuns(cfg, cs);
    if t :| 0 <= t <= |Front(cs)| && FaultRunAt(cfg, Front(cs), t) {
      PrefixRuns(cfg, cs, t);
    }
    if t :| 0 <= t <= |cs| && FaultRunAt(cfg, cs, t) {
      if t < |cs| { PrefixRuns(cfg, cs, t); }
    }
  }

  lemma NothingIsNotFaulted(cfg: Settings)
    requires cfg.Valid()
    ensures !Faulted(cfg, []) && !EverFaulted(cfg, [])
  {
  }

  // ---------------------------------------------------------------------------
  // Theorems about one channel
  // ---------------------------------------------------------------------------

  /** The monitor is a function of the history: each streak is the trailing run cut off
      at its limit, and the state is the one the two runs define. */
  lemma {:induction false} MonitorIsHistory(cfg: Settings, channel: nat, cs: seq<nat>)
    requires cfg.Valid()
    ensures var m := Track(cfg, channel, cs);
      && m.badStreak == Min(TrailingBad(cfg, cs), cfg.faultSamples)
      && m.goodStreak == Min(TrailingGood(cfg, cs), cfg.recoverySamples)
      && (m.state == Fault <==> Faulted(cfg, cs))
      && (m.initialized <==> cs != []) && (cs != [] ==> m.lastValue == Last(cs))
  {
    if cs == [] {
      NothingIsNotFaulted(cfg);
    } else {
      MonitorIsHistory(cfg, channel, Front(cs));
      FaultedStep(cfg, cs);
      if |cs| == 1 { NothingIsNotFaulted(cfg); }
    }
  }

  /** An event is raised exactly when the state changes: a fault when, from normal, the
      run of bad samples reaches its limit, a recovery dually; and it says so. */
  lemma EventsAreTransitions(cfg: Settings, channel: nat, cs: seq<nat>)
    requires cfg.Valid() && cs != []
    ensures var e := EventAt(cfg, channel, cs);
      && (e.Some? && e.value.state == Fault <==>
            !Faulted(cfg, Front(cs)) && TrailingBad(cfg, cs) == cfg.faultSamples)
      && (e.Some? && e.value.state == Normal <==>
            Faulted(cfg, Front(cs)) && TrailingGood(cfg, cs) == cfg.recoverySamples)
      && (e.Some? <==> Faulted(cfg, Front(cs)) != Faulted(cfg, cs))
      && (e.Some? ==>
            && |cs| >= 2 && e.value.value == Last(cs) && e.value.channel == channel
            && e.value.delta == DeltaOf(cs[|cs| - 2], Last(cs))
            && e.value.streak == (if e.value.state == Fault then cfg.faultSamples else cfg.recoverySamples))
  {
    MonitorIsHistory(cfg, channel, Front(cs));
    MonitorIsHistory(cfg, channel, cs);
    FaultedStep(cfg, cs);
    if Front(cs) == [] { NothingIsNotFaulted(cfg); } else { FaultedStep(cfg, Front(cs)); }
  }

  /** Events alternate, beginning with a fault, and the last one is the state. */
  lemma {:induction false} EventsAlternate(cfg: Settings, channel: nat, cs: seq<nat>)
    requires cfg.Valid()
    ensures var es := Events(cfg, channel, cs);
      && (forall k :: 0 <= k < |es| ==> es[k].state == if k % 2 == 0 then Fault else Normal)
      && (Faulted(cfg, cs) <==> |es| % 2 == 1)
  {
    if cs == [] {
      NothingIsNotFaulted(cfg);
    } else {
      EventsAlternate(cfg, channel, Front(cs));
      EventsAreTransitions(cfg, channel, cs);
      FaultedStep(cfg, cs);
    }
  }
}

/**
 All channels together: the detector's sweep over its enabled channels feeding the
 process-lifetime fault latch.
 */
module CanFaultChain {
  import opened Common
  import opened CanErrorDetector

  /** `activeMask_` and `latchedMask_` as sets of channels. */
  datatype Latch = Latch(active: set<nat>, latched: set<nat>)

  const UNLATCHED: Latch := Latch({}, {})

  /** `CanFaultLatch::update`. */
  function Absorb(l: Latch, e: CanEvent): Latch {
    if e.channel >= CHANNEL_COUNT then l
    else if e.state == Fault then Latch(l.active + {e.channel}, l.latched + {e.channel})
    else l.(active := l.active - {e.channel})
  }

  ghost predicate OnlyChannels(l: Latch) {
    forall c :: c in l.active || c in l.latched ==> c < CHANNEL_COUNT
  }

  /** An event marks the channel it names and no other; a fault is both active and
      latched, a recovery only ends its being active, and an unknown channel is none. */
  lemma EventsMarkTheirChannel(l: Latch, e: CanEvent, c: nat)
    ensures var m := Absorb(l, e);
      && (c in m.latched <==> c in l.latched || (c == e.channel && c < 9 && e.state == Fault))
      && (c in m.active <==> if c == e.channel && c < 9 then e.state == Fault else c in l.active)
  {
  }

  datatype Chain = Chain(monitors: seq<Monitor>, latch: Latch)

  function Initial(latch: Latch): Chain {
    Chain(seq(CHANNEL_COUNT, _ => INITIAL), latch)
  }

  /** `CanErrorDetector::update` over the first `n` channels, its sink the latch. */
  function Swept(cfg: Settings, d: Chain, counters: seq<nat>, n: nat): (r: (Chain, seq<CanEvent>))
    requires |d.monitors| == |counters| == CHANNEL_COUNT && n <= CHANNEL_COUNT
    ensures |r.0.monitors| == CHANNEL_COUNT
  {
    if n == 0 then (d, [])
    else
      var (p, es) := Swept(cfg, d, counters, n - 1);
      if n - 1 !in cfg.enabled then (p, es)
      else
        var (m, e) := UpdateChannel(cfg, n - 1, counters[n - 1], p.monitors[n - 1]);
        var monitors := p.monitors[n - 1 := m];
        if e.None? then (Chain(monitors, p.latch), es)
        else (Chain(monitors, Absorb(p.latch, e.value)), es + [e.value])
  }

  /** The chain after a run of samples since `configure`. */
  function AfterSamples(cfg: Settings, samples: seq<seq<nat>>): (r: Chain)
    requires forall k :: 0 <= k < |samples| ==> |samples[k]| == CHANNEL_COUNT
    ensures |r.monitors| == CHANNEL_COUNT
  {
    if samples == [] then Initial(UNLATCHED)
    else Swept(cfg, AfterSamples(cfg, Front(samples)), Last(samples), CHANNEL_COUNT).0
  }

  function History(samples: seq<seq<nat>>, c: nat): seq<nat>
    requires c < CHANNEL_COUNT && forall k :: 0 <= k < |samples| ==> |samples[k]| == CHANNEL_COUNT
  {
    seq(|samples|, k requires 0 <= k < |samples| => samples[k][c])
  }

  /** Channel `c` of `e` is channel `c` of `d` after one more sample. */
  predicate ChannelSwept(cfg: Settings, d: Chain, counters: seq<nat>, c: nat, e: Chain)
    requires c < |d.monitors| && c < |counters| && c < |e.monitors|
  {
    var (m, event) := UpdateChannel(cfg, c, counters[c], d.monitors[c]);
    && e.monitors[c] == m
    && (c in e.latch.active <==> if event.Some? then event.value.state == Fault else c in d.latch.active)
    && (c in e.latch.latched <==> c in d.latch.latched || (event.Some? && event.value.state == Fault))
  }

  predicate ChannelKept(d: Chain, c: nat, e: Chain)
    requires c < |d.monitors| && c < |e.monitors|
  {
    && e.monitors[c] == d.monitors[c]
    && (c in e.latch.active <==> c in d.latch.active) && (c in e.latch.latched <==> c in d.latch.latched)
  }

  /** A sweep treats each enabled channel once, on its own counter, and no other. */
  lemma {:induction false} SweepIsPerChannel(cfg: Settings, d: Chain, counters: seq<nat>, n: nat, c: nat)
    requires |d.monitors| == |counters| == CHANNEL_COUNT && n <= CHANNEL_COUNT && c < CHANNEL_COUNT
    ensures var e := Swept(cfg, d, counters, n).0;
      if c < n && c in cfg.enabled then ChannelSwept(cfg, d, counters, c, e) else ChannelKept(d, c, e)
    ensures OnlyChannels(d.latch) ==> OnlyChannels(Swept(cfg, d, counters, n).0.latch)
  {
    if n > 0 {
      SweepIsPerChannel(cfg, d, counters, n - 1, c);
      if c != n - 1 { SweepIsPerChannel(cfg, d, counters, n - 1, n - 1); }
    }
  }

  /** The latched mask only grows. */
  lemma {:induction false} SweepKeepsLatched(cfg: Settings, d: Chain, counters: seq<nat>, n: nat)
    requires |d.monitors| == |counters| == CHANNEL_COUNT && n <= CHANNEL_COUNT
    ensures d.latch.latched <= Swept(cfg, d, counters, n).0.latch.latched
  {
    if n > 0 { SweepKeepsLatched(cfg, d, counters, n - 1); }
  }

  /** What the masks should be: a channel is active while its history is faulted, and
      latched for good once it has been. */
  ghost predicate ChannelIsHistory(cfg: Settings, samples: seq<seq<nat>>, c: nat, d: Chain)
    requires c < CHANNEL_COUNT <= |d.monitors|
    requires forall k :: 0 <= k < |samples| ==> |samples[k]| == CHANNEL_COUNT
  {
    && d.monitors[c] == (if c in cfg.enabled then Track(cfg, c, History(samples, c)) else INITIAL)
    && (c in d.latch.active <==> c in cfg.enabled && Faulted(cfg, History(samples, c)))
    && (c in d.latch.latched <==> c in cfg.enabled && EverFaulted(cfg, History(samples, c)))
  }

  lemma ChannelStep(cfg: Settings, samples: seq<seq<nat>>, c: nat, d: Chain, e: Chain)
    requires cfg.Valid() && samples != [] && c < CHANNEL_COUNT == |d.monitors| == |e.monitors|
    requires forall k :: 0 <= k < |samples| ==> |samples[k]| == CHANNEL_COUNT
    requires ChannelIsHistory(cfg, Front(samples), c, d)
    requires if c in cfg.enabled then ChannelSwept(cfg, d, Last(samples), c, e) else ChannelKept(d, c, e)
    ensures ChannelIsHistory(cfg, samples, c, e)
  {
    if c in cfg.enabled {
      var cs := History(samples, c);
      assert Front(cs) == History(Front(samples), c);
      assert Last(cs) == Last(samples)[c];
      EventsAreTransitions(cfg, c, cs);
      EverFaultedStep(cfg, cs);
      FaultedStep(cfg, cs);
      FaultedIsEver(cfg, Front(cs));
      assert EventAt(cfg, c, cs) == UpdateChannel(cfg, c, Last(samples)[c], d.monitors[c]).1;
    }
  }

  lemma FaultedIsEver(cfg: Settings, cs: seq<nat>)
    ensures Faulted(cfg, cs) ==> EverFaulted(cfg, cs)
  {
    if t: nat :| UnrecoveredSince(cfg, cs, t) {
      assert FaultRunAt(cfg, cs, t);
    }
  }

  lemma {:induction false} ChannelsAreHistory(cfg: Settings, samples: seq<seq<nat>>, c: nat)
    requires cfg.Valid() && c < CHANNEL_COUNT
    requires forall k :: 0 <= k < |samples| ==> |samples[k]| == CHANNEL_COUNT
    ensures ChannelIsHistory(cfg, samples, c, AfterSamples(cfg, samples))
    ensures OnlyChannels(AfterSamples(cfg, samples).latch)
  {
    if samples == [] {
      NothingIsNotFaulted(cfg);
    } else {
      var d := AfterSamples(cfg, Front(samples));
      ChannelsAreHistory(cfg, Front(samples), c);
      SweepIsPerChannel(cfg, d, Last(samples), CHANNEL_COUNT, c);
      ChannelStep(cfg, samples, c, d, AfterSamples(cfg, samples));
    }
  }

  /** The masks are functions of the samples: active are the enabled channels whose
      history is faulted now, latched those that had a long enough run of bad samples
      at any time, whatever has recovered since. */
  lemma MasksAreHistory(cfg: Settings, samples: seq<seq<nat>>)
    requires cfg.Valid() && forall k :: 0 <= k < |samples| ==> |samples[k]| == CHANNEL_COUNT
    ensures var l := AfterSamples(cfg, samples).latch;
      && l.active == (set c | c in cfg.enabled && Faulted(cfg, History(samples, c)))
      && l.latched == (set c | c in cfg.enabled && EverFaulted(cfg, History(samples, c)))
  {
    forall c: nat | c < CHANNEL_COUNT
      ensures ChannelIsHistory(cfg, samples, c, AfterSamples(cfg, samples))
    {
      ChannelsAreHistory(cfg, samples, c);
    }
    ChannelsAreHistory(cfg, samples, 0);
    var d := AfterSamples(cfg, samples);
    forall c: nat
      ensures c in d.latch.active <==> c in cfg.enabled && Faulted(cfg, History(samples, c))
      ensures c in d.latch.latched <==> c in cfg.enabled && EverFaulted(cfg, History(samples, c))
    {
      if c < CHANNEL_COUNT { assert ChannelIsHistory(cfg, samples, c, d); }
    }
  }
}

/**
 The detector and the latch as objects. A mask is the set of the channels whose bits
 are set in it.
 */
module CanFaultMonitor {
  import opened Common
  import opened CanErrorDetector
  import opened CanFaultChain

  const ALL_CHANNELS: set<nat> := set c: nat | c < CHANNEL_COUNT

  class CanFaultLatch {
    var activeMask: set<nat>
    var latchedMask: set<nat>

    ghost function Value(): Latch
      reads this
    {
      Latch(activeMask, latchedMask)
    }

    constructor ()
      ensures Value() == UNLATCHED
    {
      activeMask, latchedMask := {}, {};
    }

    method Absorb(event: CanEvent)
      modifies this
      ensures Value() == CanFaultChain.Absorb(old(Value()), event)
    {
      if event.channel >= CHANNEL_COUNT { return; }
      if event.state == Fault {
        activeMask := activeMask + {event.channel};
        latchedMask := latchedMask + {event.channel};
      } else {
        activeMask := activeMask - {event.channel};
      }
    }
  }

  class Detector {
    const monitors: array<Monitor>
    var deltaThreshold: nat
    var faultSamples: nat
    var recoverySamples: nat
    var enabledMask: set<nat>

    ghost predicate Valid()
      reads this
    {
      monitors.Length == CHANNEL_COUNT && SettingsValue().Valid()
    }

    ghost function SettingsValue(): Settings
      reads this
    {
      Settings(deltaThreshold, faultSamples, recoverySamples, enabledMask)
    }

    constructor ()
      ensures Valid() && fresh(monitors) && monitors[..] == Initial(UNLATCHED).monitors
      ensures deltaThreshold == 200 && faultSamples == recoverySamples == 50
    {
      monitors := new Monitor[CHANNEL_COUNT](_ => INITIAL);
      deltaThreshold, faultSamples, recoverySamples, enabledMask := 200, 50, 50, ALL_CHANNELS;
    }

    method Reset()
      requires monitors.Length == CHANNEL_COUNT
      modifies monitors
      ensures monitors[..] == Initial(UNLATCHED).monitors
    {
      for c := 0 to CHANNEL_COUNT
        invariant forall k :: 0 <= k < c ==> monitors[k] == INITIAL
      {
        monitors[c] := INITIAL;
      }
    }

    method Configure(delta: nat, fault: nat, recovery: nat, enabled: set<nat>)
      requires Valid()
      modifies this, monitors
      ensures Valid() && SettingsValue() == Configured(delta, fault, recovery, enabled)
      ensures monitors[..] == Initial(UNLATCHED).monitors
    {
      deltaThreshold := delta;
      faultSamples := if fault == 0 then 1 else fault;
      recoverySamples := if recovery == 0 then 1 else recovery;
      enabledMask := enabled * ALL_CHANNELS;
      Reset();
    }

    method UpdateChannel(channel: nat, current: nat) returns (event: Option<CanEvent>)
      requires Valid() && channel < CHANNEL_COUNT
      modifies monitors
      ensures (monitors[channel], event)
        == CanErrorDetector.UpdateChannel(SettingsValue(), channel, current, old(monitors[channel]))
      ensures monitors[..] == old(monitors[..])[channel := monitors[channel]]
    {
      var m := monitors[channel];
      event := None;
      if !m.initialized {
        monitors[channel] := m.(lastValue := current, initialized := true);
        return;
      }
      var delta := if current >= m.lastValue then current - m.lastValue else 0;
      if delta > deltaThreshold {
        m := m.(lastValue := current, goodStreak := 0, badStreak := IncrementSaturated(m.badStreak, faultSamples));
        if m.badStreak >= faultSamples && m.state != Fault {
          m := m.(state := Fault);
          event := Some(CanEvent(current, delta, m.badStreak, channel, Fault));
        }
      } else {
        m := m.(lastValue := current, badStreak := 0, goodStreak := IncrementSaturated(m.goodStreak, recoverySamples));
        if m.goodStreak >= recoverySamples && m.state == Fault {
          m := m.(state := Normal);
          event := Some(CanEvent(current, delta, m.goodStreak, channel, Normal));
        }
      }
      monitors[channel] := m;
    }

    /** The sink latches each event as it is raised. */
    method Update(counters: seq<nat>, latch: CanFaultLatch) returns (events: seq<CanEvent>)
      requires Valid() && |counters| == CHANNEL_COUNT
      modifies monitors, latch
      ensures (Chain(monitors[..], latch.Value()), events)
        == Swept(SettingsValue(), old(Chain(monitors[..], latch.Value())), counters, CHANNEL_COUNT)
    {
      events := [];
      ghost var before := Chain(monitors[..], latch.Value());
      for c := 0 to CHANNEL_COUNT
        invariant (Chain(monitors[..], latch.Value()), events) == Swept(SettingsValue(), before, counters, c)
      {
        if c in enabledMask {
          var event := UpdateChannel(c, counters[c]);
          if event.Some? {
            latch.Absorb(event.value);
            events := events + [event.value];
          }
        }
      }
    }
  }
}

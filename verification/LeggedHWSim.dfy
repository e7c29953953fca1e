/**
 The simulated actuation delay of one joint: a queue that forgets commands which can
 no longer become due, compared with the whole history of commands.
 */
module LeggedHWSim {
  import opened Common

  /** `HybridJointCommand`, its stamp in nanoseconds. */
  datatype Command = Command(stamp: int, posDes: real, velDes: real, kp: real, kd: real, ff: real)

  /** The command is too old to be applied at `time`. */
  predicate TooOld(c: Command, delay: int, time: int) {
    c.stamp + delay < time
  }

  /** The queue is kept newest first, as in the code: front is position 0. */
  function Trimmed(buffer: seq<Command>, delay: int, time: int): (r: seq<Command>)
    ensures r <= buffer
  {
    if buffer != [] && TooOld(Last(buffer), delay, time) then Trimmed(Front(buffer), delay, time) else buffer
  }

  /** One call of `writeSim` for one joint; the simulation has been reset when the time
      equals the period. */
  function Written(buffer: seq<Command>, delay: int, period: int, c: Command): (r: seq<Command>)
    ensures r != []
  {
    [c] + Trimmed(if c.stamp == period then [] else buffer, delay, c.stamp)
  }

  /** The effort computed from a command and the joint's state. */
  function Effort(c: Command, position: real, velocity: real): real {
    c.kp * (c.posDes - position) + c.kd * (c.velDes - velocity) + c.ff
  }

  /** The effort is the feedforward for a joint that does what is desired, and falls by
      the gains with every deviation from that. */
  lemma EffortCorrects(c: Command, dp: real, dv: real)
    ensures Effort(c, c.posDes, c.velDes) == c.ff
    ensures Effort(c, c.posDes + dp, c.velDes + dv) == c.ff - c.kp * dp - c.kd * dv
  {
    assert c.posDes - (c.posDes + dp) == -dp && c.velDes - (c.velDes + dv) == -dv;
    Negates(c.kp, dp);
    Negates(c.kd, dv);
  }

  lemma Negates(x: real, y: real)
    ensures x * -y == -(x * y)
  {
  }

  // ---------------------------------------------------------------------------
  // The whole history
  // ---------------------------------------------------------------------------

  /** The queue after a run of calls, the latest call being the last of `hs`. */
  function After(delay: int, period: int, hs: seq<Command>): seq<Command> {
    if hs == [] then [] else Written(After(delay, period, Front(hs)), delay, period, Last(hs))
  }

  /** What a call applies. */
  function Applied(delay: int, period: int, hs: seq<Command>): Command
    requires hs != []
  {
    Last(After(delay, period, hs))
  }

  /** The position of the last reset in `hs`; 0 if there was none. */
  function ResetAt(period: int, hs: seq<Command>): (r: nat)
    ensures r <= |hs| && (hs != [] ==> r < |hs|)
  {
    if hs == [] then 0 else if Last(hs).stamp == period then |hs| - 1 else ResetAt(period, Front(hs))
  }

  /** `k` is the first command since the reset that is not too old for the last call,
      or the last one if all are. */
  predicate FirstDue(delay: int, period: int, hs: seq<Command>, k: nat)
    requires hs != []
  {
    var time := Last(hs).stamp;
    && ResetAt(period, hs) <= k < |hs|
    && (forall j :: ResetAt(period, hs) <= j < k ==> hs[j].stamp + delay < time)
    && (hs[k].stamp + delay < time ==> k == |hs| - 1)
  }

  /** Since the last reset the times have not gone back. */
  ghost predicate Ordered(period: int, hs: seq<Command>) {
    forall i, j :: ResetAt(period, hs) <= i < j < |hs| ==> hs[i].stamp <= hs[j].stamp
  }

  /** The queue holds the commands from `d` on, newest first, and all commands between
      the reset and `d` are too old for good. */
  ghost predicate HoldsFrom(delay: int, period: int, hs: seq<Command>, buffer: seq<Command>, d: nat) {
    && ResetAt(period, hs) <= d <= |hs| && |buffer| == |hs| - d
    && (forall i :: 0 <= i < |buffer| ==> buffer[i] == hs[|hs| - 1 - i])
    && (hs != [] ==> forall j :: ResetAt(period, hs) <= j < d ==> TooOld(hs[j], delay, Last(hs).stamp))
  }

  lemma {:induction false} TrimIsExact(buffer: seq<Command>, delay: int, time: int)
    ensures var r := Trimmed(buffer, delay, time);
      && (r != [] ==> !TooOld(Last(r), delay, time))
      && forall i :: |r| <= i < |buffer| ==> TooOld(buffer[i], delay, time)
  {
    if buffer != [] && TooOld(Last(buffer), delay, time) {
      TrimIsExact(Front(buffer), delay, time);
    }
  }

  lemma WriteHolds(delay: int, period: int, hs: seq<Command>, buffer: seq<Command>, d: nat) returns (e: nat)
    requires hs != [] && Ordered(period, hs) && HoldsFrom(delay, period, Front(hs), buffer, d)
    ensures HoldsFrom(delay, period, hs, Written(buffer, delay, period, Last(hs)), e) && FirstDue(delay, period, hs, e)
  {
    var c := Last(hs);
    if c.stamp == period {
      e := |hs| - 1;
    } else {
      TrimIsExact(buffer, delay, c.stamp);
      var kept := Trimmed(buffer, delay, c.stamp);
      e := |hs| - 1 - |kept|;
      TrimmedAreTooOld(delay, period, hs, buffer, d, e);
      KeptIsSuffix(delay, period, hs, kept, e);
    }
  }

  lemma KeptIsSuffix(delay: int, period: int, hs: seq<Command>, kept: seq<Command>, e: nat)
    requires hs != [] && Last(hs).stamp != period && |kept| == |hs| - 1 - e && ResetAt(period, hs) <= e
    requires forall i :: 0 <= i < |kept| ==> kept[i] == hs[|hs| - 2 - i]
    requires kept != [] ==> !TooOld(Last(kept), delay, Last(hs).stamp)
    requires forall j :: ResetAt(period, hs) <= j < e ==> TooOld(hs[j], delay, Last(hs).stamp)
    ensures HoldsFrom(delay, period, hs, [Last(hs)] + kept, e) && FirstDue(delay, period, hs, e)
  {
    if kept != [] { assert hs[e] == Last(kept); }
  }

  lemma TrimmedAreTooOld(delay: int, period: int, hs: seq<Command>, buffer: seq<Command>, d: nat, e: nat)
    requires hs != [] && Ordered(period, hs) && HoldsFrom(delay, period, Front(hs), buffer, d)
    requires Last(hs).stamp != period && d <= e < |hs|
    requires forall i :: |hs| - 1 - e <= i < |buffer| ==> TooOld(buffer[i], delay, Last(hs).stamp)
    ensures forall j :: ResetAt(period, hs) <= j < e ==> TooOld(hs[j], delay, Last(hs).stamp)
  {
    forall j | ResetAt(period, hs) <= j < e ensures TooOld(hs[j], delay, Last(hs).stamp) {
      if j < d {
        assert TooOld(Front(hs)[j], delay, Last(Front(hs)).stamp);
        assert hs[|hs| - 2].stamp <= hs[|hs| - 1].stamp;
      } else {
        assert buffer[|hs| - 2 - j] == Front(hs)[j];
      }
    }
  }

  lemma {:induction false} QueueIsSuffix(delay: int, period: int, hs: seq<Command>) returns (d: nat)
    requires Ordered(period, hs)
    ensures HoldsFrom(delay, period, hs, After(delay, period, hs), d)
    ensures hs != [] ==> FirstDue(delay, period, hs, d)
  {
    if hs == [] {
      d := 0;
    } else if Last(hs).stamp == period {
      d := |hs| - 1;
    } else {
      assert Ordered(period, Front(hs)) by {
        forall i, j | ResetAt(period, Front(hs)) <= i < j < |hs| - 1 ensures Front(hs)[i].stamp <= Front(hs)[j].stamp {
          assert hs[i].stamp <= hs[j].stamp;
        }
      }
      d := QueueIsSuffix(delay, period, Front(hs));
      d := WriteHolds(delay, period, hs, After(delay, period, Front(hs)), d);
    }
  }

  // ---------------------------------------------------------------------------
  // Theorems
  // ---------------------------------------------------------------------------

  /** Forgetting is invisible: the applied command is the earliest one in the whole
      history since the reset that is not older than the delay, although older entries
      are gone; if even the newest is too old it is the newest. */
  lemma AppliedIsFirstDue(delay: int, period: int, hs: seq<Command>) returns (k: nat)
    requires hs != [] && Ordered(period, hs)
    ensures FirstDue(delay, period, hs, k) && Applied(delay, period, hs) == hs[k]
  {
    k := QueueIsSuffix(delay, period, hs);
    var buffer := After(delay, period, hs);
    assert buffer[|buffer| - 1] == hs[k];
  }

  /** With a delay that is not negative the applied command is stamped no earlier than
      the delay ago; with a negative one it is always the command just given. */
  lemma AppliedAge(delay: int, period: int, hs: seq<Command>)
    requires hs != [] && Ordered(period, hs)
    ensures delay >= 0 ==>
      Last(hs).stamp - delay <= Applied(delay, period, hs).stamp <= Last(hs).stamp
    ensures delay < 0 ==> Applied(delay, period, hs) == Last(hs)
  {
    var k := AppliedIsFirstDue(delay, period, hs);
    if k < |hs| - 1 {
      assert hs[k].stamp <= hs[|hs| - 1].stamp;
    }
  }

  /** The order of times matters: after time has gone back without a reset, a command
      that has been forgotten could have become due again. */
  lemma TimeGoingBackIsVisible(period: int) returns (hs: seq<Command>)
    requires period !in {5, 10, 20}
    ensures |hs| == 3 && !Ordered(period, hs)
    ensures FirstDue(0, period, hs, 0) && Applied(0, period, hs) != hs[0]
  {
    var c := Command(10, 0.0, 0.0, 0.0, 0.0, 0.0);
    var d := c.(stamp := 20);
    var e := c.(stamp := 5);
    hs := [c, d, e];
    assert Front(hs) == [c, d] && Front([c, d]) == [c] && Front([c]) == [];
    assert After(0, period, [c]) == [c];
    assert Front([c]) == [] && Trimmed([c], 0, 20) == [];
    assert After(0, period, [c, d]) == [d];
    assert After(0, period, hs) == [e, d];
    assert ResetAt(period, hs) == 0;
    assert !(hs[1].stamp <= hs[2].stamp);
  }

  class DelayLine {
    const delay: int
    var buffer: seq<Command>

    constructor (delay: int)
      ensures this.delay == delay && buffer == []
    {
      this.delay, buffer := delay, [];
    }

    method WriteSim(period: int, c: Command, position: real, velocity: real) returns (applied: Command, effort: real)
      modifies this
      ensures buffer == Written(old(buffer), delay, period, c)
      ensures applied == Last(buffer) && effort == Effort(applied, position, velocity)
    {
      if c.stamp == period { buffer := []; }
      while buffer != [] && buffer[|buffer| - 1].stamp + delay < c.stamp
        invariant Trimmed(buffer, delay, c.stamp) == Trimmed(if c.stamp == period then [] else old(buffer), delay, c.stamp)
        decreases |buffer|
      {
        buffer := buffer[..|buffer| - 1];
      }
      buffer := [c] + buffer;
      applied := buffer[|buffer| - 1];
      effort := Effort(applied, position, velocity);
    }
  }
}

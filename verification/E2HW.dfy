/**
 The hardware layer's read and write as they change the joint records, the command
 image and the latches in place.
 */
module E2HW {
  import opened Common
  import opened E2JointMap
  import opened FailClosed
  import CanErrorDetector
  import opened CanFaultChain
  import CanFaultMonitor
  import EthercatWkc

  class Hardware {
    const joints: array<Joint>
    const image: array2<Pvt>
    const detector: CanFaultMonitor.Detector
    const latch: CanFaultMonitor.CanFaultLatch
    const bus: EthercatWkc.RtEthercat
    const canEnabled: bool
    var nonFiniteLatched: bool
    var nonFiniteLocation: int

    ghost predicate Valid()
      reads this, detector
    {
      && joints.Length == JOINT_COUNT && image.Length0 == GROUP_COUNT && image.Length1 == MAX_SLOTS
      && detector.Valid() && bus.monitor.window == EthercatWkc.RT_WINDOW
    }

    constructor (canEnabled: bool)
      ensures Valid() && this.canEnabled == canEnabled && !nonFiniteLatched
      ensures fresh(joints) && fresh(image) && fresh(detector) && fresh(detector.monitors) && fresh(latch)
      ensures fresh(bus) && fresh(bus.monitor) && fresh(bus.tracker)
      ensures FailClosed.Hardware(ChainValue(), bus.Value(), nonFiniteLatched) == POWER_ON
    {
      joints := new Joint[JOINT_COUNT](_ => Joint(ZERO, ZERO, ZERO, ZERO, ZERO, ZERO));
      image := new Pvt[GROUP_COUNT, MAX_SLOTS]((_, _) => ZERO_COMMAND);
      detector := new CanFaultMonitor.Detector();
      latch := new CanFaultMonitor.CanFaultLatch();
      bus := new EthercatWkc.RtEthercat();
      this.canEnabled, nonFiniteLatched, nonFiniteLocation := canEnabled, false, -1;
    }

    ghost function ChainValue(): Chain
      reads this, detector, detector.monitors, latch
    {
      Chain(detector.monitors[..], latch.Value())
    }

    /** The image by joint. */
    ghost function ImageValue(): (r: seq<Pvt>)
      requires image.Length0 == GROUP_COUNT && image.Length1 == MAX_SLOTS
      reads this, image
      ensures |r| == JOINT_COUNT
    {
      TableIsBijection();
      seq(JOINT_COUNT, c requires 0 <= c < JOINT_COUNT reads this, image => image[CHANNELS[c].group, CHANNELS[c].slot])
    }

    method Read(counters: seq<nat>)
      requires Valid() && |counters| == CanErrorDetector.CHANNEL_COUNT
      modifies detector.monitors, latch
      ensures Valid()
      ensures ChainValue() ==
        if bus.tracker.snapshot.dataValid && canEnabled
        then Swept(detector.SettingsValue(), old(ChainValue()), counters, CanErrorDetector.CHANNEL_COUNT).0
        else old(ChainValue())
    {
      if !bus.tracker.snapshot.dataValid { return; }
      if canEnabled {
        var events := detector.Update(counters, latch);
      }
    }

    method DampJoints()
      requires joints.Length == JOINT_COUNT
      modifies joints
      ensures forall k :: 0 <= k < JOINT_COUNT ==> joints[k] == Damped(old(joints[k]))
    {
      for k := 0 to joints.Length
        invariant forall n :: 0 <= n < k ==> joints[n] == Damped(old(joints[n]))
        invariant forall n :: k <= n < joints.Length ==> joints[n] == old(joints[n])
      {
        joints[k] := joints[k].(posDes := joints[k].pos, velDes := ZERO, kp := ZERO, kd := DAMPING, ff := ZERO);
      }
    }

    method SolveParallelJoints(solved: seq<Float>)
      requires joints.Length == |solved| == JOINT_COUNT
      modifies joints
      ensures forall k :: 0 <= k < JOINT_COUNT ==> joints[k] == Solved(old(joints[k]), CHANNELS[k], solved[k])
    {
      for k := 0 to joints.Length
        invariant forall n :: 0 <= n < k ==> joints[n] == Solved(old(joints[n]), CHANNELS[n], solved[n])
        invariant forall n :: k <= n < joints.Length ==> joints[n] == old(joints[n])
      {
        if !CHANNELS[k].directPd { joints[k] := joints[k].(ff := solved[k]); }
      }
    }

    method MapJoints(bias: seq<real>)
      requires joints.Length == |bias| == JOINT_COUNT && image.Length0 == GROUP_COUNT && image.Length1 == MAX_SLOTS
      modifies image
      ensures forall k :: 0 <= k < JOINT_COUNT ==> ImageValue()[k] == Mapped(joints[k], CHANNELS[k], bias[k])
    {
      TableIsBijection();
      for k := 0 to JOINT_COUNT
        invariant forall n :: 0 <= n < k ==>
          image[CHANNELS[n].group, CHANNELS[n].slot] == Mapped(joints[n], CHANNELS[n], bias[n])
      {
        var channel := CHANNELS[k];
        image[channel.group, channel.slot] := Pvt(
          if channel.directPd then joints[k].kp else ZERO, if channel.directPd then joints[k].kd else ZERO,
          Minus(joints[k].posDes, bias[k]), joints[k].velDes, joints[k].ff);
      }
    }

    /** Every motor before (`group`, `slot`), in the order of the groups, encodes. */
    ghost predicate EncodableBefore(group: nat, slot: nat)
      requires image.Length0 == GROUP_COUNT && image.Length1 == MAX_SLOTS
      reads this, image
    {
      forall g: nat, s: nat {:trigger image[g, s]} ::
        Motor(g, s) && (g < group || (g == group && s < slot)) ==> Encodable(image[g, s])
    }

    lemma EncodableByJoint()
      requires image.Length0 == GROUP_COUNT && image.Length1 == MAX_SLOTS
      ensures AllEncodable(ImageValue()) <==> EncodableBefore(GROUP_COUNT, 0)
    {
      TableIsBijection();
      if AllEncodable(ImageValue()) {
        forall g: nat, s: nat | Motor(g, s) ensures Encodable(image[g, s]) {
          assert ImageValue()[JointAt(g, s)] == image[g, s];
        }
      }
    }

    lemma FirstByJoint(group: nat, slot: nat)
      requires image.Length0 == GROUP_COUNT && image.Length1 == MAX_SLOTS && Motor(group, slot)
      requires !Encodable(image[group, slot]) && EncodableBefore(group, slot)
      ensures FirstSpoiled(ImageValue(), group * 6 + slot)
    {
      TableIsBijection();
      var k := JointAt(group, slot);
      assert CHANNELS[k].group * 6 + CHANNELS[k].slot == group * 6 + slot && !Encodable(ImageValue()[k]);
      forall n | 0 <= n < JOINT_COUNT && CHANNELS[n].group * 6 + CHANNELS[n].slot < group * 6 + slot
        ensures Encodable(ImageValue()[n])
      {
        var channel := CHANNELS[n];
        assert channel.group < group || (channel.group == group && channel.slot < slot);
        assert Encodable(image[channel.group, channel.slot]);
      }
    }

    /** Where the first motor that does not encode is, or -1. */
    method FindInvalid() returns (location: int)
      requires image.Length0 == GROUP_COUNT && image.Length1 == MAX_SLOTS
      ensures location == -1 <==> AllEncodable(ImageValue())
      ensures location != -1 ==> location >= 0 && FirstSpoiled(ImageValue(), location)
    {
      EncodableByJoint();
      TableIsBijection();
      for group := 0 to GROUP_COUNT
        invariant EncodableBefore(group, 0)
      {
        for slot := 0 to MOTOR_COUNTS[group]
          invariant EncodableBefore(group, slot)
        {
          if !Encodable(image[group, slot]) {
            FirstByJoint(group, slot);
            return group * 6 + slot;
          }
        }
      }
      return -1;
    }

    method ClearImage()
      requires image.Length0 == GROUP_COUNT && image.Length1 == MAX_SLOTS
      modifies image
      ensures ImageValue() == ZeroImage()
    {
      TableIsBijection();
      for group := 0 to GROUP_COUNT
        invariant forall g: nat, s: nat {:trigger image[g, s]} :: Motor(g, s) && g < group ==> image[g, s] == ZERO_COMMAND
      {
        for slot := 0 to MOTOR_COUNTS[group]
          invariant forall g: nat, s: nat {:trigger image[g, s]} ::
            Motor(g, s) && (g < group || (g == group && s < slot)) ==> image[g, s] == ZERO_COMMAND
        {
          image[group, slot] := ZERO_COMMAND;
        }
      }
    }

    /** The condition under which `write` replaces the controller's commands. */
    method GateClosed() returns (closed: bool)
      ensures closed == Closed(Gate(bus.lastCycleValid, bus.faultLatched, latch.Value().latched != {}, nonFiniteLatched))
    {
      closed := !bus.lastCycleValid || bus.faultLatched || latch.latchedMask != {} || nonFiniteLatched;
    }

    /** `write` up to the exchange. */
    method Write(solved: seq<Float>, bias: seq<real>)
      requires Valid() && |solved| == |bias| == JOINT_COUNT
      modifies this, joints, image
      ensures Valid()
      ensures var gate := old(Gate(bus.lastCycleValid, bus.faultLatched, latch.Value().latched != {}, nonFiniteLatched));
        var commands := Commands(old(joints[..]), solved, bias);
        && ImageValue() == Written(gate, commands)
        && nonFiniteLatched == (old(nonFiniteLatched) || !AllEncodable(Drafted(gate, commands)))
        && (if nonFiniteLatched && !old(nonFiniteLatched) then FirstSpoiled(Drafted(gate, commands), nonFiniteLocation)
            else nonFiniteLocation == old(nonFiniteLocation))
    {
      ghost var before := joints[..];
      ghost var gate := Gate(bus.lastCycleValid, bus.faultLatched, latch.Value().latched != {}, nonFiniteLatched);
      var closed := GateClosed();
      if closed { DampJoints(); }
      ghost var gated := joints[..];
      SolveParallelJoints(solved);
      ghost var solvedJoints := joints[..];
      MapJoints(bias);
      assert ImageValue() == Drafted(gate, Commands(before, solved, bias)) by {
        forall k | 0 <= k < JOINT_COUNT
          ensures ImageValue()[k] == Drafted(gate, Commands(before, solved, bias))[k]
        {
          assert gated[k] == Gated(gate, before[k]);
          assert solvedJoints[k] == Solved(gated[k], CHANNELS[k], solved[k]);
        }
      }
      var location := FindInvalid();
      if location >= 0 {
        if !nonFiniteLatched { nonFiniteLocation := location; }
        nonFiniteLatched := true;
        ClearImage();
      }
    }

    ghost function Value(): FailClosed.Hardware
      reads this, detector, detector.monitors, latch, bus, bus.monitor, bus.tracker
    {
      FailClosed.Hardware(ChainValue(), bus.Value(), nonFiniteLatched)
    }

    ghost function ConfigValue(): Config
      reads this, detector
    {
      Config(canEnabled, detector.SettingsValue())
    }

    /** What the rest of `read` and the controller leave in the joint records. */
    method Command(commanded: seq<Joint>)
      requires joints.Length == |commanded|
      modifies joints
      ensures joints[..] == commanded
    {
      for k := 0 to joints.Length
        invariant forall n :: 0 <= n < k ==> joints[n] == commanded[n]
      {
        joints[k] := commanded[k];
      }
    }

    /** The controller's commands and the write that gates them. */
    method CommandAndWrite(commands: Commands)
      requires Valid() && commands.Valid()
      modifies this, joints, image
      ensures Valid()
      ensures var gate := old(Gate(bus.lastCycleValid, bus.faultLatched, latch.Value().latched != {}, nonFiniteLatched));
        && ImageValue() == Written(gate, commands)
        && nonFiniteLatched == (old(nonFiniteLatched) || !AllEncodable(Drafted(gate, commands)))
    {
      Command(commands.joints);
      assert Commands(joints[..], commands.solved, commands.bias) == commands;
      Write(commands.solved, commands.bias);
    }

    /** One control cycle. */
    method Cycle(i: FailClosed.Cycle)
      requires Valid() && i.Valid()
      modifies this, joints, image, detector.monitors, latch, bus, bus.monitor, bus.tracker
      ensures Valid() && ConfigValue() == old(ConfigValue())
      ensures ImageValue() == ImageIn(ConfigValue(), old(Value()), i)
      ensures Value() == AfterCycle(ConfigValue(), old(Value()), i)
    {
      ghost var m := AfterRead(ConfigValue(), Value(), i);
      Read(i.counters);
      assert ChainValue() == m.chain && bus.Value() == m.bus && nonFiniteLatched == m.nonFiniteLatched;
      CommandAndWrite(i.commands);
      assert ChainValue() == m.chain && bus.Value() == m.bus;
      bus.Run(i.exchange);
    }
  }
}

/**
 The control thread's policy handlers as they change the controller in place.
 `Value` is the state the functions of `PolicyHandlers` work on, and every method
 is proved to be the function of the same part of the handler.
 */
module AcController {
  import opened Common
  import opened PolicySession
  import opened PolicyPlaybackClock
  import opened ControlStateMachine
  import opened RLControllerBase
  import opened PolicyHandlers

  class Controller {
    const actions: array<Float>
    const joints: array<JointCommand>
    const clock: PlaybackClock
    var mode: Mode
    var activePolicy: PolicyKind
    var policyEpoch: nat
    var observationSequence: nat
    var lastAppliedSequence: nat
    var policyEntryTimestampNs: int
    var lastAppliedObservationTimestampNs: int
    var endPending: bool
    var finalObservationSequence: nat
    var completionNotBeforeNs: int
    var blend: Option<Blend>
    var preparation: Option<Preparation>
    var fade: Option<Fade>
    var dampingAfterCompletion: bool
    var controllerActive: bool
    var wakeGeneration: nat
    ghost var stamps: map<nat, int>
    ghost var finalNs: int

    /** Sized for the policy `cfg` describes; all policies drive the same joints. */
    ghost predicate Valid(cfg: Config)
    {
      cfg.Valid() && cfg.periodNs <= INT64_MAX && actions.Length == joints.Length == cfg.Dof()
    }

    /** The clock is on the grid of the active policy; entering another one resets it. */
    ghost predicate Ready(cfg: Config)
      reads this, clock
    {
      Valid(cfg) && (activePolicy == cfg.kind ==> OnGrid(clock.Value(), cfg.periodNs))
    }

    ghost function SessionValue(): Session
      reads this
    {
      Session(activePolicy, policyEpoch, observationSequence, lastAppliedSequence,
              policyEntryTimestampNs, lastAppliedObservationTimestampNs)
    }

    ghost function Value(): State
      reads this, actions, joints, clock
    {
      State(SessionValue(), Playback(clock.Value(), endPending, finalObservationSequence, completionNotBeforeNs),
            blend, preparation, fade, mode, dampingAfterCompletion, actions[..], joints[..], stamps, finalNs)
    }

    constructor (dof: nat)
      ensures actions.Length == joints.Length == dof && fresh(actions) && fresh(joints) && fresh(clock)
      ensures SessionValue() == Session(NONE, 0, 0, 0, 0, 0) && !endPending && mode == Default
      ensures !dampingAfterCompletion && !controllerActive && wakeGeneration == 0
    {
      actions := new Float[dof](_ => ZERO);
      joints := new JointCommand[dof](_ => DEFAULT_COMMAND);
      clock := new PlaybackClock();
      mode, activePolicy, policyEpoch, observationSequence, lastAppliedSequence := Default, NONE, 0, 0, 0;
      policyEntryTimestampNs, lastAppliedObservationTimestampNs := 0, 0;
      endPending, finalObservationSequence, completionNotBeforeNs := false, 0, 0;
      blend, preparation, fade, dampingAfterCompletion := None, None, None, false;
      controllerActive, wakeGeneration := false, 0;
      stamps, finalNs := map[], 0;
    }

    method ResetPlayback(nowNs: int)
      requires 0 <= nowNs <= INT64_MAX
      modifies this`endPending, this`finalObservationSequence, this`completionNotBeforeNs, clock
      ensures Value() == old(Value()).(playback := Rewound(nowNs))
    {
      clock.ResetTo(nowNs as int64);
      endPending, finalObservationSequence, completionNotBeforeNs := false, 0, 0;
    }

    method ClearActions()
      modifies actions
      ensures actions[..] == Zeros(actions.Length)
    {
      for k := 0 to actions.Length
        invariant forall n :: 0 <= n < k ==> actions[n] == ZERO
      {
        actions[k] := ZERO;
      }
    }

    method BeginEpoch(kind: PolicyKind, entryNs: int)
      requires activePolicy != kind
      modifies this`activePolicy, this`policyEpoch, this`lastAppliedSequence, this`policyEntryTimestampNs,
        this`lastAppliedObservationTimestampNs
      ensures SessionValue() == Enter(old(SessionValue()), kind, entryNs)
    {
      activePolicy, policyEpoch, lastAppliedSequence := kind, policyEpoch + 1, 0;
      policyEntryTimestampNs, lastAppliedObservationTimestampNs := entryNs, 0;
    }

    /** The mode's entry hook: `beginUpPreparation`, `resetDownPlaybackClock` or the
        plain reset of the playback. */
    method OnEnter(kind: PolicyKind, nowNs: int, measured: seq<real>)
      requires 0 <= nowNs <= INT64_MAX
      modifies this`endPending, this`finalObservationSequence, this`completionNotBeforeNs,
        this`preparation, this`fade, this`dampingAfterCompletion, this`stamps, this`finalNs, actions, clock
      ensures Value() == old(Value()).(
        playback := Rewound(nowNs),
        preparation := if kind == UP then Some(Preparation(false, 0, measured)) else old(preparation),
        fade := if kind == DOWN then None else old(fade), damping := old(dampingAfterCompletion) && kind != DOWN,
        actions := Zeros(actions.Length), stamps := map[], finalNs := 0)
    {
      ClearActions();
      ResetPlayback(nowNs);
      stamps, finalNs := map[], 0;
      if kind == DOWN { dampingAfterCompletion, fade := false, None; }
      if kind == UP { preparation := Some(Preparation(false, 0, measured)); }
    }

    method EnterPolicyMode(cfg: Config, i: Inputs)
      requires Ready(cfg) && Timed(i)
      modifies this, actions, clock
      ensures Ready(cfg) && activePolicy == cfg.kind
      ensures Value() == EnterMode(cfg, old(Value()), i)
    {
      if activePolicy == cfg.kind { return; }
      BeginEpoch(cfg.kind, i.entryNs);
      OnEnter(cfg.kind, i.resetNs, i.measured);
    }

    method LeavePolicyMode()
      modifies this`activePolicy, this`policyEpoch, this`lastAppliedSequence, this`policyEntryTimestampNs,
        this`lastAppliedObservationTimestampNs
      ensures SessionValue() == Leave(old(SessionValue()))
    {
      if activePolicy == NONE { return; }
      activePolicy, policyEpoch, lastAppliedSequence := NONE, policyEpoch + 1, 0;
      policyEntryTimestampNs, lastAppliedObservationTimestampNs := 0, 0;
    }

    /** `RLControllerBase::handleDefaultMode`. */
    method CommandDefault()
      modifies joints
      ensures joints[..] == DefaultCommands(joints.Length)
    {
      for k := 0 to joints.Length
        invariant forall n :: 0 <= n < k ==> joints[n] == DEFAULT_COMMAND
      {
        joints[k] := DEFAULT_COMMAND;
      }
    }

    method LeaveByFault()
      modifies this, joints
      ensures Value() == Fault(old(Value()))
    {
      LeavePolicyMode();
      mode := Default;
      CommandDefault();
    }

    method SubmitObservation(i: Inputs)
      modifies this`observationSequence, this`stamps
      ensures Value() == Submitted(old(Value()), i)
    {
      observationSequence := observationSequence + 1;
      stamps := stamps[observationSequence := i.submitNs];
    }

    /** `applyActionPacket`; a packet that fails any test leaves everything unchanged. */
    method ApplyActionPacket(cfg: Config, i: Inputs)
      modifies this`lastAppliedSequence, this`lastAppliedObservationTimestampNs, actions
      ensures Value() == Applied(cfg, old(Value()), i)
    {
      if i.packet.None? { return; }
      var r := i.packet.value;
      if !r.valid { return; }
      if r.epoch != policyEpoch || r.policy != cfg.kind || r.sourceSequence <= lastAppliedSequence { return; }
      var ageNs := i.consumedNs - r.observationTimestampNs;
      if cfg.timeoutMs > 0 && ageNs > cfg.timeoutMs * NS_PER_MS { return; }
      if r.size != actions.Length || r.size > |r.actions| { return; }
      for k := 0 to r.size
        invariant forall n :: 0 <= n < k ==> actions[n] == r.actions[n]
      {
        actions[k] := r.actions[k];
      }
      lastAppliedSequence, lastAppliedObservationTimestampNs := r.sourceSequence, r.observationTimestampNs;
    }

    method ActionsFinite() returns (finite: bool)
      ensures finite <==> AllFinite(actions[..])
    {
      for k := 0 to actions.Length
        invariant forall n :: 0 <= n < k ==> actions[n].Finite?
      {
        if !actions[k].Finite? {
          assert !actions[..][k].Finite?;
          return false;
        }
      }
      return true;
    }

    method ClampActions(clip: real)
      requires AllFinite(actions[..])
      modifies actions
      ensures actions[..] == Clamped(old(actions[..]), clip)
    {
      for k := 0 to actions.Length
        invariant forall n :: 0 <= n < k ==> actions[n] == Clamped(old(actions[..]), clip)[n]
        invariant forall n :: k <= n < actions.Length ==> actions[n] == old(actions[n])
      {
        assert old(actions[..])[k].Finite?;
        actions[k] := Finite(Clamp(actions[k].value, clip));
      }
    }

    method ActionTimedOut(nowNs: int, timeoutMs: int) returns (late: bool)
      ensures late == TimedOut(SessionValue(), nowNs, timeoutMs)
    {
      if timeoutMs <= 0 || activePolicy == NONE { return false; }
      var referenceTimestamp :=
        if lastAppliedObservationTimestampNs != 0 then lastAppliedObservationTimestampNs else policyEntryTimestampNs;
      late := referenceTimestamp != 0 && nowNs - referenceTimestamp > timeoutMs * NS_PER_MS;
    }

    method CommandJoints(cfg: Config, frozen: Option<Blend>, weight: real)
      requires Valid(cfg) && AllFinite(actions[..])
      modifies joints
      ensures joints[..] == PolicyCommands(cfg, actions[..], frozen, weight)
    {
      ghost var commands := PolicyCommands(cfg, actions[..], frozen, weight);
      for k := 0 to joints.Length
        invariant actions[..] == old(actions[..])
        invariant forall n :: 0 <= n < k ==> joints[n] == commands[n]
      {
        assert actions[..][k].Finite?;
        joints[k] := PolicyCommand(cfg, k, Blended(frozen, weight, k, actions[k].value));
      }
    }

    /** The common end of both handlers. */
    method ActOnAnswer(cfg: Config, i: Inputs) returns (outcome: Outcome)
      requires Ready(cfg) && Timed(i)
      modifies this, actions, joints, clock
      ensures Ready(cfg) && (Value(), outcome) == Act(cfg, old(Value()), i)
    {
      var finite := ActionsFinite();
      if !finite {
        LeaveByFault();
        return Faults;
      }
      ClampActions(cfg.clip);
      var late := ActionTimedOut(i.timeoutNs, cfg.timeoutMs);
      if late {
        LeaveByFault();
        return Faults;
      }
      var frozen := if cfg.kind == UP then blend else None;
      var weight := Weight(cfg, frozen, i.nowNs);
      CommandJoints(cfg, frozen, weight);
      if frozen.Some? && weight >= 1.0 {
        blend := None;
        ResetPlayback(i.endNs);
      }
      return Continues;
    }

    /** `beginDownCompletionDamping`: remembers the commands in force. */
    method BeginDownCompletionDamping(nowNs: int)
      modifies this`fade
      ensures Value() == BeginFade(old(Value()), nowNs)
    {
      fade := if joints.Length > MAX_TRANSITION_DOF then None else Some(Fade(nowNs, joints[..]));
    }

    method CommandFade(commands: seq<JointCommand>, blend: real)
      requires |commands| == joints.Length
      modifies joints
      ensures joints[..] == FadeCommands(commands, blend)
    {
      ghost var faded := FadeCommands(commands, blend);
      for k := 0 to joints.Length
        invariant forall n :: 0 <= n < k ==> joints[n] == faded[n]
      {
        joints[k] := FadeCommand(commands[k], blend);
      }
    }

    /** `handleDownCompletionDamping`; pure damping is the DEFAULT command. */
    method HandleDownCompletionDamping(cfg: Config, nowNs: int)
      modifies this`fade, joints
      ensures Value() == DampingStep(cfg, old(Value()), nowNs)
    {
      if joints.Length > MAX_TRANSITION_DOF {
        fade := None;
        CommandDefault();
        return;
      }
      if fade.None? || |fade.value.commands| != joints.Length {
        CommandDefault();
        return;
      }
      var linear := Progress(fade.value.startNs, cfg.fadeDurationNs, nowNs);
      CommandFade(fade.value.commands, Smooth(linear));
      if linear >= 1.0 { fade := None; }
    }

    method CompletePolicy(cfg: Config, i: Inputs)
      modifies this, joints
      ensures Value() == Complete(cfg, old(Value()), i)
    {
      LeavePolicyMode();
      if cfg.kind == DOWN {
        dampingAfterCompletion := true;
        BeginDownCompletionDamping(i.timeoutNs);
        HandleDownCompletionDamping(cfg, i.endNs);
      } else {
        mode := Walk;
      }
    }

    /** A submission, and in synchronous mode its answer at once. */
    method ObserveAndSubmit(cfg: Config, i: Inputs)
      modifies this`observationSequence, this`stamps, this`lastAppliedSequence,
        this`lastAppliedObservationTimestampNs, actions
      ensures Value() == Observed(cfg, old(Value()), i)
    {
      SubmitObservation(i);
      if !cfg.asynchronous { ApplyActionPacket(cfg, i); }
    }

    method ConsumeAction(cfg: Config, i: Inputs)
      modifies this`lastAppliedSequence, this`lastAppliedObservationTimestampNs, actions
      ensures Value() == Answered(cfg, old(Value()), i)
    {
      if cfg.asynchronous { ApplyActionPacket(cfg, i); }
    }

    method TakePolicyTick(cfg: Config, i: Inputs) returns (fires: bool)
      requires Valid(cfg) && Timed(i) && OnGrid(clock.Value(), cfg.periodNs)
      modifies clock
      ensures (fires, Value()) == Ticked(cfg, old(Value()), i) && OnGrid(clock.Value(), cfg.periodNs)
    {
      fires := false;
      if cfg.kind == WALK || !endPending {
        var tick;
        fires, tick := clock.TakeTick(cfg.periodNs as int64, i.nowNs as int64);
      }
    }

    method HandleWalkMode(cfg: Config, i: Inputs) returns (outcome: Outcome)
      requires Ready(cfg) && Timed(i)
      modifies this, actions, joints, clock
      ensures Ready(cfg) && (Value(), outcome) == WalkCycle(cfg, old(Value()), i)
    {
      EnterPolicyMode(cfg, i);
      var fires := TakePolicyTick(cfg, i);
      if fires {
        if !i.observationOk {
          LeaveByFault();
          return Faults;
        }
        ObserveAndSubmit(cfg, i);
      }
      ConsumeAction(cfg, i);
      outcome := ActOnAnswer(cfg, i);
    }

    /** `endPending` and the two fields that go with it. */
    method RecordEnd(cfg: Config, nowNs: int)
      requires nowNs <= INT64_MAX
      modifies this`endPending, this`finalObservationSequence, this`completionNotBeforeNs, this`finalNs
      ensures Value() == EndSeen(cfg, old(Value()), nowNs)
    {
      endPending, finalObservationSequence, finalNs := true, observationSequence, nowNs;
      completionNotBeforeNs := if nowNs <= INT64_MAX - cfg.periodNs then nowNs + cfg.periodNs else INT64_MAX;
    }

    method TickMotion(cfg: Config, fires: bool, i: Inputs)
      requires Ready(cfg) && Timed(i)
      modifies this`observationSequence, this`stamps, this`lastAppliedSequence, this`lastAppliedObservationTimestampNs,
        this`endPending, this`finalObservationSequence, this`completionNotBeforeNs, this`finalNs, actions
      ensures Ready(cfg) && Value() == MotionTick(cfg, fires, old(Value()), i)
    {
      if fires {
        ObserveAndSubmit(cfg, i);
        var frozen := cfg.kind == UP && blend.Some?;
        var over := MotionOver(cfg, Clock(clock.startNs as int, clock.nextPolicyNs as int,
                                          if clock.hasProcessedTick then clock.lastPolicyTick as int else -1), i.nowNs);
        if !frozen && over { RecordEnd(cfg, i.nowNs); }
      }
      ConsumeAction(cfg, i);
    }

    method HandleMotionMode(cfg: Config, i: Inputs) returns (outcome: Outcome)
      requires Ready(cfg) && Timed(i)
      modifies this, actions, joints, clock
      ensures Ready(cfg) && (Value(), outcome) == MotionCycle(cfg, old(Value()), i)
    {
      EnterPolicyMode(cfg, i);
      if endPending && finalObservationSequence != 0 && i.nowNs >= completionNotBeforeNs
         && lastAppliedSequence >= finalObservationSequence
      {
        CompletePolicy(cfg, i);
        return Completes;
      }
      var fires := TakePolicyTick(cfg, i);
      if fires && !i.observationOk {
        LeaveByFault();
        return Faults;
      }
      TickMotion(cfg, fires, i);
      outcome := ActOnAnswer(cfg, i);
    }

    method HandleDownMode(cfg: Config, i: Inputs) returns (outcome: Outcome)
      requires Ready(cfg) && Timed(i)
      modifies this, actions, joints, clock
      ensures Ready(cfg) && (Value(), outcome) == DownCycle(cfg, old(Value()), i)
    {
      if dampingAfterCompletion && activePolicy == NONE {
        HandleDownCompletionDamping(cfg, i.nowNs);
        return Holds;
      }
      outcome := HandleMotionMode(cfg, i);
    }

    /** The joints on the way from `from` to the first frame. */
    method CommandTransition(cfg: Config, from: seq<real>, x: real)
      requires Valid(cfg) && |from| == |cfg.firstFrame| == cfg.Dof()
      modifies joints
      ensures joints[..] == TransitionCommands(cfg, from, x)
    {
      ghost var commands := TransitionCommands(cfg, from, x);
      for k := 0 to joints.Length
        invariant forall n :: 0 <= n < k ==> joints[n] == commands[n]
      {
        joints[k] := PositionCommand(cfg, k, TransitionAt(cfg, from, x, k));
      }
    }

    method CommandHold(cfg: Config, at: seq<real>)
      requires Valid(cfg) && |at| == cfg.Dof()
      modifies joints
      ensures joints[..] == HoldCommands(cfg, at)
    {
      for k := 0 to joints.Length
        invariant forall n :: 0 <= n < k ==> joints[n] == HoldCommands(cfg, at)[n]
      {
        joints[k] := PositionCommand(cfg, k, at[k]);
      }
    }

    /** Seeds the actions with the first frame; stops at a joint without a scale. */
    method SeedActions(cfg: Config) returns (seeded: nat)
      requires Valid(cfg) && |cfg.firstFrame| == cfg.Dof()
      modifies actions
      ensures seeded == FirstUnscaled(cfg, 0) && |actions[..]| == |old(actions[..])| == cfg.Dof()
      ensures actions[..] == Floats(Seeds(cfg, seeded)) + old(actions[..])[seeded..]
    {
      seeded := 0;
      while seeded < cfg.Dof() && cfg.scale[seeded] != 0.0
        invariant seeded <= cfg.Dof() && FirstUnscaled(cfg, seeded) == FirstUnscaled(cfg, 0)
        invariant forall n :: 0 <= n < seeded ==> actions[n] == Floats(Seeds(cfg, FirstUnscaled(cfg, 0)))[n]
        invariant forall n :: seeded <= n < actions.Length ==> actions[n] == old(actions[n])
      {
        actions[seeded] := Finite((cfg.firstFrame[seeded] - cfg.offset[seeded]) / cfg.scale[seeded]);
        seeded := seeded + 1;
      }
    }

    /** The hand-over starts on a playback and a timeout that both start now. */
    method FinishUpPreparation(nowNs: int, resetNs: int, seeds: seq<real>)
      requires 0 <= resetNs <= INT64_MAX && actions[..] == Floats(seeds)
      modifies this`endPending, this`finalObservationSequence, this`completionNotBeforeNs, this`blend,
        this`preparation, this`policyEntryTimestampNs, this`lastAppliedObservationTimestampNs, clock
      ensures Value() == FinishPreparation(old(Value()), nowNs, resetNs, seeds)
    {
      ResetPlayback(resetNs);
      preparation, blend := None, Some(Blend(nowNs, seeds));
      policyEntryTimestampNs, lastAppliedObservationTimestampNs := nowNs, 0;
    }

    method ApplyGains(cfg: Config, p: Preparation, nowNs: int)
      requires Valid(cfg) && |p.startAngles| == cfg.Dof()
      modifies this`preparation, joints
      ensures Value() == old(Value()).(joints := HoldCommands(cfg, p.startAngles),
                                       preparation := Some(p.(gainsApplied := true, startNs := nowNs)))
    {
      CommandHold(cfg, p.startAngles);
      preparation := Some(p.(gainsApplied := true, startNs := nowNs));
    }

    /** The first frame is reached: the network takes over, unless a joint has no scale. */
    method EndUpPreparation(cfg: Config, i: Inputs) returns (outcome: Outcome)
      requires Valid(cfg) && Timed(i) && |cfg.firstFrame| == cfg.Dof()
      modifies this, actions, joints, clock
      ensures (Value(), outcome) == PreparationOver(cfg, old(Value()), i)
      ensures OnGrid(old(clock.Value()), cfg.periodNs) ==> OnGrid(clock.Value(), cfg.periodNs)
    {
      var seeded := SeedActions(cfg);
      if seeded < cfg.Dof() {
        preparation := None;
        LeaveByFault();
        return Faults;
      }
      assert actions[..] == Floats(Seeds(cfg, seeded));
      FinishUpPreparation(i.nowNs, i.submitNs, Seeds(cfg, seeded));
      return Continues;
    }

    /** `handleUpPreparation` while the preparation is active. */
    method HandleUpPreparation(cfg: Config, i: Inputs) returns (outcome: Outcome)
      requires Ready(cfg) && Timed(i) && preparation.Some?
      modifies this, actions, joints, clock
      ensures Ready(cfg) && (Value(), outcome) == Prepare(cfg, old(Value()), i)
    {
      var p := preparation.value;
      if |cfg.firstFrame| != cfg.Dof() || |p.startAngles| != cfg.Dof() {
        preparation := None;
        LeaveByFault();
        return Faults;
      }
      if !p.gainsApplied {
        ApplyGains(cfg, p, i.nowNs);
        return Continues;
      }
      var blending := Progress(p.startNs, cfg.transitionDurationNs, i.nowNs);
      CommandTransition(cfg, p.startAngles, blending);
      if blending < 1.0 { return Continues; }
      outcome := EndUpPreparation(cfg, i);
    }

    method HandleUpMode(cfg: Config, i: Inputs) returns (outcome: Outcome)
      requires Ready(cfg) && Timed(i)
      modifies this, actions, joints, clock
      ensures Ready(cfg) && (Value(), outcome) == UpCycle(cfg, old(Value()), i)
    {
      EnterPolicyMode(cfg, i);
      if preparation.Some? {
        outcome := HandleUpPreparation(cfg, i);
      } else {
        outcome := HandleMotionMode(cfg, i);
      }
    }

    /** `AcController::handleDefaultMode`: the policy is left as well. */
    method HandleDefaultMode()
      modifies this, joints
      ensures Value() == DefaultCycle(old(Value()))
    {
      LeavePolicyMode();
      CommandDefault();
    }

    /** `handleLieMode` and `handleStandMode`, with the interpolated posture. */
    method HandlePostureMode(posture: seq<JointCommand>)
      requires |posture| == joints.Length
      modifies this, joints
      ensures Value() == PostureCycle(old(Value()), posture)
    {
      LeavePolicyMode();
      CommandPosture(posture);
    }

    method CommandPosture(posture: seq<JointCommand>)
      requires |posture| == joints.Length
      modifies joints
      ensures joints[..] == posture
    {
      for k := 0 to joints.Length
        invariant forall n :: 0 <= n < k ==> joints[n] == posture[n]
      {
        joints[k] := posture[k];
      }
    }

    ghost predicate ReadyForAll(p: Policies)
      reads this, clock
    {
      p.Valid() && Ready(p.walk) && Ready(p.dance) && Ready(p.down) && Ready(p.up)
    }

    method DispatchControlMode(p: Policies, i: Inputs, posture: seq<JointCommand>) returns (outcome: Outcome)
      requires ReadyForAll(p) && Timed(i) && |posture| == joints.Length
      modifies this, actions, joints, clock
      ensures (Value(), outcome) == Dispatched(p, old(Value()), i, posture)
    {
      outcome := Continues;
      match mode {
        case Default => HandleDefaultMode();
        case Lie => HandlePostureMode(posture);
        case Stand => HandlePostureMode(posture);
        case Walk => outcome := HandleWalkMode(p.walk, i);
        case Dance => outcome := HandleMotionMode(p.dance, i);
        case Down => outcome := HandleDownMode(p.down, i);
        case Up => outcome := HandleUpMode(p.up, i);
      }
    }

    method ResetSession()
      modifies this`activePolicy, this`policyEpoch, this`observationSequence, this`lastAppliedSequence,
        this`policyEntryTimestampNs, this`lastAppliedObservationTimestampNs
      ensures SessionValue() == Start(old(SessionValue()))
    {
      policyEpoch, activePolicy := policyEpoch + 1, NONE;
      observationSequence, lastAppliedSequence := 0, 0;
      policyEntryTimestampNs, lastAppliedObservationTimestampNs := 0, 0;
    }

    method ResetModes()
      modifies this`mode, this`preparation, this`blend, this`fade, actions
      ensures Value() == old(Value()).(mode := Default, blend := None, preparation := None, fade := None,
                                       actions := Zeros(actions.Length))
    {
      mode, preparation, blend, fade := Default, None, None, None;
      ClearActions();
    }

    method ResetRun()
      modifies this`mode, this`preparation, this`blend, this`fade, this`activePolicy, this`policyEpoch,
        this`observationSequence, this`lastAppliedSequence, this`policyEntryTimestampNs,
        this`lastAppliedObservationTimestampNs, actions
      ensures Value() == Started(old(Value()))
    {
      ResetSession();
      ResetModes();
    }

    /** `starting`: the worker is told once everything has been reset. */
    method Starting()
      modifies this, actions
      ensures Value() == Started(old(Value())) && controllerActive && wakeGeneration == old(wakeGeneration) + 1
    {
      controllerActive := false;
      ResetRun();
      controllerActive, wakeGeneration := true, wakeGeneration + 1;
    }

    method Stopping()
      modifies this`controllerActive, this`wakeGeneration, this`activePolicy, this`policyEpoch
      ensures Value() == StoppedRunning(old(Value())) && !controllerActive
      ensures wakeGeneration == old(wakeGeneration) + 1
    {
      controllerActive := false;
      wakeGeneration := wakeGeneration + 1;
      policyEpoch, activePolicy := policyEpoch + 1, NONE;
    }
  }
}

/**
 The WALK handler and the motion-playback handler shared by DANCE, DOWN and UP:
 one call per control cycle, submitting observations on the playback clock,
 applying answers, and leaving the policy on completion, on a fault or on a timeout.
 */
module PolicyHandlers {
  import opened Common
  import opened PolicySession
  import opened PolicyPlaybackClock
  import opened ControlStateMachine
  import opened RLControllerBase

  /** Parameters of one policy mode; `periodNs`, the timeout and the frequency are what
      the validated configuration provides. The last line is used by UP and DOWN. */
  datatype Config = Config(
    kind: PolicyKind, asynchronous: bool, timeoutMs: int, periodNs: int,
    timestepCount: nat, motionFrequencyHz: real, clip: real,
    scale: seq<real>, offset: seq<real>, stiffness: seq<real>, damping: seq<real>,
    firstFrame: seq<real>, transitionDurationNs: int, blendDurationNs: int, fadeDurationNs: int)
  {
    ghost predicate Valid() {
      && kind != NONE && timeoutMs >= 0 && periodNs > 0 && motionFrequencyHz > 0.0 && clip >= 0.0
      && |scale| == |offset| == |stiffness| == |damping|
    }

    function Dof(): nat { |scale| }
  }

  function ModeOf(kind: PolicyKind): Mode {
    match kind
    case WALK => Walk
    case DANCE => Dance
    case DOWN => Down
    case UP => Up
    case NONE => Default
  }

  /** `DancePolicy::RuntimeState`. */
  datatype Playback = Playback(clock: Clock, endPending: bool, finalSequence: nat, completionNotBeforeNs: int)

  function Rewound(nowNs: int): Playback {
    Playback(Reset(nowNs), false, 0, 0)
  }

  /** UP hands command authority to the network while it holds frame zero. */
  datatype Blend = Blend(startNs: int, startActions: seq<real>)

  /** Before that it takes the robot from its measured pose to frame zero: `Some` while
      `upPreparationActive_`. */
  datatype Preparation = Preparation(gainsApplied: bool, startNs: int, startAngles: seq<real>)

  /** After its motion DOWN fades its last command into damping: `Some` while
      `downTorqueFadeActive_`. */
  datatype Fade = Fade(startNs: int, commands: seq<JointCommand>)

  /** `damping` is `down_.dampingAfterCompletion`. `stamps` and `finalNs` are history:
      when each observation of this epoch was submitted, and when the handler saw the
      end of the motion. */
  datatype State = State(
    session: Session, playback: Playback, blend: Option<Blend>, preparation: Option<Preparation>,
    fade: Option<Fade>, mode: Mode, damping: bool,
    actions: seq<Float>, joints: seq<JointCommand>, stamps: map<nat, int>, finalNs: int)

  /** What one call reads: the steady clock at each place that reads it, whether the
      observation could be computed, the packet waiting in the action mailbox (for
      synchronous inference, the one the policy has just filled), and the measured
      joint positions. */
  datatype Inputs = Inputs(
    entryNs: int, resetNs: int, nowNs: int, submitNs: int, consumedNs: int, timeoutNs: int, endNs: int,
    observationOk: bool, packet: Option<ActionPacket>, measured: seq<real>)

  datatype Outcome = Continues | Completes | Faults | Holds

  /** The steady clock is positive, fits 64 bits, and does not go back within a call. */
  predicate Timed(i: Inputs) {
    0 < i.entryNs <= i.resetNs <= i.nowNs <= i.submitNs <= i.consumedNs <= i.timeoutNs <= i.endNs <= INT64_MAX
  }

  // ---------------------------------------------------------------------------
  // The handlers as functions of the state
  // ---------------------------------------------------------------------------

  function Zeros(n: nat): (r: seq<Float>)
    ensures |r| == n && forall k :: 0 <= k < n ==> r[k] == ZERO
  {
    seq(n, _ => ZERO)
  }

  /** `enterPolicyMode` with the mode's entry hook: DOWN forgets an earlier completion
      and its fade, UP starts its preparation at the measured pose. */
  function EnterMode(cfg: Config, s: State, i: Inputs): State {
    if s.session.activePolicy == cfg.kind then s
    else s.(session := Enter(s.session, cfg.kind, i.entryNs), playback := Rewound(i.resetNs),
            preparation := if cfg.kind == UP then Some(Preparation(false, 0, i.measured)) else s.preparation,
            fade := if cfg.kind == DOWN then None else s.fade,
            damping := s.damping && cfg.kind != DOWN, actions := Zeros(cfg.Dof()),
            stamps := map[], finalNs := 0)
  }

  /** Leave the policy for DEFAULT with the DEFAULT command on every joint. */
  function Fault(s: State): State {
    s.(session := Leave(s.session), mode := Default, joints := DefaultCommands(|s.joints|))
  }

  // ---------------------------------------------------------------------------
  // After the end of DOWN
  // ---------------------------------------------------------------------------

  const COMPLETION_DAMPING: real := 0.1
  const MAX_TRANSITION_DOF: nat := 24

  /** Elapsed time over duration, clamped to [0, 1]. */
  function Progress(startNs: int, durationNs: int, nowNs: int): (x: real)
    ensures 0.0 <= x <= 1.0
  {
    var elapsed := if nowNs >= startNs then nowNs - startNs else 0;
    if durationNs <= 0 || elapsed >= durationNs then 1.0
    else Fraction(elapsed, durationNs)
  }

  function Fraction(a: int, b: int): (x: real)
    requires 0 <= a < b
    ensures 0.0 <= x <= 1.0
  {
    a as real / b as real
  }

  function Smooth(x: real): real {
    x * x * (3.0 - 2.0 * x)
  }

  function Scaled(x: Float, w: real): Float {
    if x.Finite? then Finite(x.value * w) else NonFinite
  }

  function Plus(x: Float, d: real): Float {
    if x.Finite? then Finite(x.value + d) else NonFinite
  }

  /** Authority is withdrawn from everything but the position, and damping is added. */
  function FadeCommand(c: JointCommand, blend: real): JointCommand {
    JointCommand(c.position, Scaled(c.velocity, 1.0 - blend), Scaled(c.kp, 1.0 - blend),
                 Plus(Scaled(c.kd, 1.0 - blend), COMPLETION_DAMPING * blend), Scaled(c.feedforward, 1.0 - blend))
  }

  function FadeCommands(cs: seq<JointCommand>, blend: real): (r: seq<JointCommand>)
    ensures |r| == |cs|
  {
    seq(|cs|, k requires 0 <= k < |cs| => FadeCommand(cs[k], blend))
  }

  /** `beginDownCompletionDamping`. */
  function BeginFade(s: State, nowNs: int): State {
    s.(fade := if |s.joints| > MAX_TRANSITION_DOF then None else Some(Fade(nowNs, s.joints)))
  }

  /** `handleDownCompletionDamping`; pure damping is the DEFAULT command. */
  function DampingStep(cfg: Config, s: State, nowNs: int): State {
    if |s.joints| > MAX_TRANSITION_DOF || s.fade.None? || |s.fade.value.commands| != |s.joints|
    then s.(fade := if |s.joints| > MAX_TRANSITION_DOF then None else s.fade, joints := DefaultCommands(|s.joints|))
    else
      var x := Progress(s.fade.value.startNs, cfg.fadeDurationNs, nowNs);
      s.(joints := FadeCommands(s.fade.value.commands, Smooth(x)), fade := if x >= 1.0 then None else s.fade)
  }

  /** The end of the motion has been applied: DOWN stays, without a policy, to fade
      into damping; DANCE and UP hand over to WALK. */
  function Complete(cfg: Config, s: State, i: Inputs): State {
    if cfg.kind == DOWN
    then DampingStep(cfg, BeginFade(s.(session := Leave(s.session), damping := true), i.timeoutNs), i.endNs)
    else s.(session := Leave(s.session), mode := Walk)
  }

  predicate CompletionDue(s: State, nowNs: int) {
    && s.playback.endPending && s.playback.finalSequence != 0
    && nowNs >= s.playback.completionNotBeforeNs
    && s.session.lastAppliedSequence >= s.playback.finalSequence
  }

  /** `elapsedSec >= durationSec` for the tick that has just fired. */
  predicate MotionOver(cfg: Config, c: Clock, nowNs: int)
    requires cfg.motionFrequencyHz > 0.0
  {
    var elapsed := if c.last == 0 || nowNs < c.startNs then 0.0 else (nowNs - c.startNs) as real / 1.0e9;
    var duration := if cfg.timestepCount <= 1 then 0.0 else (cfg.timestepCount - 1) as real / cfg.motionFrequencyHz;
    elapsed >= duration
  }

  function Submitted(s: State, i: Inputs): State {
    var sequence := s.session.observationSequence + 1;
    s.(session := s.session.(observationSequence := sequence), stamps := s.stamps[sequence := i.submitNs])
  }

  /** `applyActionPacket`. */
  function Applied(cfg: Config, s: State, i: Inputs): State {
    if i.packet.Some? && Accepts(s.session, i.packet.value, cfg.kind, i.consumedNs, cfg.timeoutMs, Some(s.actions))
    then s.(session := AfterApply(s.session, i.packet.value),
            actions := i.packet.value.actions[..i.packet.value.size])
    else s
  }

  function EndSeen(cfg: Config, s: State, nowNs: int): State {
    s.(playback := s.playback.(
         endPending := true, finalSequence := s.session.observationSequence,
         completionNotBeforeNs := if nowNs <= INT64_MAX - cfg.periodNs then nowNs + cfg.periodNs else INT64_MAX),
       finalNs := nowNs)
  }

  predicate AllFinite(actions: seq<Float>) {
    forall k :: 0 <= k < |actions| ==> actions[k].Finite?
  }

  function Clamp(x: real, bound: real): real {
    var low := if bound < x then bound else x;
    if low < -bound then -bound else low
  }

  function Clamped(actions: seq<Float>, bound: real): (r: seq<Float>)
    ensures |r| == |actions|
  {
    seq(|actions|, k requires 0 <= k < |actions| =>
      if actions[k].Finite? then Finite(Clamp(actions[k].value, bound)) else actions[k])
  }

  /** The action that is applied, and remembered, for one joint. */
  function Blended(blend: Option<Blend>, weight: real, k: nat, action: real): real {
    if blend.Some? && k < |blend.value.startActions|
    then blend.value.startActions[k] * (1.0 - weight) + action * weight else action
  }

  function Weight(cfg: Config, blend: Option<Blend>, nowNs: int): real {
    if blend.None? then 1.0 else Smooth(Progress(blend.value.startNs, cfg.blendDurationNs, nowNs))
  }

  function PolicyCommand(cfg: Config, k: nat, action: real): JointCommand
    requires cfg.Valid() && k < cfg.Dof()
  {
    JointCommand(Finite(action * cfg.scale[k] + cfg.offset[k]), ZERO,
                 Finite(cfg.stiffness[k]), Finite(cfg.damping[k]), ZERO)
  }

  function PolicyCommands(cfg: Config, actions: seq<Float>, blend: Option<Blend>, weight: real): (r: seq<JointCommand>)
    requires cfg.Valid() && |actions| == cfg.Dof() && AllFinite(actions)
    ensures |r| == cfg.Dof()
  {
    seq(cfg.Dof(), k requires 0 <= k < cfg.Dof() =>
      PolicyCommand(cfg, k, Blended(blend, weight, k, actions[k].value)))
  }

  /** UP freezes the motion while it hands over. */
  function Frozen(cfg: Config, s: State): Option<Blend> {
    if cfg.kind == UP then s.blend else None
  }

  /** The common end of both handlers: validate, clamp, test the age, command. */
  function Act(cfg: Config, s: State, i: Inputs): (State, Outcome)
    requires cfg.Valid() && |s.actions| == |s.joints| == cfg.Dof()
  {
    if !AllFinite(s.actions) then (Fault(s), Faults)
    else
      var c := s.(actions := Clamped(s.actions, cfg.clip));
      if TimedOut(c.session, i.timeoutNs, cfg.timeoutMs) then (Fault(c), Faults)
      else
        var blend := Frozen(cfg, c);
        var weight := Weight(cfg, blend, i.nowNs);
        var d := c.(joints := PolicyCommands(cfg, c.actions, blend, weight));
        if blend.Some? && weight >= 1.0 then (d.(blend := None, playback := Rewound(i.endNs)), Continues)
        else (d, Continues)
  }

  /** `take`, which is not called any more once the end of a motion has been seen. */
  function Ticked(cfg: Config, s: State, i: Inputs): (bool, State) {
    if cfg.kind != WALK && s.playback.endPending then (false, s)
    else
      var (fires, clock) := Take(s.playback.clock, cfg.periodNs, i.nowNs);
      (fires, s.(playback := s.playback.(clock := clock)))
  }

  /** Submit, and in synchronous mode apply the answer at once. */
  function Observed(cfg: Config, s: State, i: Inputs): State {
    if cfg.asynchronous then Submitted(s, i) else Applied(cfg, Submitted(s, i), i)
  }

  function Answered(cfg: Config, s: State, i: Inputs): State {
    if cfg.asynchronous then Applied(cfg, s, i) else s
  }

  /** `handleWalkMode`. */
  function WalkCycle(cfg: Config, before: State, i: Inputs): (State, Outcome)
    requires cfg.Valid() && |before.actions| == |before.joints| == cfg.Dof()
  {
    var (fires, s) := Ticked(cfg, EnterMode(cfg, before, i), i);
    if fires && !i.observationOk then (Fault(s), Faults)
    else Act(cfg, Answered(cfg, if fires then Observed(cfg, s, i) else s, i), i)
  }

  /** This tick submitted the last observation of the motion. */
  predicate Ends(cfg: Config, fires: bool, s: State, i: Inputs)
    requires cfg.motionFrequencyHz > 0.0
  {
    fires && Frozen(cfg, s).None? && MotionOver(cfg, s.playback.clock, i.nowNs)
  }

  function MotionTick(cfg: Config, fires: bool, s: State, i: Inputs): State
    requires cfg.motionFrequencyHz > 0.0
  {
    var t := if fires then Observed(cfg, s, i) else s;
    Answered(cfg, if Ends(cfg, fires, s, i) then EndSeen(cfg, t, i.nowNs) else t, i)
  }

  /** `handleMotionMode`. */
  function MotionCycle(cfg: Config, before: State, i: Inputs): (State, Outcome)
    requires cfg.Valid() && |before.actions| == |before.joints| == cfg.Dof()
  {
    var s := EnterMode(cfg, before, i);
    if CompletionDue(s, i.nowNs) then (Complete(cfg, s, i), Completes)
    else
      var (fires, t) := Ticked(cfg, s, i);
      if fires && !i.observationOk then (Fault(t), Faults)
      else Act(cfg, MotionTick(cfg, fires, t, i), i)
  }

  /** One call of the handler the mode dispatches to. */
  function PolicyCycle(cfg: Config, before: State, i: Inputs): (State, Outcome)
    requires cfg.Valid() && |before.actions| == |before.joints| == cfg.Dof()
  {
    if cfg.kind == WALK then WalkCycle(cfg, before, i) else MotionCycle(cfg, before, i)
  }

  /** `handleDownMode`. */
  function DownCycle(cfg: Config, before: State, i: Inputs): (State, Outcome)
    requires cfg.Valid() && |before.actions| == |before.joints| == cfg.Dof()
  {
    if before.damping && before.session.activePolicy == NONE then (DampingStep(cfg, before, i.nowNs), Holds)
    else MotionCycle(cfg, before, i)
  }

  // ---------------------------------------------------------------------------
  // Before the start of UP
  // ---------------------------------------------------------------------------

  /** A joint held at a position with the policy's gains. */
  function PositionCommand(cfg: Config, k: nat, position: real): JointCommand
    requires cfg.Valid() && k < cfg.Dof()
  {
    JointCommand(Finite(position), ZERO, Finite(cfg.stiffness[k]), Finite(cfg.damping[k]), ZERO)
  }

  function TransitionAt(cfg: Config, from: seq<real>, x: real, k: nat): real
    requires k < |from| && k < |cfg.firstFrame|
  {
    from[k] * (1.0 - x) + cfg.firstFrame[k] * x
  }

  /** On the way from the start angles to the first frame. */
  function TransitionCommands(cfg: Config, from: seq<real>, x: real): (r: seq<JointCommand>)
    requires cfg.Valid() && |from| == |cfg.firstFrame| == cfg.Dof()
    ensures |r| == cfg.Dof()
  {
    seq(cfg.Dof(), k requires 0 <= k < cfg.Dof() =>
      PositionCommand(cfg, k, TransitionAt(cfg, from, x, k)))
  }

  function HoldCommands(cfg: Config, at: seq<real>): (r: seq<JointCommand>)
    requires cfg.Valid() && |at| == cfg.Dof()
    ensures |r| == cfg.Dof()
  {
    seq(cfg.Dof(), k requires 0 <= k < cfg.Dof() => PositionCommand(cfg, k, at[k]))
  }

  /** The first joint whose action scale is zero, or the number of joints. */
  function FirstUnscaled(cfg: Config, from: nat): (r: nat)
    requires from <= cfg.Dof()
    ensures from <= r <= cfg.Dof() && (r < cfg.Dof() ==> cfg.scale[r] == 0.0)
    ensures forall k :: from <= k < r ==> cfg.scale[k] != 0.0
    decreases cfg.Dof() - from
  {
    if from == cfg.Dof() || cfg.scale[from] == 0.0 then from else FirstUnscaled(cfg, from + 1)
  }

  /** The action that commands the first frame. */
  function Seed(cfg: Config, k: nat): real
    requires cfg.Valid() && |cfg.firstFrame| == cfg.Dof() && k < cfg.Dof() && cfg.scale[k] != 0.0
  {
    (cfg.firstFrame[k] - cfg.offset[k]) / cfg.scale[k]
  }

  function Seeds(cfg: Config, n: nat): (r: seq<real>)
    requires cfg.Valid() && |cfg.firstFrame| == cfg.Dof() && n <= FirstUnscaled(cfg, 0)
    ensures |r| == n
  {
    seq(n, k requires 0 <= k < n => Seed(cfg, k))
  }

  function Floats(xs: seq<real>): (r: seq<Float>)
    ensures |r| == |xs|
  {
    seq(|xs|, k requires 0 <= k < |xs| => Finite(xs[k]))
  }

  /** The end of UP's preparation: the playback and the timeout both start now. */
  function FinishPreparation(s: State, nowNs: int, resetNs: int, seeds: seq<real>): State {
    s.(session := s.session.(policyEntryNs := nowNs, lastAppliedObservationNs := 0), preparation := None,
       playback := Rewound(resetNs), blend := Some(Blend(nowNs, seeds)), actions := Floats(seeds))
  }

  /** The first frame is reached: the network takes over, unless a joint has no scale. */
  function PreparationOver(cfg: Config, s: State, i: Inputs): (State, Outcome)
    requires cfg.Valid() && |s.actions| == cfg.Dof() == |cfg.firstFrame|
  {
    var n := FirstUnscaled(cfg, 0);
    if n < cfg.Dof()
    then (Fault(s.(preparation := None, actions := Floats(Seeds(cfg, n)) + s.actions[n..])), Faults)
    else (FinishPreparation(s, i.nowNs, i.submitNs, Seeds(cfg, n)), Continues)
  }

  /** `handleUpPreparation` while the preparation is active. */
  function Prepare(cfg: Config, s: State, i: Inputs): (State, Outcome)
    requires cfg.Valid() && |s.actions| == |s.joints| == cfg.Dof() && s.preparation.Some?
  {
    var p := s.preparation.value;
    if |cfg.firstFrame| != cfg.Dof() || |p.startAngles| != cfg.Dof() then (Fault(s.(preparation := None)), Faults)
    else if !p.gainsApplied then
      (s.(joints := HoldCommands(cfg, p.startAngles),
          preparation := Some(p.(gainsApplied := true, startNs := i.nowNs))), Continues)
    else
      var x := Progress(p.startNs, cfg.transitionDurationNs, i.nowNs);
      var t := s.(joints := TransitionCommands(cfg, p.startAngles, x));
      if x < 1.0 then (t, Continues) else PreparationOver(cfg, t, i)
  }

  /** `handleUpMode`. */
  function UpCycle(cfg: Config, before: State, i: Inputs): (State, Outcome)
    requires cfg.Valid() && |before.actions| == |before.joints| == cfg.Dof()
  {
    var s := EnterMode(cfg, before, i);
    if s.preparation.Some? then Prepare(cfg, s, i) else MotionCycle(cfg, s, i)
  }

  // ---------------------------------------------------------------------------
  // The handlers without a policy, and the dispatch
  // ---------------------------------------------------------------------------

  /** `AcController::handleDefaultMode`. */
  function DefaultCycle(s: State): State {
    s.(session := Leave(s.session), joints := DefaultCommands(|s.joints|))
  }

  /** `handleLieMode` and `handleStandMode`, whose interpolation gives `posture`. */
  function PostureCycle(s: State, posture: seq<JointCommand>): State {
    s.(session := Leave(s.session), joints := posture)
  }

  /** `starting`: the marks of a completed motion stay. */
  function Started(s: State): State {
    s.(session := Start(s.session), mode := Default, blend := None, preparation := None, fade := None,
       actions := Zeros(|s.actions|))
  }

  /** `stopping`. */
  function StoppedRunning(s: State): State {
    s.(session := PolicySession.Stop(s.session))
  }

  datatype Policies = Policies(walk: Config, dance: Config, down: Config, up: Config)
  {
    ghost predicate Valid() {
      && walk.Valid() && dance.Valid() && down.Valid() && up.Valid()
      && walk.kind == WALK && dance.kind == DANCE && down.kind == DOWN && up.kind == UP
      && walk.Dof() == dance.Dof() == down.Dof() == up.Dof()
    }

    function Dof(): nat { walk.Dof() }
  }

  /** `dispatchControlMode`. */
  function Dispatched(p: Policies, s: State, i: Inputs, posture: seq<JointCommand>): (State, Outcome)
    requires p.Valid() && |s.actions| == |s.joints| == p.Dof()
  {
    match s.mode
    case Default => (DefaultCycle(s), Continues)
    case Lie => (PostureCycle(s, posture), Continues)
    case Stand => (PostureCycle(s, posture), Continues)
    case Walk => WalkCycle(p.walk, s, i)
    case Dance => MotionCycle(p.dance, s, i)
    case Down => DownCycle(p.down, s, i)
    case Up => UpCycle(p.up, s, i)
  }
}

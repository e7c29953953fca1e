/**
 What surrounds an episode: UP's preparation before it, DOWN's fade after it, and the
 handlers that run no policy; and the contract all of them keep towards the cycle.
 */
module PolicyTransitions {
  import opened Common
  import opened PolicySession
  import opened PolicyPlaybackClock
  import opened ControlStateMachine
  import opened RLControllerBase
  import opened PolicyHandlers
  import opened PolicyHandlersSafety

  // ---------------------------------------------------------------------------
  // UP's preparation
  // ---------------------------------------------------------------------------

  /** UP is active, takes the robot to its first frame, and has run no policy yet. */
  ghost predicate Preparing(cfg: Config, s: State, horizon: int) {
    && cfg.kind == UP && Sized(cfg, s) && s.preparation.Some?
    && s.session.activePolicy == UP && 0 < s.session.policyEntryNs <= horizon
    && s.session.lastAppliedSequence == 0 && s.session.lastAppliedObservationNs == 0
    && s.stamps == map[] && !s.playback.endPending
  }

  /** From its entry on, every call of UP either still prepares, or is the one that
      finishes and leaves the robot where an episode may start, or faults. */
  lemma PreparationLeadsToAnEpisode(cfg: Config, s: State, i: Inputs, horizon: int)
    requires cfg.Valid() && cfg.kind == UP && Sized(cfg, s) && Timed(i) && horizon <= i.entryNs
    requires s.session.activePolicy != UP || Preparing(cfg, s, horizon)
    ensures var (t, outcome) := UpCycle(cfg, s, i);
      && (outcome == Continues ==> Preparing(cfg, t, i.endNs) || Fresh(cfg, t, i.endNs))
      && (outcome == Continues || outcome == Faults)
  {
    var e := EnterMode(cfg, s, i);
    assert Preparing(cfg, e, i.entryNs);
    PrepareStep(cfg, e, i);
  }

  lemma PrepareStep(cfg: Config, s: State, i: Inputs)
    requires cfg.Valid() && Timed(i) && Preparing(cfg, s, i.entryNs)
    ensures var (t, outcome) := Prepare(cfg, s, i);
      && (outcome == Continues ==> Preparing(cfg, t, i.endNs) || Fresh(cfg, t, i.endNs))
      && (outcome == Continues || outcome == Faults)
  {
  }

  /** The call that applies the gains commands exactly the measured pose, the call that
      finishes commands exactly the first frame, and what the first policy call blends
      from commands the first frame again: no joint is asked to jump. */
  lemma HandOverIsContinuous(cfg: Config, s: State, i: Inputs, k: nat)
    requires cfg.Valid() && Sized(cfg, s) && s.preparation.Some? && k < cfg.Dof()
    requires Prepare(cfg, s, i).1 == Continues
    ensures var (t, p) := (Prepare(cfg, s, i).0, s.preparation.value);
      && |t.joints| == |p.startAngles| == |cfg.firstFrame| == cfg.Dof()
      && (!p.gainsApplied ==> t.joints[k] == PositionCommand(cfg, k, p.startAngles[k]))
      && (t.preparation.None? ==>
            && t.joints[k] == PositionCommand(cfg, k, cfg.firstFrame[k])
            && t.blend.Some? && |t.blend.value.startActions| == cfg.Dof()
            && Weight(cfg, Some(Blend(i.nowNs, t.blend.value.startActions)), i.nowNs)
                 == (if cfg.blendDurationNs <= 0 then 1.0 else 0.0)
            && PolicyCommand(cfg, k, t.blend.value.startActions[k]) == t.joints[k])
  {
    var p := s.preparation.value;
    if p.gainsApplied {
      var x := Progress(p.startNs, cfg.transitionDurationNs, i.nowNs);
      if x >= 1.0 {
        assert TransitionAt(cfg, p.startAngles, x, k) == cfg.firstFrame[k];
        SeedCommandsFirstFrame(cfg, k);
        ProgressStartsAtZero(i.nowNs, cfg.blendDurationNs);
      }
    }
  }

  lemma SeedCommandsFirstFrame(cfg: Config, k: nat)
    requires cfg.Valid() && |cfg.firstFrame| == cfg.Dof() && k < cfg.Dof() && cfg.scale[k] != 0.0
    ensures PolicyCommand(cfg, k, Seed(cfg, k)) == PositionCommand(cfg, k, cfg.firstFrame[k])
  {
    QuotientTimesDivisor(cfg.firstFrame[k] - cfg.offset[k], cfg.scale[k]);
    var c, d := PolicyCommand(cfg, k, Seed(cfg, k)), PositionCommand(cfg, k, cfg.firstFrame[k]);
    assert c.position.value == d.position.value;
    assert c.position == d.position;
  }

  lemma QuotientTimesDivisor(x: real, d: real)
    requires d != 0.0
    ensures x / d * d == x
  {
  }

  lemma ProgressStartsAtZero(startNs: int, durationNs: int)
    ensures Smooth(Progress(startNs, durationNs, startNs)) == if durationNs <= 0 then 1.0 else 0.0
  {
    if durationNs > 0 {
      assert Fraction(0, durationNs) == 0.0;
    }
  }

  // ---------------------------------------------------------------------------
  // DOWN's fade
  // ---------------------------------------------------------------------------

  predicate AllValues(c: JointCommand) {
    c.position.Finite? && c.velocity.Finite? && c.kp.Finite? && c.kd.Finite? && c.feedforward.Finite?
  }

  /** The damping of joint `k` has the stiffness, velocity and torque of `c` at most, and
      a damping between that of `c` and the hold's. */
  predicate Fading(c: JointCommand, d: JointCommand) {
    && AllValues(c) && AllValues(d) && d.position == c.position
    && Abs(d.kp.value) <= Abs(c.kp.value) && Abs(d.velocity.value) <= Abs(c.velocity.value)
    && Abs(d.feedforward.value) <= Abs(c.feedforward.value)
    && Lesser(c.kd.value, COMPLETION_DAMPING) <= d.kd.value <= Larger(c.kd.value, COMPLETION_DAMPING)
  }

  function Lesser(x: real, y: real): real {
    if x < y then x else y
  }

  lemma ShareIsSmaller(x: real, w: real)
    requires 0.0 <= w <= 1.0
    ensures Abs(x * (1.0 - w)) <= Abs(x)
  {
    MixIsBounded(x, 0.0, w, Abs(x));
  }

  lemma MixIsBetween(a: real, b: real, w: real)
    requires 0.0 <= w <= 1.0
    ensures Lesser(a, b) <= a * (1.0 - w) + b * w <= Larger(a, b)
  {
    ProductIsNotNegative(Larger(a, b) - a, 1.0 - w);
    ProductIsNotNegative(Larger(a, b) - b, w);
    ProductIsNotNegative(a - Lesser(a, b), 1.0 - w);
    ProductIsNotNegative(b - Lesser(a, b), w);
    DifferenceScales(Larger(a, b), a, 1.0 - w);
    DifferenceScales(Larger(a, b), b, w);
    DifferenceScales(a, Lesser(a, b), 1.0 - w);
    DifferenceScales(b, Lesser(a, b), w);
    assert Larger(a, b) * (1.0 - w) + Larger(a, b) * w == Larger(a, b);
    assert Lesser(a, b) * (1.0 - w) + Lesser(a, b) * w == Lesser(a, b);
  }

  lemma ScaledShrinks(x: Float, w: real)
    requires x.Finite? && 0.0 <= w <= 1.0
    ensures Scaled(x, 1.0 - w).Finite? && Abs(Scaled(x, 1.0 - w).value) <= Abs(x.value)
  {
    ShareIsSmaller(x.value, w);
    var y := 1.0 - w;
    assert Scaled(x, y).value == x.value * y;
  }

  lemma DampingIsBetween(x: Float, w: real)
    requires x.Finite? && 0.0 <= w <= 1.0
    ensures var d := Plus(Scaled(x, 1.0 - w), COMPLETION_DAMPING * w);
      d.Finite? && Lesser(x.value, COMPLETION_DAMPING) <= d.value <= Larger(x.value, COMPLETION_DAMPING)
  {
    MixIsBetween(x.value, COMPLETION_DAMPING, w);
  }

  lemma FadeIsBetween(c: JointCommand, w: real)
    requires AllValues(c) && 0.0 <= w <= 1.0
    ensures Fading(c, FadeCommand(c, w))
  {
    ScaledShrinks(c.kp, w);
    ScaledShrinks(c.velocity, w);
    ScaledShrinks(c.feedforward, w);
    DampingIsBetween(c.kd, w);
  }

  lemma FadeEnds(c: JointCommand)
    requires AllValues(c)
    ensures FadeCommand(c, 0.0) == c
    ensures FadeCommand(c, 1.0) == JointCommand(c.position, ZERO, ZERO, Finite(COMPLETION_DAMPING), ZERO)
  {
  }

  lemma SmoothEnds()
    ensures Smooth(0.0) == 0.0 && Smooth(1.0) == 1.0
  {
  }

  /** At any progress the fade only takes authority away; at its beginning the command
      is the last one, at its end it is pure damping. */
  lemma FadeOnlyTakesAuthority(c: JointCommand, x: real)
    requires AllValues(c) && 0.0 <= x <= 1.0
    ensures Fading(c, FadeCommand(c, Smooth(x)))
    ensures FadeCommand(c, Smooth(0.0)) == c
    ensures FadeCommand(c, Smooth(1.0)) == JointCommand(c.position, ZERO, ZERO, Finite(COMPLETION_DAMPING), ZERO)
  {
    SmoothIsWeight(x);
    FadeIsBetween(c, Smooth(x));
    SmoothEnds();
    FadeEnds(c);
  }

  /** DOWN's completion fades from the very commands it found, and every later holding
      call goes on from the same ones until the fade is over. */
  lemma CompletionFadesTheLastCommand(cfg: Config, s: State, i: Inputs, k: nat)
    requires cfg.kind == DOWN && Timed(i) && k < |s.joints| <= MAX_TRANSITION_DOF && AllValues(s.joints[k])
    ensures var t := Complete(cfg, s, i);
      && |t.joints| == |s.joints| && Fading(s.joints[k], t.joints[k])
      && (t.fade.Some? ==> t.fade.value.commands == s.joints)
  {
    var x := Progress(i.timeoutNs, cfg.fadeDurationNs, i.endNs);
    FadeOnlyTakesAuthority(s.joints[k], x);
  }

  lemma HoldingFadesOn(cfg: Config, s: State, nowNs: int, k: nat)
    requires s.fade.Some? && |s.fade.value.commands| == |s.joints| <= MAX_TRANSITION_DOF && k < |s.joints|
    requires AllValues(s.fade.value.commands[k])
    ensures var t := DampingStep(cfg, s, nowNs);
      && |t.joints| == |s.joints| && Fading(s.fade.value.commands[k], t.joints[k])
      && (if Progress(s.fade.value.startNs, cfg.fadeDurationNs, nowNs) < 1.0 then t.fade == s.fade else t.fade.None?)
  {
    FadeOnlyTakesAuthority(s.fade.value.commands[k], Progress(s.fade.value.startNs, cfg.fadeDurationNs, nowNs));
  }

  // ---------------------------------------------------------------------------
  // The dispatched handler
  // ---------------------------------------------------------------------------

  function ConfigOf(p: Policies, kind: PolicyKind): Config
    requires kind != NONE
  {
    match kind
    case WALK => p.walk
    case DANCE => p.dance
    case DOWN => p.down
    case UP => p.up
  }

  predicate Holding(s: State) {
    s.mode == Down && s.damping && s.session.activePolicy == NONE
  }

  /** What the mode dispatches to is the call the episode theorems are about, in every
      state of an episode; a DOWN that only holds is not in one. */
  lemma DispatchRunsEpisodes(p: Policies, kind: PolicyKind, s: State, i: Inputs, posture: seq<JointCommand>, horizon: int)
    requires p.Valid() && kind != NONE && s.mode == ModeOf(kind) && !Holding(s)
    requires Fresh(ConfigOf(p, kind), s, horizon) || During(ConfigOf(p, kind), s, horizon)
    ensures ConfigOf(p, kind).Valid() && Sized(ConfigOf(p, kind), s)
    ensures Dispatched(p, s, i, posture) == PolicyCycle(ConfigOf(p, kind), s, i)
  {
  }

  /** How a dispatched handler ends: with the policy of its mode active, with none, or
      holding. */
  ghost predicate DispatchEnds(s: State, t: State, outcome: Outcome) {
    && |t.joints| == |s.joints| && |t.actions| == |s.actions|
    && t.session.epoch >= s.session.epoch
    && (t.session.activePolicy != s.session.activePolicy ==> t.session.epoch > s.session.epoch)
    && match outcome
       case Continues =>
         && t.mode == s.mode
         && t.session.activePolicy == (if s.mode == Walk then WALK else if s.mode == Dance then DANCE
                                       else if s.mode == Down then DOWN else if s.mode == Up then UP else NONE)
         && (s.mode == Default ==> t.joints == DefaultCommands(|s.joints|))
         && t.damping == (s.damping && (s.mode == Down ==> s.session.activePolicy == DOWN))
       case Completes =>
         && t.session.activePolicy == NONE && t.session.epoch > s.session.epoch
         && (s.mode == Dance || s.mode == Down || s.mode == Up)
         && (if s.mode == Down then t.mode == Down && t.damping else t.mode == Walk && t.damping == s.damping)
       case Faults =>
         && t.session.activePolicy == NONE && t.session.epoch > s.session.epoch && t.mode == Default
         && Locomotion(s.mode) && t.joints == DefaultCommands(|s.joints|)
         && t.damping == (s.damping && (s.mode == Down ==> s.session.activePolicy == DOWN))
       case Holds => Holding(s) && t.mode == Down && t.damping && t.session == s.session
  }

  /** What the epoch and DOWN's mark may do on the way from `s` to `t`, up to the end of
      a call. */
  ghost predicate Marks(cfg: Config, s: State, t: State) {
    && t.session.epoch >= s.session.epoch
    && (t.session.activePolicy != s.session.activePolicy ==> t.session.epoch > s.session.epoch)
    && t.damping == (s.damping && (cfg.kind == DOWN ==> s.session.activePolicy == DOWN))
  }

  lemma ActMarks(cfg: Config, s: State, u: State, i: Inputs)
    requires cfg.Valid() && Sized(cfg, u) && Marks(cfg, s, u) && u.session.activePolicy == cfg.kind
    ensures Marks(cfg, s, Act(cfg, u, i).0)
  {
  }

  lemma ActingMarks(cfg: Config, s: State, i: Inputs)
    requires cfg.Valid() && Sized(cfg, s)
    ensures var e := EnterMode(cfg, s, i);
      && Marks(cfg, s, e) && Marks(cfg, s, Ticked(cfg, e, i).1) && Marks(cfg, s, Acting(cfg, s, i))
      && e.session.activePolicy == Ticked(cfg, e, i).1.session.activePolicy == cfg.kind
      && Acting(cfg, s, i).session.activePolicy == cfg.kind
  {
    var (fires, u) := Ticked(cfg, EnterMode(cfg, s, i), i);
    AnsweringFrame(cfg, fires, u, i);
  }

  /** What a call does to the epoch and to DOWN's mark, which only a completion sets. */
  lemma CallMarks(cfg: Config, s: State, i: Inputs)
    requires cfg.Valid() && Sized(cfg, s)
    ensures var (t, outcome) := PolicyCycle(cfg, s, i); outcome != Completes ==> Marks(cfg, s, t)
  {
    ActingMarks(cfg, s, i);
    ActingIsSized(cfg, s, i);
    ActMarks(cfg, s, Acting(cfg, s, i), i);
    var e := EnterMode(cfg, s, i);
    var (fires, u) := Ticked(cfg, e, i);
    if (cfg.kind == WALK || !CompletionDue(e, i.nowNs)) && !(fires && !i.observationOk) {
      assert PolicyCycle(cfg, s, i) == Act(cfg, Acting(cfg, s, i), i);
    }
  }

  lemma CompletionMarks(cfg: Config, s: State, i: Inputs)
    requires cfg.Valid() && Sized(cfg, s) && PolicyCycle(cfg, s, i).1 == Completes
    ensures var t := PolicyCycle(cfg, s, i).0;
      t.session.epoch > s.session.epoch && (cfg.kind != DOWN ==> t.damping == s.damping)
  {
    CompletesOnlyWhenDue(cfg, s, i);
    ActingMarks(cfg, s, i);
    assert PolicyCycle(cfg, s, i).0 == Complete(cfg, EnterMode(cfg, s, i), i);
  }

  lemma PolicyCallEnds(cfg: Config, s: State, i: Inputs)
    requires cfg.Valid() && Sized(cfg, s) && s.mode == ModeOf(cfg.kind)
    ensures DispatchEnds(s, PolicyCycle(cfg, s, i).0, PolicyCycle(cfg, s, i).1)
  {
    LeavingAbandonsTheEpoch(cfg, s, i);
    CycleSizes(cfg, s, i);
    CallMarks(cfg, s, i);
    if PolicyCycle(cfg, s, i).1 == Completes {
      CompletionMarks(cfg, s, i);
      CompletesOnlyWhenDue(cfg, s, i);
    }
  }

  lemma PrepareEnds(cfg: Config, s: State, i: Inputs)
    requires cfg.Valid() && Sized(cfg, s) && s.preparation.Some? && s.mode == Up && s.session.activePolicy == UP
    ensures DispatchEnds(s, Prepare(cfg, s, i).0, Prepare(cfg, s, i).1)
  {
  }

  lemma UpCallEnds(cfg: Config, s: State, i: Inputs)
    requires cfg.Valid() && cfg.kind == UP && Sized(cfg, s) && s.mode == Up
    ensures DispatchEnds(s, UpCycle(cfg, s, i).0, UpCycle(cfg, s, i).1)
  {
    var e := EnterMode(cfg, s, i);
    if e.preparation.Some? {
      PrepareEnds(cfg, e, i);
    } else {
      PolicyCallEnds(cfg, e, i);
      assert MotionCycle(cfg, e, i) == PolicyCycle(cfg, e, i);
    }
  }

  /** Every dispatched handler ends in one of these ways. */
  lemma HandlersEnd(p: Policies, s: State, i: Inputs, posture: seq<JointCommand>)
    requires p.Valid() && Sized(p.walk, s) && |posture| == |s.joints|
    ensures var (t, outcome) := Dispatched(p, s, i, posture); DispatchEnds(s, t, outcome)
  {
    match s.mode
    case Walk => PolicyCallEnds(p.walk, s, i);
    case Dance => PolicyCallEnds(p.dance, s, i);
    case Down => if !Holding(s) { PolicyCallEnds(p.down, s, i); }
    case Up => UpCallEnds(p.up, s, i);
    case _ =>
  }

  /** And so keeps the contract `update` relies on: policy handlers, preparation, hold,
      and the handlers that run no policy. */
  lemma HandlersKeepTheContract(p: Policies, s: State, i: Inputs, posture: seq<JointCommand>, started: bool,
                                accepted: map<Request, int>)
    requires p.Valid() && Sized(p.walk, s) && |posture| == |s.joints|
    ensures var t := Dispatched(p, s, i, posture).0;
      && EffectAllowed(Local(Control(s.mode, started), s.joints, accepted), Effect(t.mode, t.joints))
      && (t.mode != s.mode ==>
            || (t.mode == Walk && s.mode in {Dance, Up})
            || (t.mode == Default && s.mode in {Walk, Dance, Down, Up}))
      && (t.mode == Default ==> forall k :: 0 <= k < |t.joints| ==> Limp(t.joints[k]))
  {
    HandlersEnd(p, s, i, posture);
  }
}

/**
 What surrounds an episode, in numbers: where an entry begins, the positions of UP's
 preparation, and the values of DOWN's fade.
 */
module TransitionValues {
  import opened Common
  import opened PolicySession
  import opened PolicyPlaybackClock
  import opened ControlStateMachine
  import opened RLControllerBase
  import opened PolicyHandlers
  import opened PolicyHandlersSafety
  import opened PolicyEpisodes
  import opened PolicyTransitions

  // ---------------------------------------------------------------------------
  // Entries
  // ---------------------------------------------------------------------------

  /** Entering another policy opens an epoch and begins anew: nothing applied, nothing
      submitted in it, its actions zero, its clock reset. UP is to be prepared from the
      measured pose, and DOWN forgets that it has completed before. */
  lemma EntriesBeginAnew(cfg: Config, s: State, i: Inputs)
    requires cfg.Valid() && Sized(cfg, s) && s.session.activePolicy != cfg.kind
    ensures var e := EnterMode(cfg, s, i);
      && e.session == Session(cfg.kind, s.session.epoch + 1, s.session.observationSequence, 0, i.entryNs, 0)
      && e.playback == Playback(Clock(i.resetNs, i.resetNs, -1), false, 0, 0) && e.stamps == map[]
      && |e.actions| == cfg.Dof() && (forall k :: 0 <= k < cfg.Dof() ==> e.actions[k] == Finite(0.0))
      && e.mode == s.mode && e.joints == s.joints && e.blend == s.blend
      && e.preparation == (if cfg.kind == UP then Some(Preparation(false, 0, i.measured)) else s.preparation)
      && (if cfg.kind == DOWN then e.fade.None? && !e.damping else e.fade == s.fade && e.damping == s.damping)
  {
  }

  /** Being in the policy already, a call enters nothing. */
  lemma ReentryChangesNothing(cfg: Config, s: State, i: Inputs)
    requires s.session.activePolicy == cfg.kind
    ensures EnterMode(cfg, s, i) == s
  {
  }

  // ---------------------------------------------------------------------------
  // UP's preparation
  // ---------------------------------------------------------------------------

  /** Joint `k` is `x` of the way from its start to the first frame. */
  predicate Between(cfg: Config, from: seq<real>, x: real, k: nat, c: JointCommand)
    requires cfg.Valid() && k < cfg.Dof() && |from| == |cfg.firstFrame| == cfg.Dof()
  {
    StandsAt(cfg, k, from[k] * (1.0 - x) + cfg.firstFrame[k] * x, c)
  }

  predicate Fits(cfg: Config, p: Preparation) {
    |cfg.firstFrame| == cfg.Dof() && |p.startAngles| == cfg.Dof()
  }

  /** A first frame or a pose of the wrong size ends UP in DEFAULT. */
  lemma MisfitsFault(cfg: Config, s: State, i: Inputs)
    requires cfg.Valid() && Sized(cfg, s) && s.preparation.Some? && !Fits(cfg, s.preparation.value)
    ensures var (t, outcome) := Prepare(cfg, s, i);
      && outcome == Faults && t.mode == Default && t.session.activePolicy == NONE && t.preparation.None?
      && |t.joints| == |s.joints| && forall k :: 0 <= k < |t.joints| ==> Limp(t.joints[k])
  {
  }

  /** The first call takes the gains of UP and holds the measured pose; the transition
      counts from then. */
  lemma PreparationBegins(cfg: Config, s: State, i: Inputs, k: nat)
    requires cfg.Valid() && Sized(cfg, s) && s.preparation.Some? && k < cfg.Dof()
    requires Fits(cfg, s.preparation.value) && !s.preparation.value.gainsApplied
    ensures var ((t, outcome), p) := (Prepare(cfg, s, i), s.preparation.value);
      && outcome == Continues && t == s.(joints := t.joints, preparation := t.preparation)
      && t.preparation == Some(Preparation(true, i.nowNs, p.startAngles))
      && |t.joints| == cfg.Dof() && StandsAt(cfg, k, p.startAngles[k], t.joints[k])
  {
  }

  /** Every later call moves the joints on by the share of the duration that has passed,
      and the one that finds all of it passed is the last. */
  lemma PreparationMoves(cfg: Config, s: State, i: Inputs, k: nat) returns (x: real)
    requires cfg.Valid() && Sized(cfg, s) && s.preparation.Some? && k < cfg.Dof()
    requires Fits(cfg, s.preparation.value) && s.preparation.value.gainsApplied
    ensures IsProgress(s.preparation.value.startNs, cfg.transitionDurationNs, i.nowNs, x)
    ensures var ((t, outcome), p) := (Prepare(cfg, s, i), s.preparation.value);
      && (outcome == Continues ==> |t.joints| == cfg.Dof() && Between(cfg, p.startAngles, x, k, t.joints[k]))
      && (x < 1.0 ==> outcome == Continues && t == s.(joints := t.joints))
      && (x == 1.0 ==> t.preparation.None?)
  {
    ProgressExactly(s.preparation.value.startNs, cfg.transitionDurationNs, i.nowNs);
    x := Progress(s.preparation.value.startNs, cfg.transitionDurationNs, i.nowNs);
    var t := Prepare(cfg, s, i).0;
    if Prepare(cfg, s, i).1 == Continues {
      assert t.joints == TransitionCommands(cfg, s.preparation.value.startAngles, x);
      assert t.joints[k] == PositionCommand(cfg, k, TransitionAt(cfg, s.preparation.value.startAngles, x, k));
    }
  }

  /** The last one hands over, with the actions that command the first frame and a clock
      and a timeout that begin now, unless a joint has no scale to command it with. */
  lemma PreparationEnds(cfg: Config, s: State, i: Inputs, k: nat)
    requires cfg.Valid() && Sized(cfg, s) && s.preparation.Some? && k < cfg.Dof()
    requires Fits(cfg, s.preparation.value) && s.preparation.value.gainsApplied
    requires Progress(s.preparation.value.startNs, cfg.transitionDurationNs, i.nowNs) == 1.0
    ensures var (t, outcome) := Prepare(cfg, s, i);
      && (outcome == Faults <==> exists n :: 0 <= n < cfg.Dof() && cfg.scale[n] == 0.0)
      && (outcome != Faults ==>
            && t.blend.Some? && t.blend.value.startNs == i.nowNs && |t.blend.value.startActions| == cfg.Dof()
            && |t.actions| == cfg.Dof() && t.actions[k] == Finite(t.blend.value.startActions[k])
            && t.blend.value.startActions[k] * cfg.scale[k] + cfg.offset[k] == cfg.firstFrame[k]
            && t.session == s.session.(policyEntryNs := i.nowNs, lastAppliedObservationNs := 0)
            && t.playback == Playback(Clock(i.submitNs, i.submitNs, -1), false, 0, 0))
  {
    var n := FirstUnscaled(cfg, 0);
    if n == cfg.Dof() { QuotientTimesDivisor(cfg.firstFrame[k] - cfg.offset[k], cfg.scale[k]); }
  }

  /** So a call that enters UP, if the sizes fit, holds the pose it measures. */
  lemma UpBeginsWhereItIs(cfg: Config, s: State, i: Inputs, k: nat)
    requires cfg.Valid() && Sized(cfg, s) && cfg.kind == UP && s.session.activePolicy != UP && k < cfg.Dof()
    requires |cfg.firstFrame| == |i.measured| == cfg.Dof()
    ensures var (t, outcome) := UpCycle(cfg, s, i);
      && outcome == Continues && |t.joints| == cfg.Dof() && StandsAt(cfg, k, i.measured[k], t.joints[k])
      && t.preparation == Some(Preparation(true, i.nowNs, i.measured))
  {
    EntriesBeginAnew(cfg, s, i);
    PreparationBegins(cfg, EnterMode(cfg, s, i), i, k);
  }

  // ---------------------------------------------------------------------------
  // UP's hand-over
  // ---------------------------------------------------------------------------

  lemma SmoothBelowOne(p: real)
    requires 0.0 <= p < 1.0
    ensures Smooth(p) < 1.0
  {
    var y := 1.0 - p;
    var z := 1.0 + 2.0 * p;
    ProductIsPositive(y, y);
    ProductIsPositive(y, z);
    ProductIsPositive(y, y * z);
    assert y * (y * z) == y * y * z;
    SmoothComplement(p);
  }

  lemma ProductIsPositive(x: real, y: real)
    requires x > 0.0 && y > 0.0
    ensures x * y > 0.0
  {
  }

  lemma WeightIsWholeExactly(cfg: Config, f: Blend, nowNs: int)
    ensures Weight(cfg, Some(f), nowNs) >= 1.0 <==>
      cfg.blendDurationNs <= 0 || nowNs - f.startNs >= cfg.blendDurationNs
  {
    ProgressExactly(f.startNs, cfg.blendDurationNs, nowNs);
    var p := Progress(f.startNs, cfg.blendDurationNs, nowNs);
    if p < 1.0 { SmoothBelowOne(p); } else { SmoothEnds(); }
  }

  /** The hand-over ends with the first call that finds its duration passed; the motion
      then starts anew from its first frame. */
  lemma HandOverEndsExactly(cfg: Config, s: State, i: Inputs)
    requires cfg.Valid() && Sized(cfg, s) && PolicyCycle(cfg, s, i).1 == Continues && HandOver(cfg, s, i).Some?
    ensures var (t, f) := (PolicyCycle(cfg, s, i).0, HandOver(cfg, s, i).value);
      if cfg.blendDurationNs <= 0 || i.nowNs - f.startNs >= cfg.blendDurationNs
      then t.blend.None? && t.playback == Playback(Clock(i.endNs, i.endNs, -1), false, 0, 0)
      else t.blend == Some(f)
  {
    CycleActs(cfg, s, i);
    var (fires, u) := Ticked(cfg, EnterMode(cfg, s, i), i);
    AnsweringFrame(cfg, fires, u, i);
    WeightIsWholeExactly(cfg, HandOver(cfg, s, i).value, i.nowNs);
    ActEndsHandOver(cfg, Acting(cfg, s, i), i);
  }

  lemma ActEndsHandOver(cfg: Config, u: State, i: Inputs)
    requires cfg.Valid() && Sized(cfg, u) && Frozen(cfg, u).Some? && Act(cfg, u, i).1 == Continues
    ensures var t := Act(cfg, u, i).0;
      if Weight(cfg, Frozen(cfg, u), i.nowNs) >= 1.0
      then t.blend.None? && t.playback == Playback(Clock(i.endNs, i.endNs, -1), false, 0, 0)
      else t.blend == u.blend
  {
  }

  // ---------------------------------------------------------------------------
  // DOWN's fade
  // ---------------------------------------------------------------------------

  predicate IsScaled(x: Float, w: real, y: Float) {
    if x.Finite? then y == Finite(x.value * w) else y == NonFinite
  }

  /** The position is kept, everything else is withdrawn by `w`, and damping comes in. */
  predicate Faded(c: JointCommand, w: real, d: JointCommand) {
    && d.position == c.position && IsScaled(c.velocity, 1.0 - w, d.velocity)
    && IsScaled(c.kp, 1.0 - w, d.kp) && IsScaled(c.feedforward, 1.0 - w, d.feedforward)
    && (if c.kd.Finite? then d.kd == Finite(c.kd.value * (1.0 - w) + 0.1 * w) else d.kd == NonFinite)
  }

  ghost predicate FadedAt(c: JointCommand, startNs: int, durationNs: int, nowNs: int, d: JointCommand) {
    exists p :: IsProgress(startNs, durationNs, nowNs, p) && Faded(c, p * p * (3.0 - 2.0 * p), d)
  }

  lemma FadesExactly(c: JointCommand, startNs: int, durationNs: int, nowNs: int)
    ensures FadedAt(c, startNs, durationNs, nowNs, FadeCommand(c, Smooth(Progress(startNs, durationNs, nowNs))))
  {
    ProgressExactly(startNs, durationNs, nowNs);
    var p := Progress(startNs, durationNs, nowNs);
    FadeIsFaded(c, p * p * (3.0 - 2.0 * p));
  }

  lemma FadeIsFaded(c: JointCommand, w: real)
    ensures Faded(c, w, FadeCommand(c, w))
  {
    DampingAdds(c.kd, w);
  }

  lemma DampingAdds(x: Float, w: real)
    ensures x.Finite? ==> Plus(Scaled(x, 1.0 - w), COMPLETION_DAMPING * w) == Finite(x.value * (1.0 - w) + 0.1 * w)
  {
  }

  /** A holding call writes the fade of the remembered commands, at most twenty-four of
      them, as far as the time since its beginning has taken it, and forgets them with
      the last; without a fade it lets every joint go limp. */
  lemma HoldingExactly(cfg: Config, s: State, nowNs: int, k: nat)
    requires k < |s.joints|
    ensures var t := DampingStep(cfg, s, nowNs);
      && |t.joints| == |s.joints| && t == s.(joints := t.joints, fade := t.fade)
      && if |s.joints| <= 24 && s.fade.Some? && |s.fade.value.commands| == |s.joints|
         then && FadedAt(s.fade.value.commands[k], s.fade.value.startNs, cfg.fadeDurationNs, nowNs, t.joints[k])
              && t.fade == if cfg.fadeDurationNs <= 0 || nowNs - s.fade.value.startNs >= cfg.fadeDurationNs
                           then None else s.fade
         else Limp(t.joints[k]) && (|s.joints| > 24 ==> t.fade.None?)
  {
    if s.fade.Some? && |s.fade.value.commands| == |s.joints| {
      FadesExactly(s.fade.value.commands[k], s.fade.value.startNs, cfg.fadeDurationNs, nowNs);
      ProgressExactly(s.fade.value.startNs, cfg.fadeDurationNs, nowNs);
    }
  }

  /** The call that completes DOWN stays in it without a policy, marks it, and begins the
      fade from the commands in force; that of another motion goes to WALK and leaves
      them. */
  lemma CompletionExactly(cfg: Config, s: State, i: Inputs, k: nat)
    requires Timed(i) && k < |s.joints| && s.session.activePolicy != NONE
    ensures var t := Complete(cfg, s, i);
      && t.session == s.session.(activePolicy := NONE, epoch := s.session.epoch + 1, lastAppliedSequence := 0,
                                 policyEntryNs := 0, lastAppliedObservationNs := 0)
      && |t.joints| == |s.joints| && t.actions == s.actions && t.playback == s.playback
      && if cfg.kind != DOWN then t.mode == Walk && t.joints == s.joints && t.damping == s.damping && t.fade == s.fade
         else && t.mode == s.mode && t.damping
              && (if |s.joints| > 24 then Limp(t.joints[k]) && t.fade.None?
                  else FadedAt(s.joints[k], i.timeoutNs, cfg.fadeDurationNs, i.endNs, t.joints[k])
                       && (t.fade.Some? ==> t.fade.value == Fade(i.timeoutNs, s.joints)))
  {
    if cfg.kind == DOWN {
      var u := BeginFade(s.(session := Leave(s.session), damping := true), i.timeoutNs);
      HoldingExactly(cfg, u, i.endNs, k);
    }
  }

  // ---------------------------------------------------------------------------
  // Modes without a policy, and restarts
  // ---------------------------------------------------------------------------

  /** DEFAULT lets every joint go limp, LIE and STAND command their posture; each leaves
      the policy, and nothing else of it changes. */
  lemma ModesWithoutAPolicy(p: Policies, s: State, i: Inputs, posture: seq<JointCommand>)
    requires p.Valid() && Sized(p.walk, s) && s.mode in {Default, Lie, Stand}
    ensures var (t, outcome) := Dispatched(p, s, i, posture);
      && outcome == Continues && t == s.(session := t.session, joints := t.joints)
      && t.session == (if s.session.activePolicy == NONE then s.session
                       else Session(NONE, s.session.epoch + 1, s.session.observationSequence, 0, 0, 0))
      && if s.mode == Default then |t.joints| == |s.joints| && forall k :: 0 <= k < |t.joints| ==> Limp(t.joints[k])
         else t.joints == posture
  {
  }

  /** A restart opens two epochs, forgets all that was under way, and keeps the joints'
      commands and DOWN's mark. */
  lemma RestartsExactly(s: State)
    ensures var t := Started(StoppedRunning(s));
      && t.session == Session(NONE, s.session.epoch + 2, 0, 0, 0, 0) && t.mode == Default
      && t.blend.None? && t.preparation.None? && t.fade.None?
      && |t.actions| == |s.actions| && (forall k :: 0 <= k < |t.actions| ==> t.actions[k] == Finite(0.0))
      && t.joints == s.joints && t.damping == s.damping && t.playback == s.playback
  {
  }

  // ---------------------------------------------------------------------------
  // What one call does with its packet
  // ---------------------------------------------------------------------------

  /** The packet passes every test at the time it is consumed, in the session at hand. */
  predicate PassesTests(cfg: Config, c: Session, r: ActionPacket, consumedNs: int) {
    && r.valid && r.epoch == c.epoch && r.policy == cfg.kind && r.sourceSequence > c.lastAppliedSequence
    && (cfg.timeoutMs > 0 ==> consumedNs - r.observationTimestampNs <= cfg.timeoutMs * 1000000)
    && r.size == cfg.Dof() && r.size <= |r.actions|
  }

  /** A packet that is looked at is applied if and only if it passes them, whole and with
      its number and time; nothing else is. */
  lemma PacketsAreAppliedExactly(cfg: Config, s: State, i: Inputs)
    requires cfg.Valid() && Sized(cfg, s)
    ensures var u := Applied(cfg, s, i);
      if i.packet.Some? && PassesTests(cfg, s.session, i.packet.value, i.consumedNs)
      then u == s.(actions := i.packet.value.actions[..cfg.Dof()],
                   session := s.session.(lastAppliedSequence := i.packet.value.sourceSequence,
                                         lastAppliedObservationNs := i.packet.value.observationTimestampNs))
      else u == s
  {
  }
}

/**
 What an episode amounts to in numbers: which position each joint is commanded to, for
 which answer, and how long a motion lasts.
 */
module PolicyEpisodes {
  import opened Common
  import opened PolicySession
  import opened PolicyPlaybackClock
  import opened ControlStateMachine
  import opened RLControllerBase
  import opened PolicyHandlers
  import opened PolicyHandlersSafety

  // ---------------------------------------------------------------------------
  // The commanded positions
  // ---------------------------------------------------------------------------

  /** `x` is `a` if it lies within the clip bound, and otherwise the nearer bound. */
  predicate Clipped(a: real, clip: real, x: real) {
    if a > clip then x == clip else if a < -clip then x == -clip else x == a
  }

  /** `p` is the share of the duration that has passed: none before it begins, all of it
      at its end or if there is no duration, and in between in proportion. */
  predicate IsProgress(startNs: int, durationNs: int, nowNs: int, p: real) {
    if durationNs <= 0 || nowNs - startNs >= durationNs then p == 1.0
    else if nowNs <= startNs then p == 0.0
    else 0.0 < p < 1.0 && p * durationNs as real == (nowNs - startNs) as real
  }

  lemma ProgressExactly(startNs: int, durationNs: int, nowNs: int)
    ensures IsProgress(startNs, durationNs, nowNs, Progress(startNs, durationNs, nowNs))
  {
    var elapsed := nowNs - startNs;
    if 0 <= elapsed < durationNs { FractionExactly(elapsed, durationNs); }
    if durationNs > 0 && nowNs < startNs { FractionExactly(0, durationNs); }
  }

  lemma FractionExactly(a: int, b: int)
    requires 0 <= a < b
    ensures Fraction(a, b) * b as real == a as real
    ensures a > 0 ==> 0.0 < Fraction(a, b) < 1.0
    ensures a == 0 ==> Fraction(a, b) == 0.0
  {
    var x, d := a as real, b as real;
    QuotientTimes(x, d);
    if a > 0 && x / d >= 1.0 { ProductAtLeast(x / d, d); }
    if a > 0 && x / d <= 0.0 { ProductAtMost(x / d, d); }
  }

  lemma QuotientTimes(x: real, d: real)
    requires d > 0.0
    ensures x / d * d == x
  {
  }

  lemma ProductAtLeast(q: real, d: real)
    requires q >= 1.0 && d > 0.0
    ensures q * d >= d
  {
  }

  lemma ProductAtMost(q: real, d: real)
    requires q <= 0.0 && d > 0.0
    ensures q * d <= 0.0
  {
  }

  /** The weight of the network in UP's hand-over, smooth at both ends. */
  ghost predicate IsWeight(cfg: Config, f: Blend, nowNs: int, w: real) {
    exists p :: IsProgress(f.startNs, cfg.blendDurationNs, nowNs, p) && w == p * p * (3.0 - 2.0 * p)
  }

  /** At rest, without torque, with the policy's gains, at this position. */
  predicate StandsAt(cfg: Config, n: nat, position: real, c: JointCommand)
    requires cfg.Valid() && n < cfg.Dof()
  {
    && c.position == Finite(position) && c.velocity == Finite(0.0) && c.feedforward == Finite(0.0)
    && c.kp == Finite(cfg.stiffness[n]) && c.kd == Finite(cfg.damping[n])
  }

  /** The action `x` moves joint `n` from its default angle by its scale; in a hand-over
      the action it begins with is mixed in with the weight that is left. */
  ghost predicate Moves(cfg: Config, f: Option<Blend>, nowNs: int, n: nat, x: real, c: JointCommand)
    requires cfg.Valid() && n < cfg.Dof()
  {
    if f.None? || n >= |f.value.startActions| then StandsAt(cfg, n, x * cfg.scale[n] + cfg.offset[n], c)
    else exists w :: IsWeight(cfg, f.value, nowNs, w)
           && StandsAt(cfg, n, (f.value.startActions[n] * (1.0 - w) + x * w) * cfg.scale[n] + cfg.offset[n], c)
  }

  lemma WeightExactly(cfg: Config, f: Blend, nowNs: int)
    ensures IsWeight(cfg, f, nowNs, Weight(cfg, Some(f), nowNs))
  {
    ProgressExactly(f.startNs, cfg.blendDurationNs, nowNs);
    var p := Progress(f.startNs, cfg.blendDurationNs, nowNs);
    assert Weight(cfg, Some(f), nowNs) == p * p * (3.0 - 2.0 * p);
  }

  lemma CommandMoves(cfg: Config, f: Option<Blend>, nowNs: int, n: nat, x: real)
    requires cfg.Valid() && n < cfg.Dof()
    ensures Moves(cfg, f, nowNs, n, x, PolicyCommand(cfg, n, Blended(f, Weight(cfg, f, nowNs), n, x)))
  {
    var w := Weight(cfg, f, nowNs);
    var c := PolicyCommand(cfg, n, Blended(f, w, n, x));
    if f.Some? && n < |f.value.startActions| {
      WeightExactly(cfg, f.value, nowNs);
      assert StandsAt(cfg, n, (f.value.startActions[n] * (1.0 - w) + x * w) * cfg.scale[n] + cfg.offset[n], c);
    } else {
      assert StandsAt(cfg, n, x * cfg.scale[n] + cfg.offset[n], c);
    }
  }

  lemma ClampClips(a: real, clip: real)
    requires clip >= 0.0
    ensures Clipped(a, clip, Clamp(a, clip))
  {
  }

  /** What a call commands with if nothing has been applied in the episode. */
  lemma {:induction false} UntouchedActions(cfg: Config, start: int, ss: seq<State>, ii: seq<Inputs>, k: nat)
    requires Episode(cfg, start, ss, ii) && 0 < k <= |ii| && ss[k].session.lastAppliedSequence == 0
    ensures ss[k].actions == Clamped(EnterMode(cfg, ss[0], ii[0]).actions, cfg.clip)
  {
    UntouchedStep(cfg, start, ss, ii, k - 1);
    if k > 1 {
      EpisodeStep(cfg, start, ss, ii, k - 1);
      UntouchedActions(cfg, start, ss, ii, k - 1);
      EpisodeKeeps(cfg, start, ss, ii, k - 1);
      ClampedTwice(EnterMode(cfg, ss[0], ii[0]).actions, cfg.clip);
    }
  }

  lemma UntouchedStep(cfg: Config, start: int, ss: seq<State>, ii: seq<Inputs>, k: nat)
    requires Episode(cfg, start, ss, ii) && k < |ii| && ss[k + 1].session.lastAppliedSequence == 0
    ensures ss[k + 1].actions == Clamped(EnterMode(cfg, ss[k], ii[k]).actions, cfg.clip)
  {
    assert Joined(cfg, start, ss, ii, k);
    ContinuedActs(cfg, ss[k], ii[k], ss[k + 1], HorizonAt(start, ii, k));
    var (fires, u) := Ticked(cfg, EnterMode(cfg, ss[k], ii[k]), ii[k]);
    AnsweringApplies(cfg, fires, u, ii[k]);
    ActClamps(cfg, Acting(cfg, ss[k], ii[k]), ii[k]);
  }

  /** The vector a call commands with: the answer that was applied last, or, before any
      was, the actions the episode began with: zero after an entry, UP's seeds otherwise. */
  ghost predicate ComesFrom(cfg: Config, ss: seq<State>, ii: seq<Inputs>, k: nat, actions: seq<Float>)
    requires 0 < k <= |ii| && |ss| == |ii| + 1
  {
    if ss[k].session.lastAppliedSequence == 0
    then if ss[0].session.activePolicy == cfg.kind then actions == ss[0].actions
         else |actions| == cfg.Dof() && forall n :: 0 <= n < |actions| ==> actions[n] == Finite(0.0)
    else exists m :: 0 <= m < k && CommandedBy(cfg, ss, ii, k, m)
           && ii[m].packet.value.size <= |ii[m].packet.value.actions|
           && actions == ii[m].packet.value.actions[..ii[m].packet.value.size]
  }

  lemma ActionsComeFrom(cfg: Config, start: int, ss: seq<State>, ii: seq<Inputs>, k: nat) returns (actions: seq<Float>)
    requires Episode(cfg, start, ss, ii) && 0 < k <= |ii|
    ensures ComesFrom(cfg, ss, ii, k, actions) && ss[k].actions == Clamped(actions, cfg.clip)
  {
    if ss[k].session.lastAppliedSequence == 0 {
      UntouchedActions(cfg, start, ss, ii, k);
      actions := EnterMode(cfg, ss[0], ii[0]).actions;
    } else {
      var m := AnswerHasOrigin(cfg, start, ss, ii, k);
      actions := ii[m].packet.value.actions[..ii[m].packet.value.size];
    }
  }

  /** In every call that continues an episode, each joint stands where its action puts
      it: the component of the answer applied last, cut off at the clip bound, times the
      joint's scale, from its default angle. */
  lemma CommandsAreTheAnswer(cfg: Config, start: int, ss: seq<State>, ii: seq<Inputs>, k: nat, n: nat)
      returns (actions: seq<Float>, x: real)
    requires Episode(cfg, start, ss, ii) && 0 < k <= |ii| && n < cfg.Dof()
    ensures ComesFrom(cfg, ss, ii, k, actions) && |actions| == cfg.Dof() && actions[n].Finite?
    ensures Clipped(actions[n].value, cfg.clip, x)
    ensures |ss[k].joints| == cfg.Dof()
    ensures Moves(cfg, HandOver(cfg, ss[k - 1], ii[k - 1]), ii[k - 1].nowNs, n, x, ss[k].joints[n])
  {
    assert Joined(cfg, start, ss, ii, k - 1);
    ContinuingCommands(cfg, ss[k - 1], ii[k - 1]);
    actions := ActionsComeFrom(cfg, start, ss, ii, k);
    x := ActionOf(cfg, actions, ss[k].actions, n);
    var f := HandOver(cfg, ss[k - 1], ii[k - 1]);
    CommandMoves(cfg, f, ii[k - 1].nowNs, n, x);
    CommandOf(cfg, ss[k - 1], ii[k - 1], ss[k], n);
  }

  lemma ActionOf(cfg: Config, actions: seq<Float>, clamped: seq<Float>, n: nat) returns (x: real)
    requires cfg.clip >= 0.0 && clamped == Clamped(actions, cfg.clip) && n < |clamped| && AllFinite(clamped)
    ensures n < |actions| && actions[n].Finite? && Clipped(actions[n].value, cfg.clip, x) && clamped[n] == Finite(x)
  {
    assert clamped[n].Finite?;
    x := clamped[n].value;
    ClampClips(actions[n].value, cfg.clip);
  }

  lemma CommandOf(cfg: Config, s: State, i: Inputs, t: State, n: nat)
    requires cfg.Valid() && Commanded(cfg, s, i, t) && n < cfg.Dof()
    ensures |t.joints| == cfg.Dof() && t.actions[n].Finite?
    ensures var f := HandOver(cfg, s, i);
      t.joints[n] == PolicyCommand(cfg, n, Blended(f, Weight(cfg, f, i.nowNs), n, t.actions[n].value))
  {
  }

  // ---------------------------------------------------------------------------
  // The end of a motion
  // ---------------------------------------------------------------------------

  /** A poll of the clock fires: the whole periods since its reset are beyond the last
      one that did. */
  predicate Polled(c: Clock, periodNs: int, nowNs: int)
    requires periodNs > 0
  {
    nowNs >= c.startNs && (nowNs - c.startNs) / periodNs > c.last
  }

  /** The motion is over at this tick: it has but one frame, or the time since the reset
      has reached its last one. */
  predicate Over(cfg: Config, startNs: int, nowNs: int)
    requires cfg.periodNs > 0
  {
    || cfg.timestepCount <= 1
    || ((nowNs - startNs) / cfg.periodNs > 0
        && (nowNs - startNs) as real * cfg.motionFrequencyHz >= (cfg.timestepCount - 1) as real * 1000000000.0)
  }

  lemma Crosswise(elapsed: real, frames: real, frequency: real)
    requires frequency > 0.0
    ensures elapsed / 1000000000.0 >= frames / frequency <==> elapsed * frequency >= frames * 1000000000.0
  {
    var q := frames / frequency;
    assert q * frequency == frames;
    if elapsed >= q * 1000000000.0 {
      ScaleOrder(q * 1000000000.0, elapsed, frequency);
    } else {
      ScaleStrictly(elapsed, q * 1000000000.0, frequency);
    }
    assert q * 1000000000.0 * frequency == frames * 1000000000.0;
  }

  lemma ScaleOrder(x: real, y: real, d: real)
    requires x <= y && d > 0.0
    ensures x * d <= y * d
  {
  }

  lemma ScaleStrictly(x: real, y: real, d: real)
    requires x < y && d > 0.0
    ensures x * d < y * d
  {
  }

  lemma NotBefore(frames: real, frequency: real)
    requires frequency > 0.0 && frames > 0.0
    ensures frames / frequency > 0.0
  {
  }

  lemma MotionOverExactly(cfg: Config, c: Clock, nowNs: int)
    requires cfg.motionFrequencyHz > 0.0 && cfg.periodNs > 0 && nowNs >= c.startNs
    requires c.last == (nowNs - c.startNs) / cfg.periodNs
    ensures MotionOver(cfg, c, nowNs) <==> Over(cfg, c.startNs, nowNs)
  {
    if cfg.timestepCount > 1 {
      var elapsed, frames := (nowNs - c.startNs) as real, (cfg.timestepCount - 1) as real;
      NotBefore(frames, cfg.motionFrequencyHz);
      Crosswise(elapsed, frames, cfg.motionFrequencyHz);
    }
  }

  lemma EndsExactly(cfg: Config, s: State, i: Inputs)
    requires cfg.Valid() && cfg.kind != WALK && Timed(i) && Running(cfg, EnterMode(cfg, s, i).playback.clock)
    ensures var e := EnterMode(cfg, s, i);
      EndsMotion(cfg, s, i, s.session.observationSequence + 1) <==>
        && !e.playback.endPending && Frozen(cfg, e).None?
        && Polled(e.playback.clock, cfg.periodNs, i.nowNs) && Over(cfg, e.playback.clock.startNs, i.nowNs)
  {
    var e := EnterMode(cfg, s, i);
    var c := e.playback.clock;
    TakeRefinesRule(c, cfg.periodNs, i.nowNs);
    var (fires, t) := Ticked(cfg, e, i);
    if fires { MotionOverExactly(cfg, t.playback.clock, i.nowNs); }
  }

  lemma {:induction false} EndPendingIsHistory(cfg: Config, start: int, ss: seq<State>, ii: seq<Inputs>, k: nat)
    requires Episode(cfg, start, ss, ii) && 0 < k <= |ii|
    ensures ss[k].playback.endPending <==>
      exists j :: 0 <= j < k && EndsMotion(cfg, ss[j], ii[j], ss[j].session.observationSequence + 1)
  {
    if ss[k].playback.endPending {
      var j := EndHasOrigin(cfg, start, ss, ii, k);
      assert EndsMotion(cfg, ss[j], ii[j], ss[j].session.observationSequence + 1);
    }
    if j: nat :| j < k && EndsMotion(cfg, ss[j], ii[j], ss[j].session.observationSequence + 1) {
      EndIsAwaited(cfg, start, ss, ii, j, k);
    }
  }

  /** The clock call `k` polls: reset at this very call if it enters the policy. */
  function ClockAt(cfg: Config, ss: seq<State>, ii: seq<Inputs>, k: nat): Clock
    requires k < |ii| <= |ss|
  {
    if ss[k].session.activePolicy == cfg.kind then ss[k].playback.clock else Clock(ii[k].resetNs, ii[k].resetNs, -1)
  }

  lemma ClockRuns(cfg: Config, start: int, ss: seq<State>, ii: seq<Inputs>, k: nat)
    requires Episode(cfg, start, ss, ii) && k < |ii|
    ensures ClockAt(cfg, ss, ii, k) == EnterMode(cfg, ss[k], ii[k]).playback.clock
    ensures Timed(ii[k]) && Running(cfg, ClockAt(cfg, ss, ii, k))
  {
    EpisodeKeeps(cfg, start, ss, ii, k);
    assert Joined(cfg, start, ss, ii, k);
    EnteringStarts(cfg, ss[k], ii[k], HorizonAt(start, ii, k));
  }

  /** A call submits the final observation of its motion if and only if no earlier call of
      the episode has, UP is not handing over, its poll of the clock fires, and the motion
      is over: (n - 1) frames at their frequency after the clock's reset. */
  lemma FinalObservationExactly(cfg: Config, start: int, ss: seq<State>, ii: seq<Inputs>, k: nat)
    requires Episode(cfg, start, ss, ii) && k < |ii| && cfg.kind != WALK
    ensures EndsMotion(cfg, ss[k], ii[k], ss[k].session.observationSequence + 1) <==>
      && (forall j :: 0 <= j < k ==> !EndsMotion(cfg, ss[j], ii[j], ss[j].session.observationSequence + 1))
      && HandOver(cfg, ss[k], ii[k]).None?
      && Polled(ClockAt(cfg, ss, ii, k), cfg.periodNs, ii[k].nowNs)
      && Over(cfg, ClockAt(cfg, ss, ii, k).startNs, ii[k].nowNs)
  {
    ClockRuns(cfg, start, ss, ii, k);
    EndsExactly(cfg, ss[k], ii[k]);
    EpisodeKeeps(cfg, start, ss, ii, k);
    if k > 0 { EndPendingIsHistory(cfg, start, ss, ii, k); }
  }

  /** The clock is reset when the policy is entered, and again only when UP's hand-over
      ends. */
  lemma ClockIsResetExactly(cfg: Config, start: int, ss: seq<State>, ii: seq<Inputs>, k: nat)
    requires Episode(cfg, start, ss, ii) && k < |ii|
    ensures ss[k + 1].playback.clock.startNs ==
      if HandOver(cfg, ss[k], ii[k]).Some? && ss[k + 1].blend.None? then ii[k].endNs else ClockAt(cfg, ss, ii, k).startNs
  {
    ClockRuns(cfg, start, ss, ii, k);
    assert Joined(cfg, start, ss, ii, k);
    ContinuedActs(cfg, ss[k], ii[k], ss[k + 1], HorizonAt(start, ii, k));
    var (fires, u) := Ticked(cfg, EnterMode(cfg, ss[k], ii[k]), ii[k]);
    TakeRefinesRule(ClockAt(cfg, ss, ii, k), cfg.periodNs, ii[k].nowNs);
    AnsweringClock(cfg, fires, u, ii[k]);
    AnsweringFrame(cfg, fires, u, ii[k]);
    ActClock(cfg, Acting(cfg, ss[k], ii[k]), ii[k]);
  }

  lemma AnsweringClock(cfg: Config, fires: bool, s: State, i: Inputs)
    requires cfg.Valid()
    ensures Answering(cfg, fires, s, i).playback.clock == s.playback.clock
  {
  }

  lemma ActClock(cfg: Config, u: State, i: Inputs)
    requires cfg.Valid() && Sized(cfg, u)
    ensures var (t, outcome) := Act(cfg, u, i);
      outcome == Continues ==>
        && (Frozen(cfg, u).None? ==> t.playback.clock == u.playback.clock)
        && (Frozen(cfg, u).Some? ==> t.playback.clock.startNs == if t.blend.None? then i.endNs else u.playback.clock.startNs)
  {
  }

  /** Outside UP it is the entry of the episode that the motion counts from. */
  lemma {:induction false} ClockStartsAtEntry(cfg: Config, start: int, ss: seq<State>, ii: seq<Inputs>, k: nat)
    requires Episode(cfg, start, ss, ii) && 0 < k <= |ii| && cfg.kind != UP
    requires ss[0].session.activePolicy != cfg.kind
    ensures ss[k].playback.clock.startNs == ii[0].resetNs
  {
    ClockIsResetExactly(cfg, start, ss, ii, k - 1);
    if k > 1 {
      ClockStartsAtEntry(cfg, start, ss, ii, k - 1);
      EpisodeKeeps(cfg, start, ss, ii, k - 1);
    }
  }

  /** A motion that waits for its last answer has lasted as long as its frames say. */
  predicate HasLasted(cfg: Config, startNs: int, finalNs: int) {
    cfg.timestepCount <= 1
    || (finalNs - startNs) as real * cfg.motionFrequencyHz >= (cfg.timestepCount - 1) as real * 1000000000.0
  }

  lemma FinalIsAfterMotion(cfg: Config, start: int, ss: seq<State>, ii: seq<Inputs>, k: nat)
    requires Episode(cfg, start, ss, ii) && k < |ii| && EndMade(cfg, ss[k], ii[k], ss[k + 1])
    ensures HasLasted(cfg, ss[k + 1].playback.clock.startNs, ss[k + 1].finalNs)
  {
    ClockRuns(cfg, start, ss, ii, k);
    EndsExactly(cfg, ss[k], ii[k]);
    ClockIsResetExactly(cfg, start, ss, ii, k);
  }

  lemma {:induction false} FinalAfterMotion(cfg: Config, start: int, ss: seq<State>, ii: seq<Inputs>, k: nat)
    requires Episode(cfg, start, ss, ii) && 0 < k <= |ii| && ss[k].playback.endPending
    ensures HasLasted(cfg, ss[k].playback.clock.startNs, ss[k].finalNs)
  {
    EpisodeStep(cfg, start, ss, ii, k - 1);
    if EndMade(cfg, ss[k - 1], ii[k - 1], ss[k]) {
      FinalIsAfterMotion(cfg, start, ss, ii, k - 1);
    } else {
      EpisodeKeeps(cfg, start, ss, ii, k - 1);
      FinalAfterMotion(cfg, start, ss, ii, k - 1);
    }
  }

  /** No motion of n frames completes sooner than (n - 1) frames at their frequency and
      one policy period after the last reset of its clock, unless time itself ends. */
  lemma MotionsTakeTheirTime(cfg: Config, start: int, ss: seq<State>, ii: seq<Inputs>, i: Inputs)
    requires Episode(cfg, start, ss, ii) && Follows(cfg, Last(ss), i, HorizonAt(start, ii, |ii|))
    requires PolicyCycle(cfg, Last(ss), i).1 == Completes
    ensures |ii| > 0
    ensures i.nowNs < 0x7fff_ffff_ffff_ffff ==> HasLasted(cfg, Last(ss).playback.clock.startNs, i.nowNs - cfg.periodNs)
  {
    CompletesOnlyWhenDue(cfg, Last(ss), i);
    EpisodeKeeps(cfg, start, ss, ii, |ii|);
    FinalAfterMotion(cfg, start, ss, ii, |ii|);
    LaterHasLasted(cfg, Last(ss).playback.clock.startNs, Last(ss).finalNs, i.nowNs - cfg.periodNs);
  }

  lemma LaterHasLasted(cfg: Config, startNs: int, finalNs: int, laterNs: int)
    requires cfg.motionFrequencyHz > 0.0 && HasLasted(cfg, startNs, finalNs)
    ensures finalNs <= laterNs ==> HasLasted(cfg, startNs, laterNs)
  {
    if finalNs <= laterNs {
      ScaleOrder((finalNs - startNs) as real, (laterNs - startNs) as real, cfg.motionFrequencyHz);
    }
  }
}

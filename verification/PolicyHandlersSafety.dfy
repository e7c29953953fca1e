/**
 What the policy handlers guarantee over a whole episode: from the entry into a
 policy to the cycle that leaves it.
 */
module PolicyHandlersSafety {
  import opened Common
  import opened PolicySession
  import opened PolicyPlaybackClock
  import opened ControlStateMachine
  import opened RLControllerBase
  import opened PolicyHandlers

  predicate Sized(cfg: Config, s: State) {
    |s.actions| == |s.joints| == cfg.Dof()
  }

  /** What the inference protocol guarantees of a packet of the current epoch and
      policy: it answers an observation submitted in this epoch, and carries its
      timestamp. `stamps` includes the observation of this very cycle. */
  predicate Genuine(cfg: Config, c: Session, stamps: map<nat, int>, r: ActionPacket) {
    r.valid && r.epoch == c.epoch && r.policy == cfg.kind ==>
      r.sourceSequence in stamps && r.observationTimestampNs == stamps[r.sourceSequence]
  }

  /** The session and the submissions at the moment the packet is looked at. */
  function AtAnswer(cfg: Config, before: State, i: Inputs): State {
    var (fires, s) := Ticked(cfg, EnterMode(cfg, before, i), i);
    if fires then Submitted(s, i) else s
  }

  predicate Admissible(cfg: Config, before: State, i: Inputs) {
    && Timed(i)
    && (i.packet.Some? ==>
          var s := AtAnswer(cfg, before, i);
          Genuine(cfg, s.session, s.stamps, i.packet.value))
  }

  // ---------------------------------------------------------------------------
  // The invariant of an episode
  // ---------------------------------------------------------------------------

  ghost predicate StampsUpTo(stamps: map<nat, int>, last: nat, horizon: int) {
    forall q :: q in stamps ==> 0 < q <= last && 0 < stamps[q] <= horizon
  }

  predicate Referenced(c: Session, stamps: map<nat, int>) {
    if c.lastAppliedSequence == 0 then c.lastAppliedObservationNs == 0
    else c.lastAppliedSequence in stamps && c.lastAppliedObservationNs == stamps[c.lastAppliedSequence]
  }

  /** The final observation is the newest, and neither it nor any earlier one, nor the
      entry into the policy, is younger than its timestamp. */
  ghost predicate FinalIsNewest(c: Session, p: Playback, stamps: map<nat, int>) {
    p.endPending ==>
      && p.finalSequence == c.observationSequence && p.finalSequence in stamps
      && c.policyEntryNs <= stamps[p.finalSequence]
      && StampsUpTo(stamps, p.finalSequence, stamps[p.finalSequence])
  }

  predicate CompletionTime(cfg: Config, p: Playback, finalNs: int) {
    p.endPending ==> p.completionNotBeforeNs == Min(finalNs + cfg.periodNs, INT64_MAX)
  }

  ghost predicate During(cfg: Config, s: State, horizon: int) {
    && Sized(cfg, s) && (cfg.kind == WALK ==> !s.playback.endPending) && (cfg.kind == UP ==> s.preparation.None?)
    && s.session.activePolicy == cfg.kind && 0 < s.session.policyEntryNs <= horizon
    && StampsUpTo(s.stamps, s.session.observationSequence, horizon)
    && Referenced(s.session, s.stamps)
    && FinalIsNewest(s.session, s.playback, s.stamps)
    && CompletionTime(cfg, s.playback, s.finalNs)
    && Running(cfg, s.playback.clock)
  }

  /** The clock has been reset to a time there is, and is on the grid laid then. */
  predicate Running(cfg: Config, c: Clock) {
    0 < c.startNs <= INT64_MAX && OnGrid(c, cfg.periodNs)
  }

  /** Where an episode starts: the policy is not active yet, or UP has finished its
      preparation and has not submitted anything. */
  ghost predicate Fresh(cfg: Config, s: State, horizon: int) {
    && Sized(cfg, s)
    && (if s.session.activePolicy == cfg.kind
        then && During(cfg, s, horizon) && s.stamps == map[] && s.session.lastAppliedSequence == 0
             && !s.playback.endPending
        else cfg.kind != UP)
  }

  lemma EnteringStarts(cfg: Config, s: State, i: Inputs, horizon: int)
    requires cfg.Valid() && Timed(i) && horizon <= i.entryNs
    requires Fresh(cfg, s, horizon) || During(cfg, s, horizon)
    ensures During(cfg, EnterMode(cfg, s, i), i.entryNs)
  {
  }

  lemma SubmissionKeeps(cfg: Config, s: State, i: Inputs)
    requires Timed(i) && During(cfg, s, i.entryNs) && !s.playback.endPending
    ensures During(cfg, Submitted(s, i), i.submitNs)
    ensures FinalIsNewest(Submitted(s, i).session, EndSeen(cfg, Submitted(s, i), i.nowNs).playback, Submitted(s, i).stamps)
  {
  }

  lemma ApplicationKeeps(cfg: Config, s: State, i: Inputs, horizon: int)
    requires During(cfg, s, horizon)
    requires i.packet.Some? ==> Genuine(cfg, s.session, s.stamps, i.packet.value)
    ensures During(cfg, Applied(cfg, s, i), horizon)
  {
  }

  lemma TickKeeps(cfg: Config, s: State, i: Inputs)
    requires cfg.Valid() && Timed(i) && During(cfg, s, i.entryNs)
    ensures var (fires, t) := Ticked(cfg, s, i);
      During(cfg, t, i.entryNs) && (fires ==> !t.playback.endPending)
  {
    TakeRefinesRule(s.playback.clock, cfg.periodNs, i.nowNs);
  }

  /** Everything between the tick and the common end. */
  function Answering(cfg: Config, fires: bool, s: State, i: Inputs): State
    requires cfg.motionFrequencyHz > 0.0
  {
    if cfg.kind == WALK then Answered(cfg, if fires then Observed(cfg, s, i) else s, i)
    else MotionTick(cfg, fires, s, i)
  }

  lemma AnsweringKeeps(cfg: Config, fires: bool, s: State, i: Inputs)
    requires cfg.Valid() && Timed(i) && During(cfg, s, i.entryNs) && (fires ==> !s.playback.endPending)
    requires i.packet.Some? ==>
      var t := if fires then Submitted(s, i) else s; Genuine(cfg, t.session, t.stamps, i.packet.value)
    ensures During(cfg, Answering(cfg, fires, s, i), i.submitNs)
  {
    if fires {
      SubmissionKeeps(cfg, s, i);
      var t := Submitted(s, i);
      ApplicationKeeps(cfg, t, i, i.submitNs);
      if cfg.kind != WALK && Ends(cfg, fires, s, i) {
        assert During(cfg, EndSeen(cfg, t, i.nowNs), i.submitNs);
        ApplicationKeeps(cfg, EndSeen(cfg, t, i.nowNs), i, i.submitNs);
      }
    } else {
      ApplicationKeeps(cfg, s, i, i.entryNs);
    }
  }

  lemma ActKeeps(cfg: Config, s: State, i: Inputs)
    requires cfg.Valid() && Timed(i) && During(cfg, s, i.submitNs)
    ensures Act(cfg, s, i).1 == Continues ==> During(cfg, Act(cfg, s, i).0, i.endNs)
  {
  }

  /** Where a cycle acts: the state the common end starts from. */
  function Acting(cfg: Config, before: State, i: Inputs): State
    requires cfg.motionFrequencyHz > 0.0
  {
    var (fires, s) := Ticked(cfg, EnterMode(cfg, before, i), i);
    Answering(cfg, fires, s, i)
  }

  lemma CycleKeeps(cfg: Config, s: State, i: Inputs, horizon: int)
    requires cfg.Valid() && Admissible(cfg, s, i) && horizon <= i.entryNs
    requires Fresh(cfg, s, horizon) || During(cfg, s, horizon)
    ensures During(cfg, Acting(cfg, s, i), i.submitNs)
    ensures PolicyCycle(cfg, s, i).1 == Continues ==> During(cfg, PolicyCycle(cfg, s, i).0, i.endNs)
  {
    EnteringStarts(cfg, s, i, horizon);
    TickKeeps(cfg, EnterMode(cfg, s, i), i);
    var (fires, t) := Ticked(cfg, EnterMode(cfg, s, i), i);
    AnsweringKeeps(cfg, fires, t, i);
    ActKeeps(cfg, Answering(cfg, fires, t, i), i);
  }

  // ---------------------------------------------------------------------------
  // Episodes
  // ---------------------------------------------------------------------------

  function HorizonAt(start: int, ii: seq<Inputs>, k: nat): int
    requires k <= |ii|
  {
    if k == 0 then start else ii[k - 1].endNs
  }

  /** The next call reads times not before those of the call before it. */
  predicate Follows(cfg: Config, before: State, i: Inputs, horizon: int) {
    Sized(cfg, before) && Admissible(cfg, before, i) && horizon <= i.entryNs
  }

  predicate Continued(cfg: Config, before: State, i: Inputs, after: State, horizon: int)
    requires cfg.Valid()
  {
    Follows(cfg, before, i, horizon) && PolicyCycle(cfg, before, i) == (after, Continues)
  }

  predicate Joined(cfg: Config, start: int, ss: seq<State>, ii: seq<Inputs>, k: nat)
    requires cfg.Valid() && k < |ii| && k + 1 < |ss|
  {
    Continued(cfg, ss[k], ii[k], ss[k + 1], HorizonAt(start, ii, k))
  }

  /** Cycles of one policy from its entry, none of which has left it. */
  ghost predicate Episode(cfg: Config, start: int, ss: seq<State>, ii: seq<Inputs>) {
    && cfg.Valid() && |ss| == |ii| + 1 && Fresh(cfg, ss[0], start)
    && forall k :: 0 <= k < |ii| ==> Joined(cfg, start, ss, ii, k)
  }

  lemma {:induction false} EpisodeKeeps(cfg: Config, start: int, ss: seq<State>, ii: seq<Inputs>, k: nat)
    requires Episode(cfg, start, ss, ii) && k <= |ii|
    ensures if k == 0 then Fresh(cfg, ss[0], start) else During(cfg, ss[k], HorizonAt(start, ii, k))
  {
    if k > 0 {
      EpisodeKeeps(cfg, start, ss, ii, k - 1);
      assert Joined(cfg, start, ss, ii, k - 1);
      CycleKeeps(cfg, ss[k - 1], ii[k - 1], HorizonAt(start, ii, k - 1));
    }
  }

  /** This call submits the last observation of the motion, with number `q`. */
  predicate EndsMotion(cfg: Config, s: State, i: Inputs, q: nat)
    requires cfg.Valid()
  {
    var (fires, t) := Ticked(cfg, EnterMode(cfg, s, i), i);
    cfg.kind != WALK && q == s.session.observationSequence + 1 && Ends(cfg, fires, t, i)
  }

  /** The playback record of `t` is the one this call made, or the one it found. */
  predicate EndMade(cfg: Config, s: State, i: Inputs, t: State)
    requires cfg.Valid()
  {
    && EndsMotion(cfg, s, i, t.playback.finalSequence) && Frozen(cfg, t).None?
    && t.finalNs == i.nowNs && t.playback.finalSequence in t.stamps
    && t.stamps[t.playback.finalSequence] == i.submitNs
  }

  predicate EndKept(cfg: Config, s: State, t: State) {
    && s.session.activePolicy == cfg.kind && s.playback == t.playback && s.finalNs == t.finalNs
    && s.stamps == t.stamps && (Frozen(cfg, s).None? ==> Frozen(cfg, t).None?)
  }

  /** A call that continues leaves from `Acting` what it does not command or clamp. */
  predicate OnlyActs(cfg: Config, u: State, t: State) {
    && t.session == u.session && t.stamps == u.stamps && t.finalNs == u.finalNs
    && (t.playback == u.playback || (Frozen(cfg, u).Some? && !t.playback.endPending))
    && (Frozen(cfg, u).None? ==> Frozen(cfg, t).None? && t.playback == u.playback)
  }

  lemma ActOnlyActs(cfg: Config, u: State, i: Inputs)
    requires cfg.Valid() && Sized(cfg, u)
    ensures Act(cfg, u, i).1 == Continues ==> OnlyActs(cfg, u, Act(cfg, u, i).0)
  {
  }

  lemma AppliedFrame(cfg: Config, s: State, i: Inputs)
    ensures var u := Applied(cfg, s, i);
      && u.playback == s.playback && u.stamps == s.stamps && u.finalNs == s.finalNs && u.blend == s.blend
      && u.session.observationSequence == s.session.observationSequence && u.session.epoch == s.session.epoch
      && u.session.activePolicy == s.session.activePolicy
      && u.mode == s.mode && u.joints == s.joints && u.damping == s.damping
  {
  }

  /** What answering does to the playback record and to the submissions. */
  lemma AnsweringFrame(cfg: Config, fires: bool, s: State, i: Inputs)
    requires cfg.Valid()
    ensures var u := Answering(cfg, fires, s, i);
      && u.blend == s.blend && u.session.epoch == s.session.epoch && u.session.activePolicy == s.session.activePolicy
      && u.mode == s.mode && u.joints == s.joints && u.damping == s.damping
      && u.session.observationSequence == s.session.observationSequence + (if fires then 1 else 0)
      && u.stamps == (if fires then s.stamps[s.session.observationSequence + 1 := i.submitNs] else s.stamps)
      && if cfg.kind != WALK && Ends(cfg, fires, s, i)
         then u.playback.endPending && u.playback.finalSequence == s.session.observationSequence + 1 && u.finalNs == i.nowNs
         else u.playback == s.playback && u.finalNs == s.finalNs
  {
    var t := if fires then Submitted(s, i) else s;
    AppliedFrame(cfg, t, i);
    AppliedFrame(cfg, EndSeen(cfg, t, i.nowNs), i);
  }

  lemma AppliedIsSized(cfg: Config, s: State, i: Inputs)
    requires Sized(cfg, s)
    ensures Sized(cfg, Applied(cfg, s, i))
  {
  }

  lemma AnsweringIsSized(cfg: Config, fires: bool, s: State, i: Inputs)
    requires cfg.Valid() && Sized(cfg, s)
    ensures Sized(cfg, Answering(cfg, fires, s, i))
  {
    var t := if fires then Submitted(s, i) else s;
    AppliedIsSized(cfg, t, i);
    AppliedIsSized(cfg, EndSeen(cfg, t, i.nowNs), i);
  }

  lemma ActingIsSized(cfg: Config, s: State, i: Inputs)
    requires cfg.Valid() && Sized(cfg, s)
    ensures Sized(cfg, Acting(cfg, s, i))
  {
    var (fires, t) := Ticked(cfg, EnterMode(cfg, s, i), i);
    AnsweringIsSized(cfg, fires, t, i);
  }

  lemma WalkActs(cfg: Config, s: State, i: Inputs)
    requires cfg.Valid() && Sized(cfg, s) && cfg.kind == WALK && Sized(cfg, Acting(cfg, s, i))
    ensures WalkCycle(cfg, s, i).1 == Continues ==> WalkCycle(cfg, s, i) == Act(cfg, Acting(cfg, s, i), i)
  {
  }

  lemma MotionActs(cfg: Config, s: State, i: Inputs)
    requires cfg.Valid() && Sized(cfg, s) && cfg.kind != WALK && Sized(cfg, Acting(cfg, s, i))
    ensures MotionCycle(cfg, s, i).1 == Continues ==> MotionCycle(cfg, s, i) == Act(cfg, Acting(cfg, s, i), i)
  {
  }

  lemma CycleActs(cfg: Config, s: State, i: Inputs)
    requires cfg.Valid() && Sized(cfg, s)
    ensures Sized(cfg, Acting(cfg, s, i))
    ensures PolicyCycle(cfg, s, i).1 == Continues ==> PolicyCycle(cfg, s, i) == Act(cfg, Acting(cfg, s, i), i)
  {
    ActingIsSized(cfg, s, i);
    if cfg.kind == WALK { WalkActs(cfg, s, i); } else { MotionActs(cfg, s, i); }
  }

  lemma ContinuedActs(cfg: Config, s: State, i: Inputs, t: State, horizon: int)
    requires cfg.Valid() && Continued(cfg, s, i, t, horizon)
    ensures Sized(cfg, Acting(cfg, s, i)) && Act(cfg, Acting(cfg, s, i), i) == (t, Continues)
    ensures OnlyActs(cfg, Acting(cfg, s, i), t)
  {
    CycleActs(cfg, s, i);
    ActOnlyActs(cfg, Acting(cfg, s, i), i);
  }

  lemma EndIsMade(cfg: Config, s: State, i: Inputs, t: State, horizon: int)
    requires cfg.Valid() && Continued(cfg, s, i, t, horizon)
    requires Fresh(cfg, s, horizon) || During(cfg, s, horizon)
    ensures t.playback.endPending ==> EndMade(cfg, s, i, t) || EndKept(cfg, s, t)
  {
    ContinuedActs(cfg, s, i, t, horizon);
    var (fires, u) := Ticked(cfg, EnterMode(cfg, s, i), i);
    AnsweringFrame(cfg, fires, u, i);
  }

  lemma EndIsSeen(cfg: Config, s: State, i: Inputs, t: State, horizon: int)
    requires cfg.Valid() && Continued(cfg, s, i, t, horizon)
    requires EndsMotion(cfg, s, i, s.session.observationSequence + 1)
    ensures t.playback.endPending && EndMade(cfg, s, i, t)
  {
    ContinuedActs(cfg, s, i, t, horizon);
    var (fires, u) := Ticked(cfg, EnterMode(cfg, s, i), i);
    AnsweringFrame(cfg, fires, u, i);
  }

  lemma EndIsKept(cfg: Config, s: State, i: Inputs, t: State, horizon: int)
    requires cfg.Valid() && Continued(cfg, s, i, t, horizon)
    requires Fresh(cfg, s, horizon) || During(cfg, s, horizon)
    requires s.session.activePolicy == cfg.kind && cfg.kind != WALK && s.playback.endPending && Frozen(cfg, s).None?
    ensures EndKept(cfg, s, t)
  {
    ContinuedActs(cfg, s, i, t, horizon);
    var (fires, u) := Ticked(cfg, EnterMode(cfg, s, i), i);
    AnsweringFrame(cfg, fires, u, i);
  }

  lemma EndStep(cfg: Config, s: State, i: Inputs, t: State, horizon: int)
    requires cfg.Valid() && Continued(cfg, s, i, t, horizon)
    requires Fresh(cfg, s, horizon) || During(cfg, s, horizon)
    ensures t.playback.endPending ==> EndMade(cfg, s, i, t) || EndKept(cfg, s, t)
    ensures EndsMotion(cfg, s, i, s.session.observationSequence + 1) ==> t.playback.endPending && EndMade(cfg, s, i, t)
    ensures s.session.activePolicy == cfg.kind && cfg.kind != WALK && s.playback.endPending && Frozen(cfg, s).None? ==>
      EndKept(cfg, s, t)
  {
    EndIsMade(cfg, s, i, t, horizon);
    if EndsMotion(cfg, s, i, s.session.observationSequence + 1) { EndIsSeen(cfg, s, i, t, horizon); }
    if s.session.activePolicy == cfg.kind && cfg.kind != WALK && s.playback.endPending && Frozen(cfg, s).None? {
      EndIsKept(cfg, s, i, t, horizon);
    }
  }

  /** This call copied the answer numbered `q`, and what it commands with is that
      answer, clamped. */
  predicate Answers(cfg: Config, i: Inputs, t: State, q: nat) {
    && i.packet.Some? && t.session.lastAppliedSequence == q
    && var r := i.packet.value;
    && r.valid && r.sourceSequence == q && r.policy == cfg.kind && r.epoch == t.session.epoch
    && r.observationTimestampNs == t.session.lastAppliedObservationNs
    && r.size <= |r.actions| && t.actions == Clamped(r.actions[..r.size], cfg.clip)
  }

  predicate AnswerKept(cfg: Config, s: State, t: State) {
    && s.session.activePolicy == cfg.kind && s.session.lastAppliedSequence == t.session.lastAppliedSequence
    && s.session.lastAppliedObservationNs == t.session.lastAppliedObservationNs
    && t.actions == Clamped(s.actions, cfg.clip)
  }

  lemma ActClamps(cfg: Config, u: State, i: Inputs)
    requires cfg.Valid() && Sized(cfg, u)
    ensures Act(cfg, u, i).1 == Continues ==> Act(cfg, u, i).0.actions == Clamped(u.actions, cfg.clip)
  {
  }

  /** The answer looked at by this call, if it is accepted, is what `Acting` holds. */
  lemma AnsweringApplies(cfg: Config, fires: bool, s: State, i: Inputs)
    requires cfg.Valid()
    ensures var u := Answering(cfg, fires, s, i);
      if u.session.lastAppliedSequence == s.session.lastAppliedSequence
      then u.actions == s.actions && u.session.lastAppliedObservationNs == s.session.lastAppliedObservationNs
      else
        && i.packet.Some? && u.session.lastAppliedSequence > s.session.lastAppliedSequence
        && var r := i.packet.value;
        && r.valid && r.sourceSequence == u.session.lastAppliedSequence && r.policy == cfg.kind
        && r.epoch == s.session.epoch && r.observationTimestampNs == u.session.lastAppliedObservationNs
        && r.size <= |r.actions| && u.actions == r.actions[..r.size]
  {
  }

  lemma AnswerStep(cfg: Config, s: State, i: Inputs, t: State, horizon: int)
    requires cfg.Valid() && Continued(cfg, s, i, t, horizon)
    ensures t.session.lastAppliedSequence > 0 ==> Answers(cfg, i, t, t.session.lastAppliedSequence) || AnswerKept(cfg, s, t)
    ensures s.session.activePolicy == cfg.kind ==>
      t.session.epoch == s.session.epoch && t.session.lastAppliedSequence >= s.session.lastAppliedSequence
    ensures t.session.observationSequence >= s.session.observationSequence
  {
    ContinuedActs(cfg, s, i, t, horizon);
    var u := EnterMode(cfg, s, i);
    var (fires, v) := Ticked(cfg, u, i);
    AnsweringFrame(cfg, fires, v, i);
    AnsweringApplies(cfg, fires, v, i);
    ActClamps(cfg, Acting(cfg, s, i), i);
  }

  lemma ClampedTwice(actions: seq<Float>, bound: real)
    requires bound >= 0.0
    ensures Clamped(Clamped(actions, bound), bound) == Clamped(actions, bound)
  {
  }

  // ---------------------------------------------------------------------------
  // Where the end of the motion and the commanded answer come from
  // ---------------------------------------------------------------------------

  /** Call `j` submitted the final observation `q`, and state `k` still waits for it. */
  ghost predicate AwaitsEnd(cfg: Config, ss: seq<State>, ii: seq<Inputs>, k: nat, j: nat)
    requires cfg.Valid() && j < |ii| < |ss| && k < |ss|
  {
    var s := ss[k];
    && s.playback.endPending && EndsMotion(cfg, ss[j], ii[j], s.playback.finalSequence) && Frozen(cfg, s).None?
    && s.finalNs == ii[j].nowNs
    && s.playback.finalSequence in s.stamps && s.stamps[s.playback.finalSequence] == ii[j].submitNs
  }

  lemma EpisodeStep(cfg: Config, start: int, ss: seq<State>, ii: seq<Inputs>, k: nat)
    requires Episode(cfg, start, ss, ii) && k < |ii|
    ensures ss[k + 1].playback.endPending ==> EndMade(cfg, ss[k], ii[k], ss[k + 1]) || EndKept(cfg, ss[k], ss[k + 1])
    ensures EndsMotion(cfg, ss[k], ii[k], ss[k].session.observationSequence + 1) ==>
      ss[k + 1].playback.endPending && EndMade(cfg, ss[k], ii[k], ss[k + 1])
    ensures 0 < k && cfg.kind != WALK && ss[k].playback.endPending && Frozen(cfg, ss[k]).None? ==>
      EndKept(cfg, ss[k], ss[k + 1])
    ensures ss[k + 1].session.lastAppliedSequence > 0 ==>
      Answers(cfg, ii[k], ss[k + 1], ss[k + 1].session.lastAppliedSequence) || AnswerKept(cfg, ss[k], ss[k + 1])
    ensures 0 < k ==>
      && ss[k + 1].session.epoch == ss[k].session.epoch
      && ss[k + 1].session.lastAppliedSequence >= ss[k].session.lastAppliedSequence
    ensures ss[k + 1].session.observationSequence >= ss[k].session.observationSequence
  {
    EpisodeKeeps(cfg, start, ss, ii, k);
    assert Joined(cfg, start, ss, ii, k);
    EndStep(cfg, ss[k], ii[k], ss[k + 1], HorizonAt(start, ii, k));
    AnswerStep(cfg, ss[k], ii[k], ss[k + 1], HorizonAt(start, ii, k));
  }

  lemma AwaitingGoesOn(cfg: Config, ss: seq<State>, ii: seq<Inputs>, k: nat, j: nat)
    requires cfg.Valid() && j < |ii| < |ss| && k + 1 < |ss|
    requires AwaitsEnd(cfg, ss, ii, k, j) && EndKept(cfg, ss[k], ss[k + 1])
    ensures AwaitsEnd(cfg, ss, ii, k + 1, j)
  {
  }

  lemma {:induction false} EndHasOrigin(cfg: Config, start: int, ss: seq<State>, ii: seq<Inputs>, k: nat) returns (j: nat)
    requires Episode(cfg, start, ss, ii) && 0 < k <= |ii| && ss[k].playback.endPending
    ensures j < k && AwaitsEnd(cfg, ss, ii, k, j)
  {
    EpisodeStep(cfg, start, ss, ii, k - 1);
    if EndMade(cfg, ss[k - 1], ii[k - 1], ss[k]) {
      j := k - 1;
    } else {
      j := EndHasOrigin(cfg, start, ss, ii, k - 1);
      AwaitingGoesOn(cfg, ss, ii, k - 1, j);
    }
  }

  lemma {:induction false} EndIsAwaited(cfg: Config, start: int, ss: seq<State>, ii: seq<Inputs>, j: nat, k: nat)
    requires Episode(cfg, start, ss, ii) && j < k <= |ii|
    requires EndsMotion(cfg, ss[j], ii[j], ss[j].session.observationSequence + 1)
    ensures AwaitsEnd(cfg, ss, ii, k, j)
  {
    EpisodeStep(cfg, start, ss, ii, k - 1);
    if j < k - 1 {
      EndIsAwaited(cfg, start, ss, ii, j, k - 1);
      AwaitingGoesOn(cfg, ss, ii, k - 1, j);
    }
  }

  /** Call `m` copied the answer that state `k` commands with. */
  ghost predicate CommandedBy(cfg: Config, ss: seq<State>, ii: seq<Inputs>, k: nat, m: nat)
    requires m < |ii| < |ss| && k < |ss|
  {
    && Answers(cfg, ii[m], ss[m + 1], ss[k].session.lastAppliedSequence)
    && ss[m + 1].session.epoch == ss[k].session.epoch && ss[m + 1].actions == ss[k].actions
    && ss[m + 1].session.lastAppliedObservationNs == ss[k].session.lastAppliedObservationNs
  }

  lemma {:induction false} AnswerHasOrigin(cfg: Config, start: int, ss: seq<State>, ii: seq<Inputs>, k: nat) returns (m: nat)
    requires Episode(cfg, start, ss, ii) && 0 < k <= |ii| && ss[k].session.lastAppliedSequence > 0
    ensures m < k && CommandedBy(cfg, ss, ii, k, m)
  {
    EpisodeStep(cfg, start, ss, ii, k - 1);
    if Answers(cfg, ii[k - 1], ss[k], ss[k].session.lastAppliedSequence) {
      m := k - 1;
    } else {
      m := AnswerHasOrigin(cfg, start, ss, ii, k - 1);
      ClampedTwice(ii[m].packet.value.actions[..ii[m].packet.value.size], cfg.clip);
    }
  }

  lemma {:induction false} SequencesGrow(cfg: Config, start: int, ss: seq<State>, ii: seq<Inputs>, j: nat, k: nat)
    requires Episode(cfg, start, ss, ii) && j <= k <= |ii|
    ensures ss[j].session.observationSequence <= ss[k].session.observationSequence
    ensures 0 < j ==>
      && ss[j].session.epoch == ss[k].session.epoch
      && ss[j].session.lastAppliedSequence <= ss[k].session.lastAppliedSequence
    decreases k
  {
    if j < k {
      SequencesGrow(cfg, start, ss, ii, j, k - 1);
      EpisodeStep(cfg, start, ss, ii, k - 1);
    }
  }

  // ---------------------------------------------------------------------------
  // Theorems
  // ---------------------------------------------------------------------------

  /** Call `j` submitted the final observation, and call `m`, the same or a later one,
      copied its answer. */
  ghost predicate FinalAnswered(cfg: Config, ss: seq<State>, ii: seq<Inputs>, j: nat, m: nat)
    requires cfg.Valid() && |ss| == |ii| + 1
  {
    && j <= m < |ii|
    && var q := ss[j].session.observationSequence + 1;
    && EndsMotion(cfg, ss[j], ii[j], q) && Answers(cfg, ii[m], ss[m + 1], q)
  }

  predicate PeriodPassed(cfg: Config, finalNs: int, nowNs: int) {
    nowNs >= Min(finalNs + cfg.periodNs, INT64_MAX)
  }

  lemma CompletesOnlyWhenDue(cfg: Config, s: State, i: Inputs)
    requires cfg.Valid() && Sized(cfg, s)
    ensures PolicyCycle(cfg, s, i).1 == Completes <==> cfg.kind != WALK && CompletionDue(EnterMode(cfg, s, i), i.nowNs)
  {
  }

  lemma CompletionHasCause(cfg: Config, start: int, ss: seq<State>, ii: seq<Inputs>, i: Inputs) returns (j: nat, m: nat)
    requires Episode(cfg, start, ss, ii) && Follows(cfg, Last(ss), i, HorizonAt(start, ii, |ii|))
    requires PolicyCycle(cfg, Last(ss), i).1 == Completes
    ensures FinalAnswered(cfg, ss, ii, j, m) && PeriodPassed(cfg, ii[j].nowNs, i.nowNs)
  {
    CompletesOnlyWhenDue(cfg, Last(ss), i);
    EpisodeKeeps(cfg, start, ss, ii, |ii|);
    j := EndHasOrigin(cfg, start, ss, ii, |ii|);
    m := AnswerHasOrigin(cfg, start, ss, ii, |ii|);
    if m < j {
      SequencesGrow(cfg, start, ss, ii, m + 1, j);
      EpisodeKeeps(cfg, start, ss, ii, m + 1);
    }
  }

  lemma CauseCompletes(cfg: Config, start: int, ss: seq<State>, ii: seq<Inputs>, i: Inputs, j: nat, m: nat)
    requires Episode(cfg, start, ss, ii) && Follows(cfg, Last(ss), i, HorizonAt(start, ii, |ii|))
    requires FinalAnswered(cfg, ss, ii, j, m) && PeriodPassed(cfg, ii[j].nowNs, i.nowNs)
    ensures PolicyCycle(cfg, Last(ss), i).1 == Completes
  {
    EndIsAwaited(cfg, start, ss, ii, j, |ii|);
    SequencesGrow(cfg, start, ss, ii, m + 1, |ii|);
    EpisodeKeeps(cfg, start, ss, ii, |ii|);
    CompletesOnlyWhenDue(cfg, Last(ss), i);
  }

  /** A motion completes in a call if and only if an earlier call submitted its final
      observation, that or a later one copied the answer, in this episode and before
      this call, and one policy period has passed since. WALK never completes. */
  lemma CompletesExactly(cfg: Config, start: int, ss: seq<State>, ii: seq<Inputs>, i: Inputs)
    requires Episode(cfg, start, ss, ii) && Follows(cfg, Last(ss), i, HorizonAt(start, ii, |ii|))
    ensures PolicyCycle(cfg, Last(ss), i).1 == Completes
      <==> exists j: nat, m: nat :: FinalAnswered(cfg, ss, ii, j, m) && PeriodPassed(cfg, ii[j].nowNs, i.nowNs)
  {
    if PolicyCycle(cfg, Last(ss), i).1 == Completes {
      var j, m := CompletionHasCause(cfg, start, ss, ii, i);
    }
    if j: nat, m: nat :| FinalAnswered(cfg, ss, ii, j, m) && PeriodPassed(cfg, ii[j].nowNs, i.nowNs) {
      CauseCompletes(cfg, start, ss, ii, i, j, m);
    }
  }

  lemma ActTestsTheAge(cfg: Config, u: State, i: Inputs)
    requires cfg.Valid() && Sized(cfg, u)
    ensures var (t, outcome) := Act(cfg, u, i);
      outcome == Continues ==>
        && !TimedOut(t.session, i.timeoutNs, cfg.timeoutMs) && |t.actions| == cfg.Dof() && AllFinite(t.actions)
        && t.joints == PolicyCommands(cfg, t.actions, Frozen(cfg, u), Weight(cfg, Frozen(cfg, u), i.nowNs))
  {
  }

  lemma ContinuesOnlyInTime(cfg: Config, start: int, ss: seq<State>, ii: seq<Inputs>, i: Inputs, j: nat)
    requires Episode(cfg, start, ss, ii) && Follows(cfg, Last(ss), i, HorizonAt(start, ii, |ii|))
    requires j < |ii| && EndsMotion(cfg, ss[j], ii[j], ss[j].session.observationSequence + 1)
    ensures PolicyCycle(cfg, Last(ss), i).1 == Continues ==> !Expired(i.timeoutNs - ii[j].submitNs, cfg.timeoutMs)
  {
    var s, horizon := Last(ss), HorizonAt(start, ii, |ii|);
    EndIsAwaited(cfg, start, ss, ii, j, |ii|);
    EpisodeKeeps(cfg, start, ss, ii, |ii|);
    CycleKeeps(cfg, s, i, horizon);
    if PolicyCycle(cfg, s, i).1 == Continues {
      var t := PolicyCycle(cfg, s, i).0;
      ContinuedActs(cfg, s, i, t, horizon);
      EndStep(cfg, s, i, t, horizon);
      assert EndKept(cfg, s, t);
      ActTestsTheAge(cfg, Acting(cfg, s, i), i);
    }
  }

  /** With a positive timeout, a call that tests the age later than the timeout after
      the final observation leaves the policy, answered or not. */
  lemma LateCallsLeave(cfg: Config, start: int, ss: seq<State>, ii: seq<Inputs>, i: Inputs, j: nat)
    requires Episode(cfg, start, ss, ii) && Follows(cfg, Last(ss), i, HorizonAt(start, ii, |ii|))
    requires j < |ii| && EndsMotion(cfg, ss[j], ii[j], ss[j].session.observationSequence + 1)
    requires Expired(i.timeoutNs - ii[j].submitNs, cfg.timeoutMs)
    ensures PolicyCycle(cfg, Last(ss), i).1 in {Completes, Faults}
  {
    ContinuesOnlyInTime(cfg, start, ss, ii, i, j);
  }

  /** The hand-over the call `i` from `s` is in; `None` but for UP. */
  function HandOver(cfg: Config, s: State, i: Inputs): Option<Blend> {
    Frozen(cfg, EnterMode(cfg, s, i))
  }

  /** The joints hold the commands of exactly the actions `t` remembers, blended as far
      as the hand-over has got. */
  predicate Commanded(cfg: Config, s: State, i: Inputs, t: State)
    requires cfg.Valid()
  {
    && |t.actions| == cfg.Dof() && AllFinite(t.actions)
    && var f := HandOver(cfg, s, i);
    && t.joints == PolicyCommands(cfg, t.actions, f, Weight(cfg, f, i.nowNs))
  }

  lemma ContinuingCommands(cfg: Config, s: State, i: Inputs)
    requires cfg.Valid() && Sized(cfg, s) && PolicyCycle(cfg, s, i).1 == Continues
    ensures Commanded(cfg, s, i, PolicyCycle(cfg, s, i).0)
    ensures PolicyCycle(cfg, s, i).0.actions == Clamped(Acting(cfg, s, i).actions, cfg.clip)
  {
    CycleActs(cfg, s, i);
    var (fires, u) := Ticked(cfg, EnterMode(cfg, s, i), i);
    AnsweringFrame(cfg, fires, u, i);
    ActTestsTheAge(cfg, Acting(cfg, s, i), i);
    ActClamps(cfg, Acting(cfg, s, i), i);
  }

  /** What every call that continues commands is computed from the very answer copied in
      this episode and epoch that state `k` remembers, to an observation no older than
      the timeout when its age is tested; or nothing has been copied yet, and the entry
      is no older than that. Outside UP's hand-over nothing else enters the commands. */
  lemma CommandsAreFresh(cfg: Config, start: int, ss: seq<State>, ii: seq<Inputs>, k: nat)
    requires Episode(cfg, start, ss, ii) && 0 < k <= |ii|
    ensures Commanded(cfg, ss[k - 1], ii[k - 1], ss[k])
    ensures cfg.kind != UP ==> HandOver(cfg, ss[k - 1], ii[k - 1]).None?
    ensures if ss[k].session.lastAppliedSequence == 0
            then !Expired(ii[k - 1].timeoutNs - ss[k].session.policyEntryNs, cfg.timeoutMs)
            else exists m :: 0 <= m < k && CommandedBy(cfg, ss, ii, k, m)
                   && !Expired(ii[k - 1].timeoutNs - ii[m].packet.value.observationTimestampNs, cfg.timeoutMs)
  {
    assert Joined(cfg, start, ss, ii, k - 1);
    ContinuedActs(cfg, ss[k - 1], ii[k - 1], ss[k], HorizonAt(start, ii, k - 1));
    ActTestsTheAge(cfg, Acting(cfg, ss[k - 1], ii[k - 1]), ii[k - 1]);
    ContinuingCommands(cfg, ss[k - 1], ii[k - 1]);
    EpisodeKeeps(cfg, start, ss, ii, k);
    if ss[k].session.lastAppliedSequence > 0 {
      var m := AnswerHasOrigin(cfg, start, ss, ii, k);
    }
  }

  function Abs(x: real): real {
    if x < 0.0 then -x else x
  }

  function Larger(x: real, y: real): real {
    if x < y then y else x
  }

  lemma ProductIsNotNegative(x: real, y: real)
    requires x >= 0.0 && y >= 0.0
    ensures x * y >= 0.0
  {
  }

  lemma DifferenceScales(a: real, b: real, y: real)
    ensures (a - b) * y == a * y - b * y
  {
  }

  lemma ScaledIsBounded(x: real, bound: real, scale: real)
    requires -bound <= x <= bound
    ensures Abs(x * scale) <= bound * Abs(scale)
  {
    var y := Abs(scale);
    ProductIsNotNegative(bound - x, y);
    ProductIsNotNegative(bound - -x, y);
    DifferenceScales(bound, x, y);
    DifferenceScales(bound, -x, y);
    DifferenceScales(0.0, x, y);
    DifferenceScales(0.0, scale, x);
  }

  lemma SmoothIsWeight(x: real)
    requires 0.0 <= x <= 1.0
    ensures 0.0 <= Smooth(x) <= 1.0
  {
    var y := 1.0 - x;
    ProductIsNotNegative(x, x);
    ProductIsNotNegative(x * x, 3.0 - 2.0 * x);
    ProductIsNotNegative(y, y);
    ProductIsNotNegative(y * y, 1.0 + 2.0 * x);
    SmoothComplement(x);
  }

  lemma SmoothComplement(x: real)
    ensures 1.0 - Smooth(x) == (1.0 - x) * (1.0 - x) * (1.0 + 2.0 * x)
  {
    var q := x * x;
    assert (1.0 - x) * (1.0 - x) == 1.0 - 2.0 * x + q;
    assert (1.0 - 2.0 * x + q) * (1.0 + 2.0 * x) == 1.0 + 2.0 * x - 2.0 * x - 4.0 * q + q + 2.0 * (q * x);
    assert Smooth(x) == 3.0 * q - 2.0 * (q * x);
  }

  lemma MixIsBounded(a: real, b: real, w: real, bound: real)
    requires 0.0 <= w <= 1.0 && -bound <= a <= bound && -bound <= b <= bound
    ensures -bound <= a * (1.0 - w) + b * w <= bound
  {
    ProductIsNotNegative(bound - a, 1.0 - w);
    ProductIsNotNegative(bound - b, w);
    ProductIsNotNegative(a - -bound, 1.0 - w);
    ProductIsNotNegative(b - -bound, w);
    DifferenceScales(bound, a, 1.0 - w);
    DifferenceScales(bound, b, w);
    DifferenceScales(a, -bound, 1.0 - w);
    DifferenceScales(b, -bound, w);
    assert bound * (1.0 - w) + bound * w == bound;
    assert -bound * (1.0 - w) + -bound * w == -bound;
  }

  /** How far from the default, before scaling, joint `k` may be commanded: the clip
      bound, or in UP's hand-over the larger of it and the action handed over from. */
  function Reach(cfg: Config, f: Option<Blend>, k: nat): real {
    if f.Some? && k < |f.value.startActions| then Larger(Abs(f.value.startActions[k]), cfg.clip) else cfg.clip
  }

  lemma ActionIsClamped(cfg: Config, before: seq<Float>, after: seq<Float>, k: nat)
    requires cfg.clip >= 0.0 && after == Clamped(before, cfg.clip) && AllFinite(after) && k < |after|
    ensures -cfg.clip <= after[k].value <= cfg.clip
  {
    assert after[k].Finite?;
  }

  lemma BlendIsBounded(cfg: Config, f: Option<Blend>, nowNs: int, k: nat, action: real)
    requires -cfg.clip <= action <= cfg.clip
    ensures var reach := Reach(cfg, f, k); -reach <= Blended(f, Weight(cfg, f, nowNs), k, action) <= reach
  {
    if f.Some? && k < |f.value.startActions| {
      SmoothIsWeight(Progress(f.value.startNs, cfg.blendDurationNs, nowNs));
      MixIsBounded(f.value.startActions[k], action, Weight(cfg, f, nowNs), Reach(cfg, f, k));
    }
  }

  /** A command of joint `k` within `reach`, at rest, without torque, and with the gains
      the policy comes with. */
  predicate Bounded(cfg: Config, k: nat, reach: real, c: JointCommand)
    requires cfg.Valid() && k < cfg.Dof()
  {
    && c.position.Finite? && Abs(c.position.value - cfg.offset[k]) <= reach * Abs(cfg.scale[k])
    && c.velocity == ZERO && c.feedforward == ZERO
    && c.kp == Finite(cfg.stiffness[k]) && c.kd == Finite(cfg.damping[k])
  }

  lemma CommandIsBounded(cfg: Config, k: nat, reach: real, action: real)
    requires cfg.Valid() && k < cfg.Dof() && -reach <= action <= reach
    ensures Bounded(cfg, k, reach, PolicyCommand(cfg, k, action))
  {
    ScaledIsBounded(action, reach, cfg.scale[k]);
  }

  lemma CommandedIsBounded(cfg: Config, s: State, i: Inputs, t: State, k: nat)
    requires cfg.Valid() && k < cfg.Dof() && Commanded(cfg, s, i, t)
    requires -cfg.clip <= t.actions[k].value <= cfg.clip
    ensures |t.joints| == cfg.Dof() && Bounded(cfg, k, Reach(cfg, HandOver(cfg, s, i), k), t.joints[k])
  {
    var f := HandOver(cfg, s, i);
    var action := Blended(f, Weight(cfg, f, i.nowNs), k, t.actions[k].value);
    BlendIsBounded(cfg, f, i.nowNs, k, t.actions[k].value);
    CommandIsBounded(cfg, k, Reach(cfg, f, k), action);
    assert t.joints[k] == PolicyCommand(cfg, k, action);
  }

  /** A continuing call of any policy commands every joint to a position no further
      from its default than that, scaled, at rest, without torque, and with the gains
      the policy comes with; whatever the network has answered. */
  lemma CommandsAreBounded(cfg: Config, s: State, i: Inputs, k: nat)
    requires cfg.Valid() && Sized(cfg, s) && k < cfg.Dof()
    requires PolicyCycle(cfg, s, i).1 == Continues
    ensures var t := PolicyCycle(cfg, s, i).0;
      |t.joints| == cfg.Dof() && Bounded(cfg, k, Reach(cfg, HandOver(cfg, s, i), k), t.joints[k])
  {
    ContinuingCommands(cfg, s, i);
    var t := PolicyCycle(cfg, s, i).0;
    ActionIsClamped(cfg, Acting(cfg, s, i).actions, t.actions, k);
    CommandedIsBounded(cfg, s, i, t, k);
  }

  /** How a call ends, given the state `u` of the active policy it ends from. */
  ghost predicate EndsAs(cfg: Config, u: State, t: State, outcome: Outcome) {
    match outcome
    case Continues => t.mode == u.mode && t.session == u.session
    case Faults => t.mode == Default && t.joints == DefaultCommands(|u.joints|) && t.session == Leave(u.session)
    case Completes => exists i :: t == Complete(cfg, u, i)
    case Holds => false
  }

  lemma ActEnds(cfg: Config, u: State, i: Inputs)
    requires cfg.Valid() && Sized(cfg, u)
    ensures EndsAs(cfg, u, Act(cfg, u, i).0, Act(cfg, u, i).1)
  {
  }

  ghost predicate SameEpoch(cfg: Config, s: State, u: State) {
    && u.session.activePolicy == cfg.kind && u.session.epoch >= s.session.epoch
    && u.mode == s.mode && u.joints == s.joints && (cfg.kind != DOWN ==> u.damping == s.damping)
  }

  lemma ActingStays(cfg: Config, s: State, i: Inputs)
    requires cfg.Valid() && Sized(cfg, s)
    ensures var (fires, u) := Ticked(cfg, EnterMode(cfg, s, i), i);
      SameEpoch(cfg, s, EnterMode(cfg, s, i)) && SameEpoch(cfg, s, u) && SameEpoch(cfg, s, Answering(cfg, fires, u, i))
  {
    var (fires, u) := Ticked(cfg, EnterMode(cfg, s, i), i);
    AnsweringFrame(cfg, fires, u, i);
  }

  lemma CycleEnds(cfg: Config, s: State, i: Inputs)
    requires cfg.Valid() && Sized(cfg, s)
    ensures exists u :: SameEpoch(cfg, s, u) && EndsAs(cfg, u, PolicyCycle(cfg, s, i).0, PolicyCycle(cfg, s, i).1)
  {
    ActingStays(cfg, s, i);
    CycleActs(cfg, s, i);
    ActEnds(cfg, Acting(cfg, s, i), i);
    var e := EnterMode(cfg, s, i);
    var (fires, u) := Ticked(cfg, e, i);
    if cfg.kind != WALK && CompletionDue(e, i.nowNs) {
      assert PolicyCycle(cfg, s, i).0 == Complete(cfg, e, i);
      assert EndsAs(cfg, e, PolicyCycle(cfg, s, i).0, PolicyCycle(cfg, s, i).1);
    } else if fires && !i.observationOk {
      assert EndsAs(cfg, u, PolicyCycle(cfg, s, i).0, PolicyCycle(cfg, s, i).1);
    } else {
      assert PolicyCycle(cfg, s, i) == Act(cfg, Acting(cfg, s, i), i);
    }
  }

  lemma ActSizes(cfg: Config, u: State, i: Inputs)
    requires cfg.Valid() && Sized(cfg, u)
    ensures Sized(cfg, Act(cfg, u, i).0)
  {
  }

  /** No call changes the number of actions or joints. */
  lemma CycleSizes(cfg: Config, s: State, i: Inputs)
    requires cfg.Valid() && Sized(cfg, s)
    ensures Sized(cfg, PolicyCycle(cfg, s, i).0)
  {
    ActingIsSized(cfg, s, i);
    ActSizes(cfg, Acting(cfg, s, i), i);
    var e := EnterMode(cfg, s, i);
    var (fires, u) := Ticked(cfg, e, i);
    if (cfg.kind == WALK || !CompletionDue(e, i.nowNs)) && !(fires && !i.observationOk) {
      assert PolicyCycle(cfg, s, i) == Act(cfg, Acting(cfg, s, i), i);
    }
  }

  /** A call that leaves the policy abandons its epoch; by a fault it also goes to
      DEFAULT with the DEFAULT command everywhere, by completion it never does: DANCE
      and UP go to WALK with their last command, DOWN stays and remembers it. */
  lemma LeavingAbandonsTheEpoch(cfg: Config, s: State, i: Inputs)
    requires cfg.Valid() && Sized(cfg, s)
    ensures var (t, outcome) := PolicyCycle(cfg, s, i);
      && outcome != Holds && |t.joints| == |s.joints|
      && (outcome != Continues ==> t.session.activePolicy == NONE && t.session.epoch > s.session.epoch)
      && (outcome == Faults ==> t.mode == Default && t.joints == DefaultCommands(|s.joints|))
      && (outcome == Completes ==>
            if cfg.kind == DOWN then t.damping && t.mode == s.mode else t.mode == Walk && t.joints == s.joints)
      && (outcome == Continues ==> t.mode == s.mode && t.session.activePolicy == cfg.kind)
  {
    CycleEnds(cfg, s, i);
    CycleSizes(cfg, s, i);
  }
}

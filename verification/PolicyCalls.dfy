/**
 One call of a policy handler, from its inputs: whether it completes, faults or goes on,
 whether it submits an observation, and whether it applies the packet it finds.
 */
module PolicyCalls {
  import opened Common
  import opened PolicySession
  import opened PolicyPlaybackClock
  import opened ControlStateMachine
  import opened RLControllerBase
  import opened PolicyHandlers
  import opened PolicyHandlersSafety
  import opened PolicyEpisodes
  import opened TransitionValues

  /** The motion's end has been submitted, its answer applied, and its last period is
      over. */
  predicate IsDue(cfg: Config, e: State, nowNs: int) {
    && cfg.kind != WALK && e.playback.endPending && e.playback.finalSequence > 0
    && e.session.lastAppliedSequence >= e.playback.finalSequence && nowNs >= e.playback.completionNotBeforeNs
  }

  /** A policy tick: the clock fires, and the end of a motion has not been seen. */
  predicate Ticks(cfg: Config, e: State, nowNs: int)
    requires cfg.periodNs > 0
  {
    (cfg.kind == WALK || !e.playback.endPending) && Polled(e.playback.clock, cfg.periodNs, nowNs)
  }

  /** The session in which the packet is looked at: after this call's own submission. */
  function SubmittedIn(cfg: Config, e: State, i: Inputs): Session
    requires cfg.periodNs > 0
  {
    e.session.(observationSequence := e.session.observationSequence + if Ticks(cfg, e, i.nowNs) then 1 else 0)
  }

  /** Synchronous inference answers a submission at once and nothing else; asynchronous
      inference leaves its answers in a mailbox that every call looks into. */
  predicate Applies(cfg: Config, e: State, i: Inputs)
    requires cfg.periodNs > 0
  {
    && i.packet.Some? && (cfg.asynchronous || Ticks(cfg, e, i.nowNs))
    && PassesTests(cfg, SubmittedIn(cfg, e, i), i.packet.value, i.consumedNs)
  }

  function ActionsIn(cfg: Config, e: State, i: Inputs): seq<Float>
    requires cfg.periodNs > 0
  {
    if Applies(cfg, e, i) then i.packet.value.actions[..cfg.Dof()] else e.actions
  }

  /** The observation the commands rest on, or the entry if there is none, is older than
      the timeout, which zero turns off. */
  predicate TooLate(cfg: Config, e: State, i: Inputs)
    requires cfg.periodNs > 0
  {
    var observedNs := if Applies(cfg, e, i) then i.packet.value.observationTimestampNs else e.session.lastAppliedObservationNs;
    var sinceNs := if observedNs != 0 then observedNs else e.session.policyEntryNs;
    cfg.timeoutMs > 0 && sinceNs != 0 && i.timeoutNs - sinceNs > cfg.timeoutMs * 1000000
  }

  predicate NoObservation(cfg: Config, e: State, i: Inputs)
    requires cfg.periodNs > 0
  {
    Ticks(cfg, e, i.nowNs) && !i.observationOk
  }

  predicate Unusable(actions: seq<Float>) {
    exists k :: 0 <= k < |actions| && actions[k] == NonFinite
  }

  lemma TickedExactly(cfg: Config, e: State, i: Inputs)
    requires cfg.Valid() && Timed(i) && Running(cfg, e.playback.clock)
    ensures var (fires, u) := Ticked(cfg, e, i);
      && (fires <==> Ticks(cfg, e, i.nowNs))
      && u == e.(playback := e.playback.(clock := u.playback.clock))
  {
    TakeRefinesRule(e.playback.clock, cfg.periodNs, i.nowNs);
  }

  /** Where a call that neither completes nor lacks its observation acts from. */
  lemma ActingExactly(cfg: Config, s: State, i: Inputs)
    requires cfg.Valid() && Sized(cfg, s) && Timed(i) && Running(cfg, EnterMode(cfg, s, i).playback.clock)
    ensures var (e, u) := (EnterMode(cfg, s, i), Acting(cfg, s, i));
      && u.actions == ActionsIn(cfg, e, i)
      && u.session == (if Applies(cfg, e, i)
                       then SubmittedIn(cfg, e, i).(lastAppliedSequence := i.packet.value.sourceSequence,
                                                    lastAppliedObservationNs := i.packet.value.observationTimestampNs)
                       else SubmittedIn(cfg, e, i))
      && u.blend == e.blend && u.mode == e.mode && u.damping == e.damping
  {
    var e := EnterMode(cfg, s, i);
    TickedExactly(cfg, e, i);
    var (fires, u) := Ticked(cfg, e, i);
    AnsweringFrame(cfg, fires, u, i);
    AnsweredExactly(cfg, fires, u, i);
  }

  lemma AnsweredExactly(cfg: Config, fires: bool, s: State, i: Inputs)
    requires cfg.Valid() && Sized(cfg, s)
    ensures var c := s.session.(observationSequence := s.session.observationSequence + if fires then 1 else 0);
      var u := Answering(cfg, fires, s, i);
      if i.packet.Some? && (cfg.asynchronous || fires) && PassesTests(cfg, c, i.packet.value, i.consumedNs)
      then u.actions == i.packet.value.actions[..cfg.Dof()]
           && u.session == c.(lastAppliedSequence := i.packet.value.sourceSequence,
                              lastAppliedObservationNs := i.packet.value.observationTimestampNs)
      else u.actions == s.actions && u.session == c
  {
    var t := if fires then Submitted(s, i) else s;
    PacketsAreAppliedExactly(cfg, t, i);
    PacketsAreAppliedExactly(cfg, EndSeen(cfg, t, i.nowNs), i);
  }

  lemma ActExactly(cfg: Config, u: State, i: Inputs)
    requires cfg.Valid() && Sized(cfg, u)
    ensures var (t, outcome) := Act(cfg, u, i);
      && (outcome == Faults <==> Unusable(u.actions) || TimedOut(u.session, i.timeoutNs, cfg.timeoutMs))
      && (outcome == Faults || outcome == Continues)
      && (outcome == Continues ==> t.session == u.session && t.mode == u.mode && t.damping == u.damping)
  {
    if !AllFinite(u.actions) {
      var k :| 0 <= k < |u.actions| && !u.actions[k].Finite?;
      assert u.actions[k] == NonFinite;
    }
  }

  lemma LateExactly(cfg: Config, s: State, i: Inputs)
    requires cfg.Valid() && Sized(cfg, s) && Timed(i) && Running(cfg, EnterMode(cfg, s, i).playback.clock)
    ensures TimedOut(Acting(cfg, s, i).session, i.timeoutNs, cfg.timeoutMs) <==> TooLate(cfg, EnterMode(cfg, s, i), i)
  {
    ActingExactly(cfg, s, i);
  }

  /** A call completes exactly when it is due, otherwise faults exactly when it needs an
      observation it cannot have, an action it would command is not a number, or what it
      acts on is too old, and otherwise goes on: with one more submission at a tick, and
      with the packet applied if and only if it passes the tests. */
  lemma CallsExactly(cfg: Config, s: State, i: Inputs)
    requires cfg.Valid() && Sized(cfg, s) && Timed(i) && Running(cfg, EnterMode(cfg, s, i).playback.clock)
    ensures var (e, (t, outcome)) := (EnterMode(cfg, s, i), PolicyCycle(cfg, s, i));
      && (outcome == Completes <==> IsDue(cfg, e, i.nowNs))
      && (outcome == Faults <==> !IsDue(cfg, e, i.nowNs)
                                 && (NoObservation(cfg, e, i) || Unusable(ActionsIn(cfg, e, i)) || TooLate(cfg, e, i)))
      && outcome != Holds
      && (outcome == Continues ==>
            && t.mode == s.mode && t.damping == e.damping
            && t.session == if Applies(cfg, e, i)
                            then SubmittedIn(cfg, e, i).(lastAppliedSequence := i.packet.value.sourceSequence,
                                                         lastAppliedObservationNs := i.packet.value.observationTimestampNs)
                            else SubmittedIn(cfg, e, i))
  {
    var e := EnterMode(cfg, s, i);
    CompletesOnlyWhenDue(cfg, s, i);
    ActingExactly(cfg, s, i);
    ActingIsSized(cfg, s, i);
    LateExactly(cfg, s, i);
    ActExactly(cfg, Acting(cfg, s, i), i);
    TickedExactly(cfg, e, i);
    CycleExactly(cfg, s, i);
  }

  lemma CycleExactly(cfg: Config, s: State, i: Inputs)
    requires cfg.Valid() && Sized(cfg, s) && Sized(cfg, Acting(cfg, s, i))
    ensures var e := EnterMode(cfg, s, i);
      var (fires, u) := Ticked(cfg, e, i);
      PolicyCycle(cfg, s, i) == if cfg.kind != WALK && CompletionDue(e, i.nowNs) then (Complete(cfg, e, i), Completes)
                                else if fires && !i.observationOk then (Fault(u), Faults)
                                else Act(cfg, Acting(cfg, s, i), i)
  {
  }

  /** In an episode the clock runs, so this is what every call of it does. */
  lemma EpisodesRunTheClock(cfg: Config, start: int, ss: seq<State>, ii: seq<Inputs>, i: Inputs)
    requires Episode(cfg, start, ss, ii) && Follows(cfg, Last(ss), i, HorizonAt(start, ii, |ii|))
    ensures Timed(i) && Running(cfg, EnterMode(cfg, Last(ss), i).playback.clock)
  {
    EpisodeKeeps(cfg, start, ss, ii, |ii|);
    EnteringStarts(cfg, Last(ss), i, HorizonAt(start, ii, |ii|));
  }
}

/**
 What each call of the control thread has done when it returns, in every interleaving:
 one submission with the right names, one packet consumed and applied exactly when it
 passes every test, one new epoch at a start or a stop.
 */
module AsyncInferenceCalls {
  import opened Common
  import opened LatestTripleBuffer
  import opened PolicySession
  import opened AsyncInference
  import opened AsyncInferenceSafety

  // ---------------------------------------------------------------------------
  // What a finished call has done
  // ---------------------------------------------------------------------------

  /** What only the control thread writes, beside its program counter. */
  ghost predicate SameRecords(s: Sys, t: Sys) {
    && t.session == s.session && t.submitted == s.submitted && t.applied == s.applied
    && t.destination == s.destination && t.observationGeneration == s.observationGeneration
  }

  /** `sub` is what was asked for, named after the session of the call. */
  ghost predicate NamedAfter(s: Sys, policy: PolicyKind, input: seq<Float>, sub: Submission) {
    && sub.policy == policy && sub.input == input
    && sub.epoch == s.session.epoch && sub.sequence == s.session.observationSequence + 1
  }

  ghost predicate SubmitDone(cfg: Config, policy: PolicyKind, input: seq<Float>, s: Sys, t: Sys) {
    if |input| > cfg.observationCapacity then SameRecords(s, t)
    else
      && |t.submitted| == |s.submitted| + 1 && Front(t.submitted) == s.submitted
      && NamedAfter(s, policy, input, Last(t.submitted)) && s.now <= Last(t.submitted).timestampNs <= t.now
      && t.session == s.session.(observationSequence := s.session.observationSequence + 1)
      && t.applied == s.applied && t.destination == s.destination
      && t.observationGeneration == s.observationGeneration + 1 && t.wakeGeneration > s.wakeGeneration
  }

  /** The packet passes, in the session of the call, every test at time `nowNs`; with a
      timeout of zero milliseconds no age is too old. */
  predicate Passes(cfg: Config, c: Session, expected: PolicyKind, destination: map<PolicyKind, seq<Float>>,
                   r: ActionPacket, nowNs: int) {
    && r.valid && r.epoch == c.epoch && r.policy == expected && r.sourceSequence > c.lastAppliedSequence
    && (cfg.timeoutMs > 0 ==> nowNs - r.observationTimestampNs <= cfg.timeoutMs * 1000000)
    && expected in destination && r.size == |destination[expected]| && r.size <= |r.actions|
  }

  ghost predicate AppliedWhole(s: Sys, expected: PolicyKind, r: ActionPacket, consumedNs: int, t: Sys)
    requires r.size <= |r.actions|
  {
    && t.destination == s.destination[expected := r.actions[..r.size]]
    && t.session == s.session.(lastAppliedSequence := r.sourceSequence,
                               lastAppliedObservationNs := r.observationTimestampNs)
    && t.applied == s.applied + [Application(expected, r.epoch, r.sourceSequence, r.observationTimestampNs,
                                             consumedNs, r.actions[..r.size])]
    && t.submitted == s.submitted && t.observationGeneration == s.observationGeneration
  }

  /** Nothing was taken and nothing changed; or one packet was taken, the last one
      published at that moment, and applied exactly if it passes the tests, at a time
      between the call and its return. */
  ghost predicate ConsumeDone(cfg: Config, expected: PolicyKind, s: Sys, t: Sys) {
    if t.actions.taken == s.actions.taken then SameRecords(s, t)
    else
      && |t.actions.taken| == |s.actions.taken| + 1 && Front(t.actions.taken) == s.actions.taken
      && 0 <= Last(t.actions.taken) < |t.actions.published|
      && exists consumedNs :: ConsumedAt(cfg, expected, s, t.actions.published[Last(t.actions.taken)], consumedNs, t)
  }

  ghost predicate ConsumedAt(cfg: Config, expected: PolicyKind, s: Sys, r: ActionPacket, consumedNs: int, t: Sys) {
    && s.now <= consumedNs <= t.now
    && if Passes(cfg, s.session, expected, s.destination, r, consumedNs)
       then AppliedWhole(s, expected, r, consumedNs, t) else SameRecords(s, t)
  }

  ghost predicate StartingDone(s: Sys, t: Sys) {
    && t.session == Session(NONE, s.session.epoch + 1, 0, 0, 0, 0)
    && (t.active || t.stopper != NotStopping) && t.wakeGeneration > s.wakeGeneration
    && t.submitted == s.submitted && t.applied == s.applied && t.destination == s.destination
  }

  ghost predicate StoppingDone(s: Sys, t: Sys) {
    && t.session == s.session.(activePolicy := NONE, epoch := s.session.epoch + 1)
    && !t.active && t.wakeGeneration > s.wakeGeneration
    && t.submitted == s.submitted && t.applied == s.applied && t.destination == s.destination
  }

  /** Entering another policy opens an epoch with its own clock; leaving one as well. */
  ghost predicate EnterDone(s: Sys, policy: PolicyKind, t: Sys) {
    && t.session == (if s.session.activePolicy == policy then s.session
                     else Session(policy, s.session.epoch + 1, s.session.observationSequence, 0, s.now, 0))
    && t.submitted == s.submitted && t.applied == s.applied && t.destination == s.destination
  }

  ghost predicate LeaveDone(s: Sys, t: Sys) {
    && t.session == (if s.session.activePolicy == NONE then s.session
                     else Session(NONE, s.session.epoch + 1, s.session.observationSequence, 0, 0, 0))
    && t.submitted == s.submitted && t.applied == s.applied && t.destination == s.destination
  }

  ghost predicate Done(cfg: Config, call: Call, s: Sys, t: Sys) {
    match call
    case Submit(policy, input) => SubmitDone(cfg, policy, input, s, t)
    case Consume(expected) => ConsumeDone(cfg, expected, s, t)
    case EnterPolicy(policy) => EnterDone(s, policy, t)
    case LeavePolicy => LeaveDone(s, t)
    case Starting => StartingDone(s, t)
    case Stopping => StoppingDone(s, t)
    case Rewrite(kind, values) => t.destination == s.destination[kind := values] && t.session == s.session
  }

  // ---------------------------------------------------------------------------
  // A call under way
  // ---------------------------------------------------------------------------

  predicate HasEpoch(stage: SubmitStage) {
    !stage.StoringPolicy? && !stage.StoringEpoch?
  }

  predicate HasStamp(stage: SubmitStage) {
    stage.StoringSize? || stage.StoringData? || stage.Publishing?
  }

  ghost predicate SubmitsAt(policy: PolicyKind, input: seq<Float>, s: Sys, t: Sys, stage: SubmitStage, sub: Submission) {
    && sub.policy == policy && sub.input == input
    && (HasEpoch(stage) ==> sub.epoch == s.session.epoch)
    && (HasSequence(stage) ==> sub.sequence == s.session.observationSequence + 1)
    && (HasStamp(stage) ==> s.now <= sub.timestampNs <= t.now)
    && t.session == s.session.(observationSequence := s.session.observationSequence + if HasSequence(stage) then 1 else 0)
    && t.submitted == s.submitted && t.applied == s.applied && t.destination == s.destination
    && t.observationGeneration == s.observationGeneration
  }

  ghost predicate SubmittedAt(policy: PolicyKind, input: seq<Float>, s: Sys, t: Sys, stage: NotifyStage) {
    && |t.submitted| == |s.submitted| + 1 && Front(t.submitted) == s.submitted
    && NamedAfter(s, policy, input, Last(t.submitted)) && s.now <= Last(t.submitted).timestampNs <= t.now
    && t.session == s.session.(observationSequence := s.session.observationSequence + 1)
    && t.applied == s.applied && t.destination == s.destination
    && t.observationGeneration == s.observationGeneration + (if stage.AdvancingWake? || stage.Waking? then 1 else 0)
    && (stage.Waking? ==> t.wakeGeneration > s.wakeGeneration)
    && (stage.CountingOverwrite? || stage.AdvancingObservation? || stage == AdvancingWake(NewObservation)
        || stage == Waking(NewObservation))
  }

  ghost predicate SubmitUnderWay(cfg: Config, policy: PolicyKind, input: seq<Float>, s: Sys, t: Sys) {
    && |input| <= cfg.observationCapacity && s.wakeGeneration <= t.wakeGeneration
    && match t.control
       case Submitting(stage, sub) => SubmitsAt(policy, input, s, t, stage, sub)
       case Notifying(stage) => SubmittedAt(policy, input, s, t, stage)
       case _ => false
  }

  ghost predicate TookOne(s: Sys, t: Sys) {
    && |t.actions.taken| == |s.actions.taken| + 1 && Front(t.actions.taken) == s.actions.taken
  }

  ghost predicate CopiesAt(cfg: Config, expected: PolicyKind, s: Sys, t: Sys, consumedNs: int, i: nat)
    requires t.Owned()
  {
    var r := t.Received();
    && TookOne(s, t) && s.now <= consumedNs <= t.now
    && Passes(cfg, s.session, expected, s.destination, r, consumedNs)
    && t.session == s.session && t.submitted == s.submitted && t.applied == s.applied
    && t.observationGeneration == s.observationGeneration
    && i <= r.size
    && t.destination == s.destination[expected := r.actions[..i] + s.destination[expected][i..]]
  }

  ghost predicate ConsumeUnderWay(cfg: Config, expected: PolicyKind, s: Sys, t: Sys)
    requires t.Owned()
  {
    && t.control.Consuming? && t.control.expected == expected
    && match t.control.consume
       case Copying(consumedNs, i) => CopiesAt(cfg, expected, s, t, consumedNs, i)
       case Checking => TookOne(s, t) && SameRecords(s, t)
       case _ => t.actions.taken == s.actions.taken && SameRecords(s, t)
  }

  ghost predicate StartUnderWay(s: Sys, t: Sys) {
    && t.control.Notifying? && s.wakeGeneration <= t.wakeGeneration
    && t.submitted == s.submitted && t.applied == s.applied && t.destination == s.destination
    && match t.control.notify
       case StartOff => t.session == s.session
       case StartEpoch => t.session == s.session && !t.active
       case StartOn => t.session == Session(NONE, s.session.epoch + 1, 0, 0, 0, 0) && !t.active
       case AdvancingWake(why) =>
         && why == Started && t.session == Session(NONE, s.session.epoch + 1, 0, 0, 0, 0)
         && (t.active || t.stopper != NotStopping)
       case Waking(why) => why == Started && StartingDone(s, t)
       case _ => false
  }

  ghost predicate StopUnderWay(s: Sys, t: Sys) {
    && t.control.Notifying? && s.wakeGeneration <= t.wakeGeneration && t.session == s.session
    && t.submitted == s.submitted && t.applied == s.applied && t.destination == s.destination
    && match t.control.notify
       case StopOff => true
       case AdvancingWake(why) => why == Stopped && !t.active
       case Waking(why) => why == Stopped && !t.active && t.wakeGeneration > s.wakeGeneration
       case StopEpoch => !t.active && t.wakeGeneration > s.wakeGeneration
       case _ => false
  }

  ghost predicate UnderWay(cfg: Config, call: Call, s: Sys, t: Sys)
    requires t.Owned()
  {
    match call
    case Submit(policy, input) => SubmitUnderWay(cfg, policy, input, s, t)
    case Consume(expected) => ConsumeUnderWay(cfg, expected, s, t)
    case Starting => StartUnderWay(s, t)
    case Stopping => StopUnderWay(s, t)
    case _ => false
  }

  ghost predicate Onward(cfg: Config, call: Call, s: Sys, t: Sys)
    requires t.Owned()
  {
    if t.control.Ready? then Done(cfg, call, s, t) else UnderWay(cfg, call, s, t)
  }

  // ---------------------------------------------------------------------------
  // Every step of it
  // ---------------------------------------------------------------------------

  lemma CallBegins(cfg: Config, s: Sys, call: Call)
    requires Inv(cfg, s) && s.control == Ready
    ensures BeginCall(s, call).Owned() && Onward(cfg, call, s, BeginCall(s, call))
  {
    assert |s.Draft().data| == cfg.observationCapacity;
  }

  lemma StoringGoesOn(cfg: Config, policy: PolicyKind, input: seq<Float>, s: Sys, t: Sys)
    requires t.Owned() && SubmitUnderWay(cfg, policy, input, s, t) && s.now <= t.now
    requires t.control.Submitting? && !t.control.submit.Publishing? && !t.control.submit.StoringData?
    ensures SubmitUnderWay(cfg, policy, input, s, SubmitStep(t, t.control.submit, t.control.sub))
  {
  }

  lemma SubmitGoesOn(cfg: Config, policy: PolicyKind, input: seq<Float>, s: Sys, t: Sys)
    requires t.Owned() && SubmitUnderWay(cfg, policy, input, s, t) && t.control.Submitting? && s.now <= t.now
    ensures SubmitUnderWay(cfg, policy, input, s, SubmitStep(t, t.control.submit, t.control.sub))
  {
    if !t.control.submit.Publishing? && !t.control.submit.StoringData? { StoringGoesOn(cfg, policy, input, s, t); }
  }

  lemma SubmissionNotifies(cfg: Config, policy: PolicyKind, input: seq<Float>, s: Sys, t: Sys)
    requires SubmitUnderWay(cfg, policy, input, s, t) && t.control.Notifying?
    ensures var u := NotifyStep(t, t.control.notify);
      if u.control.Ready? then SubmitDone(cfg, policy, input, s, u) else SubmitUnderWay(cfg, policy, input, s, u)
  {
  }

  lemma StartGoesOn(s: Sys, t: Sys)
    requires StartUnderWay(s, t)
    ensures var u := NotifyStep(t, t.control.notify); if u.control.Ready? then StartingDone(s, u) else StartUnderWay(s, u)
  {
  }

  lemma StopGoesOn(s: Sys, t: Sys)
    requires StopUnderWay(s, t)
    ensures var u := NotifyStep(t, t.control.notify); if u.control.Ready? then StoppingDone(s, u) else StopUnderWay(s, u)
  {
  }

  lemma LookingGoesOn(cfg: Config, expected: PolicyKind, s: Sys, t: Sys, spurious: bool)
    requires Inv(cfg, t) && ConsumeUnderWay(cfg, expected, s, t)
    requires t.control.consume.LoadingActions? || t.control.consume.SwappingActions?
    ensures var u := ConsumeStep(cfg, t, t.control.consume, expected, spurious);
      && u.Owned()
      && if u.control.Ready? then u.actions.taken == s.actions.taken && SameRecords(s, u)
         else ConsumeUnderWay(cfg, expected, s, u)
  {
  }

  lemma CheckGoesOn(cfg: Config, expected: PolicyKind, s: Sys, t: Sys)
    requires Inv(cfg, t) && ConsumeUnderWay(cfg, expected, s, t) && t.control.consume.Checking? && s.now <= t.now
    ensures var u := ConsumeStep(cfg, t, Checking, expected, false);
      u.Owned() && if u.control.Ready? then ConsumeDone(cfg, expected, s, u) else ConsumeUnderWay(cfg, expected, s, u)
  {
    var u, r := ConsumeStep(cfg, t, Checking, expected, false), t.Received();
    assert r == t.actions.published[Last(t.actions.taken)];
    assert u.control.Ready? <==> !Passes(cfg, s.session, expected, s.destination, r, t.now);
    if u.control.Ready? {
      assert ConsumedAt(cfg, expected, s, r, t.now, u);
    } else {
      assert r.actions[..0] + s.destination[expected][0..] == s.destination[expected];
    }
  }

  lemma CopyGoesOn(cfg: Config, expected: PolicyKind, s: Sys, t: Sys)
    requires Inv(cfg, t) && ConsumeUnderWay(cfg, expected, s, t) && t.control.consume.Copying?
    ensures var u := ConsumeStep(cfg, t, t.control.consume, expected, false);
      u.Owned() && if u.control.Ready? then ConsumeDone(cfg, expected, s, u) else ConsumeUnderWay(cfg, expected, s, u)
  {
    var u, r := ConsumeStep(cfg, t, t.control.consume, expected, false), t.Received();
    var i, old' := t.control.consume.i, s.destination[expected];
    var held := r.actions[..i] + old'[i..];
    assert t.destination[expected] == held && |held| == r.size;
    if i < r.size {
      assert held[i := r.actions[i]] == r.actions[..i + 1] + old'[i + 1..];
    } else {
      assert held == r.actions[..r.size];
      assert r == t.actions.published[Last(t.actions.taken)];
      assert ConsumedAt(cfg, expected, s, r, t.control.consume.consumedNs, u);
    }
  }

  /** What the other threads leave alone during a call. */
  ghost predicate Elsewhere(t: Sys, u: Sys)
    requires t.Owned()
  {
    && u.Owned() && u.control == t.control && SameRecords(t, u) && t.now <= u.now
    && u.actions.taken == t.actions.taken && u.Received() == t.Received()
    && t.wakeGeneration <= u.wakeGeneration && t.actions.published <= u.actions.published
    && (u.active == t.active || (!u.active && u.stopper != NotStopping))
    && (t.stopper != NotStopping ==> u.stopper != NotStopping)
  }

  lemma StoredResultIsElsewhere(t: Sys, p: ActionPacket, next: InferStage)
    requires t.Owned()
    ensures Elsewhere(t, t.StoreResult(p, next))
  {
  }

  lemma InferIsElsewhere(cfg: Config, t: Sys, stage: InferStage, terminated: bool)
    requires t.Owned()
    ensures Elsewhere(t, InferStep(cfg, t, stage, terminated))
  {
    var u := InferStep(cfg, t, stage, terminated);
    if u.actions != t.actions && !stage.PublishingAction? {
      StoredResultIsElsewhere(t, u.actions.slots[t.actions.back], u.worker.infer);
    }
  }

  lemma PollIsElsewhere(t: Sys, stage: PollStage, spurious: bool)
    requires t.Owned()
    ensures Elsewhere(t, PollStep(t, stage, spurious))
  {
  }

  lemma WorkerIsElsewhere(cfg: Config, t: Sys, spurious: bool, terminated: bool)
    requires t.Owned()
    ensures Elsewhere(t, WorkerStep(cfg, t, spurious, terminated))
  {
    match t.worker
    case Inferring(stage) => InferIsElsewhere(cfg, t, stage, terminated);
    case Polling(stage) => PollIsElsewhere(t, stage, spurious);
    case _ =>
  }

  lemma OthersAreElsewhere(cfg: Config, t: Sys, step: Step)
    requires t.Owned() && !step.ControlMoves?
    ensures Elsewhere(t, Do(cfg, t, step))
  {
    if step.WorkerMoves? { WorkerIsElsewhere(cfg, t, step.spurious, step.terminated); }
  }

  lemma ElsewhereKeepsCall(cfg: Config, call: Call, s: Sys, t: Sys, u: Sys)
    requires t.Owned() && !t.control.Ready? && UnderWay(cfg, call, s, t) && Elsewhere(t, u)
    ensures UnderWay(cfg, call, s, u)
  {
  }

  lemma ConsumeGoesOn(cfg: Config, expected: PolicyKind, s: Sys, t: Sys, spurious: bool)
    requires Inv(cfg, t) && ConsumeUnderWay(cfg, expected, s, t) && s.now <= t.now
    ensures var u := ConsumeStep(cfg, t, t.control.consume, expected, spurious);
      u.Owned() && if u.control.Ready? then ConsumeDone(cfg, expected, s, u) else ConsumeUnderWay(cfg, expected, s, u)
  {
    match t.control.consume
    case Copying(_, _) => CopyGoesOn(cfg, expected, s, t);
    case Checking => CheckGoesOn(cfg, expected, s, t);
    case _ => LookingGoesOn(cfg, expected, s, t, spurious);
  }

  lemma SubmissionGoesOn(cfg: Config, policy: PolicyKind, input: seq<Float>, s: Sys, t: Sys, next: Call, spurious: bool)
    requires t.Owned() && SubmitUnderWay(cfg, policy, input, s, t) && s.now <= t.now
    ensures var u := ControlStep(cfg, t, next, spurious);
      u.Owned() && if u.control.Ready? then SubmitDone(cfg, policy, input, s, u) else SubmitUnderWay(cfg, policy, input, s, u)
  {
    if t.control.Submitting? { SubmitGoesOn(cfg, policy, input, s, t); }
    else { SubmissionNotifies(cfg, policy, input, s, t); }
  }

  lemma ControlGoesOn(cfg: Config, call: Call, s: Sys, t: Sys, next: Call, spurious: bool)
    requires Inv(cfg, t) && !t.control.Ready? && UnderWay(cfg, call, s, t) && s.now <= t.now
    ensures var u := ControlStep(cfg, t, next, spurious); u.Owned() && Onward(cfg, call, s, u)
  {
    match call
    case Submit(policy, input) => SubmissionGoesOn(cfg, policy, input, s, t, next, spurious);
    case Consume(expected) => ConsumeGoesOn(cfg, expected, s, t, spurious);
    case Starting => StartGoesOn(s, t);
    case Stopping => StopGoesOn(s, t);
    case _ =>
  }

  // ---------------------------------------------------------------------------
  // Over runs
  // ---------------------------------------------------------------------------

  /** Step `a` makes the call, and it has not returned before `b`. */
  ghost predicate Calls(states: seq<Sys>, steps: seq<Step>, call: Call, a: nat, b: nat) {
    && |states| == |steps| + 1 && a < b < |states|
    && states[a].control == Ready && steps[a].ControlMoves? && steps[a].call == call
    && forall k :: a < k < b ==> !states[k].control.Ready?
  }

  lemma RunStep(cfg: Config, states: seq<Sys>, steps: seq<Step>, n: nat)
    requires Run(cfg, states, steps) && n < |steps|
    ensures Inv(cfg, states[n]) && Inv(cfg, states[n + 1]) && states[n + 1] == Do(cfg, states[n], steps[n])
  {
    RunKeeps(cfg, states, steps, n);
    RunKeeps(cfg, states, steps, n + 1);
  }

  lemma TimePasses(cfg: Config, s: Sys, step: Step)
    requires s.Owned()
    ensures s.now <= Do(cfg, s, step).now
  {
    if step.ControlMoves? { ControlKeepsTime(cfg, s, step.call, step.spurious); } else { OthersAreElsewhere(cfg, s, step); }
  }

  lemma SubmitKeepsTime(s: Sys, stage: SubmitStage, sub: Submission)
    requires s.Owned()
    ensures SubmitStep(s, stage, sub).now == s.now
  {
  }

  lemma ControlKeepsTime(cfg: Config, s: Sys, call: Call, spurious: bool)
    requires s.Owned()
    ensures ControlStep(cfg, s, call, spurious).now == s.now
  {
    if s.control.Submitting? { SubmitKeepsTime(s, s.control.submit, s.control.sub); }
  }

  lemma CallStep(cfg: Config, call: Call, s: Sys, t: Sys, step: Step)
    requires Inv(cfg, t) && !t.control.Ready? && UnderWay(cfg, call, s, t) && s.now <= t.now
    ensures var u := Do(cfg, t, step); u.Owned() && Onward(cfg, call, s, u) && s.now <= u.now
  {
    TimePasses(cfg, t, step);
    if step.ControlMoves? {
      ControlGoesOn(cfg, call, s, t, step.call, step.spurious);
    } else {
      OthersAreElsewhere(cfg, t, step);
      ElsewhereKeepsCall(cfg, call, s, t, Do(cfg, t, step));
    }
  }

  /** Between the call from `s` and its return. */
  ghost predicate Reached(cfg: Config, call: Call, s: Sys, t: Sys) {
    t.Owned() && Onward(cfg, call, s, t) && s.now <= t.now
  }

  lemma CallStarts(cfg: Config, states: seq<Sys>, steps: seq<Step>, call: Call, a: nat)
    requires Run(cfg, states, steps) && Calls(states, steps, call, a, a + 1)
    ensures Reached(cfg, call, states[a], states[a + 1])
  {
    RunStep(cfg, states, steps, a);
    CallBegins(cfg, states[a], call);
    TimePasses(cfg, states[a], steps[a]);
  }

  lemma CallContinues(cfg: Config, states: seq<Sys>, steps: seq<Step>, call: Call, s: Sys, n: nat)
    requires Run(cfg, states, steps) && n < |steps| && !states[n].control.Ready? && Reached(cfg, call, s, states[n])
    ensures Reached(cfg, call, s, states[n + 1])
  {
    RunStep(cfg, states, steps, n);
    CallStep(cfg, call, s, states[n], steps[n]);
  }

  lemma {:induction false} CallGoesOn(cfg: Config, states: seq<Sys>, steps: seq<Step>, call: Call, a: nat, b: nat)
    requires Run(cfg, states, steps) && Calls(states, steps, call, a, b)
    ensures Reached(cfg, call, states[a], states[b])
    decreases b
  {
    if b == a + 1 {
      CallStarts(cfg, states, steps, call, a);
    } else {
      CallGoesOn(cfg, states, steps, call, a, b - 1);
      CallContinues(cfg, states, steps, call, states[a], b - 1);
    }
  }

  /** In every interleaving, a call that has returned has done exactly this. */
  lemma CallsDoWhatTheySay(cfg: Config, states: seq<Sys>, steps: seq<Step>, call: Call, a: nat, b: nat)
    requires Run(cfg, states, steps) && Calls(states, steps, call, a, b) && states[b].control == Ready
    ensures Done(cfg, call, states[a], states[b])
  {
    CallGoesOn(cfg, states, steps, call, a, b);
  }

  /** A start resets the session only while control is inactive, so that nothing the
      worker takes meanwhile is run. */
  lemma StartsResetInactive(cfg: Config, states: seq<Sys>, steps: seq<Step>, a: nat, n: nat)
    requires Run(cfg, states, steps) && Calls(states, steps, Starting, a, n) && !states[n].control.Ready?
    ensures states[n].control == Notifying(StartEpoch) || states[n].control == Notifying(StartOn) ==> !states[n].active
  {
    CallGoesOn(cfg, states, steps, Starting, a, n);
  }

  /** Notifications are counted one by one, so a lap of the futex word takes 2^32. */
  lemma NotificationsAreCounted(cfg: Config, s: Sys, step: Step)
    requires s.Owned()
    ensures s.wakeGeneration <= Do(cfg, s, step).wakeGeneration <= s.wakeGeneration + 1
    ensures s.observationGeneration <= Do(cfg, s, step).observationGeneration <= s.observationGeneration + 1
  {
    match step
    case ControlMoves(call, spurious) => ControlCounts(cfg, s, call, spurious);
    case WorkerMoves(spurious, terminated) => WorkerCounts(cfg, s, spurious, terminated);
    case _ =>
  }

  lemma ControlCounts(cfg: Config, s: Sys, call: Call, spurious: bool)
    requires s.Owned()
    ensures var t := ControlStep(cfg, s, call, spurious);
      && s.wakeGeneration <= t.wakeGeneration <= s.wakeGeneration + 1
      && s.observationGeneration <= t.observationGeneration <= s.observationGeneration + 1
  {
    if s.control.Submitting? { SubmitCounts(s, s.control.submit, s.control.sub); }
  }

  lemma SubmitCounts(s: Sys, stage: SubmitStage, sub: Submission)
    requires s.Owned()
    ensures var t := SubmitStep(s, stage, sub);
      t.wakeGeneration == s.wakeGeneration && t.observationGeneration == s.observationGeneration
  {
  }

  lemma WorkerCounts(cfg: Config, s: Sys, spurious: bool, terminated: bool)
    requires s.Owned()
    ensures var t := WorkerStep(cfg, s, spurious, terminated);
      t.wakeGeneration == s.wakeGeneration && t.observationGeneration == s.observationGeneration
  {
    if s.worker.Inferring? { InferCounts(cfg, s, s.worker.infer, terminated); }
  }

  lemma InferCounts(cfg: Config, s: Sys, stage: InferStage, terminated: bool)
    requires s.Owned()
    ensures var t := InferStep(cfg, s, stage, terminated);
      t.wakeGeneration == s.wakeGeneration && t.observationGeneration == s.observationGeneration
  {
  }

  /** A consumption that comes back without a packet found the mailbox empty. */
  lemma EmptyHandsMeanEmptyMailbox(cfg: Config, states: seq<Sys>, steps: seq<Step>, expected: PolicyKind, a: nat, b: nat)
    requires Run(cfg, states, steps) && Calls(states, steps, Consume(expected), a, b) && states[b].control == Ready
    requires states[b].actions.taken == states[a].actions.taken
    ensures a + 1 < b && !Dirty(states[b - 1].actions.middle)
  {
    ConsumingBegins(cfg, states, steps, expected, a);
    if a + 1 < b {
      ConsumingGoesOn(cfg, states, steps, expected, a, b - 1);
      RunStep(cfg, states, steps, b - 1);
      ReturnWithoutPacket(cfg, expected, states[a], states[b - 1], steps[b - 1]);
    }
  }

  lemma ConsumingBegins(cfg: Config, states: seq<Sys>, steps: seq<Step>, expected: PolicyKind, a: nat)
    requires Run(cfg, states, steps) && Calls(states, steps, Consume(expected), a, a + 1)
    ensures states[a + 1].control.Consuming?
  {
    RunStep(cfg, states, steps, a);
  }

  lemma ConsumingGoesOn(cfg: Config, states: seq<Sys>, steps: seq<Step>, expected: PolicyKind, a: nat, n: nat)
    requires Run(cfg, states, steps) && Calls(states, steps, Consume(expected), a, n) && !states[n].control.Ready?
    ensures states[n].Owned() && ConsumeUnderWay(cfg, expected, states[a], states[n])
  {
    CallGoesOn(cfg, states, steps, Consume(expected), a, n);
  }

  lemma ReturnWithoutPacket(cfg: Config, expected: PolicyKind, s: Sys, t: Sys, step: Step)
    requires Inv(cfg, t) && ConsumeUnderWay(cfg, expected, s, t)
    requires Do(cfg, t, step).control == Ready && Do(cfg, t, step).actions.taken == s.actions.taken
    ensures !Dirty(t.actions.middle)
  {
    if !step.ControlMoves? {
      OthersAreElsewhere(cfg, t, step);
    }
  }
}

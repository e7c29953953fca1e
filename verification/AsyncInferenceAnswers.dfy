/**
 What becomes of an observation the worker has taken: in every interleaving it is
 answered exactly once, or dropped for one of the two reasons the worker tests for, and
 the answer is valid exactly when the policy's run was.
 */
module AsyncInferenceAnswers {
  import opened Common
  import opened LatestTripleBuffer
  import opened PolicySession
  import opened AsyncInference
  import opened AsyncInferenceSafety

  /** What the worker has found out about the observation it holds: control was active,
      the epoch was the observation's, the run was given up; `None` is not yet. */
  datatype Findings = Findings(active: Option<bool>, current: Option<bool>, terminated: Option<bool>)

  const NOTHING_FOUND: Findings := Findings(None, None, None)

  function Found(sub: Submission, f: Findings, s: Sys, step: Step): Findings {
    if !step.WorkerMoves? || !s.worker.Inferring? then f
    else match s.worker.infer
         case RecheckingActive => f.(active := Some(s.active))
         case RecheckingEpoch => f.(current := Some(s.session.epoch == sub.epoch))
         case RunningPolicy(_) => f.(terminated := Some(step.terminated))
         case _ => f
  }

  /** Everything found out by steps `i` to `n`. */
  function FoundBetween(sub: Submission, states: seq<Sys>, steps: seq<Step>, i: nat, n: nat): Findings
    requires i <= n < |states| == |steps| + 1
    decreases n - i
  {
    if i == n then NOTHING_FOUND
    else Found(sub, FoundBetween(sub, states, steps, i, n - 1), states[n - 1], steps[n - 1])
  }

  /** The run of the policy on this submission counts as a success. */
  predicate Succeeds(cfg: Config, sub: Submission, f: Findings) {
    && sub.policy != NONE && f.terminated == Some(false)
    && cfg.run(sub.policy, sub.input).Some? && |cfg.run(sub.policy, sub.input).value| <= cfg.actionCapacity
  }

  predicate Named(a: ActionPacket, sub: Submission) {
    && a.policy == sub.policy && a.epoch == sub.epoch && a.sourceSequence == sub.sequence
    && a.observationTimestampNs == sub.timestampNs
  }

  /** The packet published for this submission: it bears its names, and it is valid
      exactly when the run succeeded; then it holds the policy's output. After a run
      that failed it is empty. */
  ghost predicate IsAnswer(cfg: Config, sub: Submission, f: Findings, a: ActionPacket) {
    && Named(a, sub) && (a.valid <==> Succeeds(cfg, sub, f)) && (a.valid ==> Answers(cfg, a, sub))
    && EmptyIfFailed(sub, a, a.valid)
  }

  predicate EmptyIfFailed(sub: Submission, a: ActionPacket, ok: bool) {
    !ok && sub.policy != NONE ==> a.size == 0
  }

  // ---------------------------------------------------------------------------
  // The worker between taking an observation and returning to its loop
  // ---------------------------------------------------------------------------

  ghost predicate Stage(cfg: Config, sub: Submission, f: Findings, a: ActionPacket, stage: InferStage) {
    match stage
    case Noting => f == NOTHING_FOUND
    case RecheckingActive => f == NOTHING_FOUND
    case RecheckingEpoch => f == Findings(Some(true), None, None)
    case ReadingInput(_) => f == Findings(Some(true), Some(true), None) && Named(a, sub) && !a.valid && sub.policy != NONE
    case RunningPolicy(_) => f == Findings(Some(true), Some(true), None) && Named(a, sub) && !a.valid && sub.policy != NONE
    case WritingOutput(output, _) =>
      && f == Findings(Some(true), Some(true), Some(false)) && Named(a, sub) && !a.valid
      && Succeeds(cfg, sub, f) && cfg.run(sub.policy, sub.input) == Some(output)
    case WritingSize(result) =>
      Accepted(f) && RunMade(sub, f) && Named(a, sub) && !a.valid && (result.Some? <==> Succeeds(cfg, sub, f))
    case WritingValid(ok) =>
      && Accepted(f) && RunMade(sub, f) && Named(a, sub) && !a.valid && (ok <==> Succeeds(cfg, sub, f))
      && EmptyIfFailed(sub, a, ok)
    case PublishingAction =>
      && Accepted(f) && RunMade(sub, f) && Named(a, sub) && (a.valid <==> Succeeds(cfg, sub, f))
      && EmptyIfFailed(sub, a, a.valid)
    case ClearingValid => f == Findings(Some(true), Some(true), None)
    case _ => f == Findings(Some(true), Some(true), None) && !a.valid
  }

  predicate Accepted(f: Findings) {
    f.active == Some(true) && f.current == Some(true)
  }

  /** Every policy there is has been run on its observation. */
  predicate RunMade(sub: Submission, f: Findings) {
    sub.policy != NONE ==> f.terminated.Some?
  }

  /** The worker is still busy with `sub`; `before` are the answers published until it
      took it. */
  ghost predicate Underway(cfg: Config, sub: Submission, f: Findings, before: seq<ActionPacket>, s: Sys) {
    && s.Owned() && s.worker.Inferring? && Carries(s.Held(), sub) && s.actions.published == before
    && Stage(cfg, sub, f, s.Result(), s.worker.infer)
  }

  /** The worker is done with `sub`: one answer, or none for one of the two reasons. */
  ghost predicate Handled(cfg: Config, sub: Submission, f: Findings, before: seq<ActionPacket>, t: Sys) {
    && t.worker == Polling(Top)
    && (f.active == Some(false) || (f.active == Some(true) && f.current.Some?))
    && if Accepted(f)
       then |t.actions.published| == |before| + 1 && before == Front(t.actions.published)
            && RunMade(sub, f) && IsAnswer(cfg, sub, f, Last(t.actions.published))
       else t.actions.published == before
  }

  ghost predicate Onward(cfg: Config, sub: Submission, f: Findings, before: seq<ActionPacket>, t: Sys) {
    if t.worker.Inferring? then Underway(cfg, sub, f, before, t) else Handled(cfg, sub, f, before, t)
  }

  predicate Testing(stage: InferStage) {
    stage.Noting? || stage.RecheckingActive? || stage.RecheckingEpoch?
  }

  lemma TestingGoesOn(cfg: Config, sub: Submission, f: Findings, before: seq<ActionPacket>, s: Sys, terminated: bool)
    requires Inv(cfg, s) && Underway(cfg, sub, f, before, s) && Testing(s.worker.infer)
    ensures var t := InferStep(cfg, s, s.worker.infer, terminated);
      Onward(cfg, sub, Found(sub, f, s, WorkerMoves(false, terminated)), before, t)
  {
  }

  lemma HeadingGoesOn(cfg: Config, sub: Submission, f: Findings, before: seq<ActionPacket>, s: Sys, terminated: bool)
    requires Inv(cfg, s) && Underway(cfg, sub, f, before, s) && Heading(s.worker.infer)
    ensures var t := InferStep(cfg, s, s.worker.infer, terminated);
      Onward(cfg, sub, Found(sub, f, s, WorkerMoves(false, terminated)), before, t)
  {
  }

  lemma RunningGoesOn(cfg: Config, sub: Submission, f: Findings, before: seq<ActionPacket>, s: Sys, terminated: bool)
    requires Inv(cfg, s) && Underway(cfg, sub, f, before, s) && (s.worker.infer.ReadingInput? || s.worker.infer.RunningPolicy?)
    ensures var t := InferStep(cfg, s, s.worker.infer, terminated);
      Onward(cfg, sub, Found(sub, f, s, WorkerMoves(false, terminated)), before, t)
  {
    if s.worker.infer.RunningPolicy? {
      assert s.worker.infer.input == sub.input;
      assert |s.Result().actions| == cfg.actionCapacity;
    }
  }

  lemma CopyingGoesOn(cfg: Config, sub: Submission, f: Findings, before: seq<ActionPacket>, s: Sys, terminated: bool)
    requires Underway(cfg, sub, f, before, s) && s.worker.infer.WritingOutput?
    ensures var t := InferStep(cfg, s, s.worker.infer, terminated);
      Onward(cfg, sub, Found(sub, f, s, WorkerMoves(false, terminated)), before, t)
  {
  }

  lemma EndingGoesOn(cfg: Config, sub: Submission, f: Findings, before: seq<ActionPacket>, s: Sys, terminated: bool)
    requires Inv(cfg, s) && Underway(cfg, sub, f, before, s) && (s.worker.infer.WritingSize? || s.worker.infer.WritingValid?)
    ensures var t := InferStep(cfg, s, s.worker.infer, terminated);
      Onward(cfg, sub, Found(sub, f, s, WorkerMoves(false, terminated)), before, t)
  {
  }

  lemma PublishingGoesOn(cfg: Config, sub: Submission, f: Findings, before: seq<ActionPacket>, s: Sys, terminated: bool)
    requires Inv(cfg, s) && Underway(cfg, sub, f, before, s) && s.worker.infer.PublishingAction?
    ensures var t := InferStep(cfg, s, s.worker.infer, terminated);
      Onward(cfg, sub, Found(sub, f, s, WorkerMoves(false, terminated)), before, t)
  {
    var t := InferStep(cfg, s, s.worker.infer, terminated);
    assert t.actions.published == before + [s.Result()];
    if s.Result().valid { assert Computes(cfg, s.Held(), s.Result()); }
  }

  lemma InferGoesOn(cfg: Config, sub: Submission, f: Findings, before: seq<ActionPacket>, s: Sys,
                    stage: InferStage, terminated: bool)
    requires Inv(cfg, s) && Underway(cfg, sub, f, before, s) && stage == s.worker.infer
    ensures var t := InferStep(cfg, s, stage, terminated);
      Onward(cfg, sub, Found(sub, f, s, WorkerMoves(false, terminated)), before, t)
  {
    if Testing(stage) { TestingGoesOn(cfg, sub, f, before, s, terminated); }
    else if Heading(stage) { HeadingGoesOn(cfg, sub, f, before, s, terminated); }
    else if stage.ReadingInput? || stage.RunningPolicy? { RunningGoesOn(cfg, sub, f, before, s, terminated); }
    else if stage.PublishingAction? { PublishingGoesOn(cfg, sub, f, before, s, terminated); }
    else if stage.WritingOutput? { CopyingGoesOn(cfg, sub, f, before, s, terminated); }
    else { EndingGoesOn(cfg, sub, f, before, s, terminated); }
  }

  lemma WorkerGoesOn(cfg: Config, sub: Submission, f: Findings, before: seq<ActionPacket>, s: Sys,
                     spurious: bool, terminated: bool)
    requires Inv(cfg, s) && Underway(cfg, sub, f, before, s)
    ensures var t := WorkerStep(cfg, s, spurious, terminated);
      Onward(cfg, sub, Found(sub, f, s, WorkerMoves(spurious, terminated)), before, t)
  {
    InferGoesOn(cfg, sub, f, before, s, s.worker.infer, terminated);
    assert Found(sub, f, s, WorkerMoves(spurious, terminated)) == Found(sub, f, s, WorkerMoves(false, terminated));
  }

  /** What the worker works with while others move. */
  ghost predicate Undisturbed(s: Sys, t: Sys)
    requires s.Owned()
  {
    && t.Owned() && t.worker == s.worker && t.Held() == s.Held() && t.Result() == s.Result()
    && t.observed == s.observed && t.actions.published == s.actions.published
  }

  lemma SubmitDisturbsNothing(s: Sys, stage: SubmitStage, sub: Submission)
    requires s.Owned()
    ensures Undisturbed(s, SubmitStep(s, stage, sub))
  {
  }

  lemma ConsumeDisturbsNothing(cfg: Config, s: Sys, stage: ConsumeStage, expected: PolicyKind, spurious: bool)
    requires s.Owned()
    ensures Undisturbed(s, ConsumeStep(cfg, s, stage, expected, spurious))
  {
  }

  lemma ControlDisturbsNothing(cfg: Config, s: Sys, call: Call, spurious: bool)
    requires s.Owned() && s.worker.Inferring?
    ensures Undisturbed(s, ControlStep(cfg, s, call, spurious))
  {
    match s.control
    case Submitting(stage, sub) => SubmitDisturbsNothing(s, stage, sub);
    case Consuming(stage, expected) => ConsumeDisturbsNothing(cfg, s, stage, expected, spurious);
    case _ =>
  }

  lemma OthersDisturbNothing(cfg: Config, s: Sys, step: Step)
    requires s.Owned() && s.worker.Inferring? && !step.WorkerMoves?
    ensures Undisturbed(s, Do(cfg, s, step))
  {
    if step.ControlMoves? { ControlDisturbsNothing(cfg, s, step.call, step.spurious); }
  }

  lemma StepGoesOn(cfg: Config, sub: Submission, f: Findings, before: seq<ActionPacket>, s: Sys, step: Step)
    requires Inv(cfg, s) && Underway(cfg, sub, f, before, s)
    ensures Onward(cfg, sub, Found(sub, f, s, step), before, Do(cfg, s, step))
  {
    if step.WorkerMoves? {
      WorkerGoesOn(cfg, sub, f, before, s, step.spurious, step.terminated);
    } else {
      OthersDisturbNothing(cfg, s, step);
    }
  }

  // ---------------------------------------------------------------------------
  // Over runs
  // ---------------------------------------------------------------------------

  /** Step `a` takes an observation, and the worker is busy with it until `b`. */
  ghost predicate Handles(states: seq<Sys>, steps: seq<Step>, a: nat, b: nat) {
    && |states| == |steps| + 1 && a < b < |states|
    && states[a + 1].observations.taken != states[a].observations.taken
    && forall k :: a < k < b ==> states[k].worker.Inferring?
  }

  /** The observation step `a` takes. */
  function TakenAt(states: seq<Sys>, a: nat): Submission
    requires a + 1 < |states| && states[a + 1].observations.taken != []
    requires 0 <= Last(states[a + 1].observations.taken) < |states[a + 1].submitted|
  {
    states[a + 1].submitted[Last(states[a + 1].observations.taken)]
  }

  lemma RunStep(cfg: Config, states: seq<Sys>, steps: seq<Step>, n: nat)
    requires Run(cfg, states, steps) && n < |steps|
    ensures Inv(cfg, states[n]) && Inv(cfg, states[n + 1]) && states[n + 1] == Do(cfg, states[n], steps[n])
  {
    RunKeeps(cfg, states, steps, n);
    RunKeeps(cfg, states, steps, n + 1);
  }

  lemma InferTakesNothing(cfg: Config, s: Sys, stage: InferStage, terminated: bool)
    requires s.Owned()
    ensures InferStep(cfg, s, stage, terminated).observations == s.observations
  {
  }

  lemma SubmitTakesNothing(s: Sys, stage: SubmitStage, sub: Submission)
    requires s.Owned()
    ensures SubmitStep(s, stage, sub).observations.taken == s.observations.taken
  {
  }

  lemma ControlTakesNothing(cfg: Config, s: Sys, call: Call, spurious: bool)
    requires s.Owned()
    ensures ControlStep(cfg, s, call, spurious).observations.taken == s.observations.taken
  {
    if s.control.Submitting? { SubmitTakesNothing(s, s.control.submit, s.control.sub); }
  }

  lemma PollTakes(s: Sys, stage: PollStage, spurious: bool)
    requires s.Owned() && (stage.SwappingObservations? ==> Dirty(stage.seen))
    requires PollStep(s, stage, spurious).observations.taken != s.observations.taken
    ensures Dirty(s.observations.middle)
    ensures PollStep(s, stage, spurious) == s.(observations := s.observations.Take(), worker := Inferring(Noting))
  {
  }

  lemma WorkerTakes(cfg: Config, s: Sys, spurious: bool, terminated: bool)
    requires Inv(cfg, s) && WorkerStep(cfg, s, spurious, terminated).observations.taken != s.observations.taken
    ensures Dirty(s.observations.middle)
    ensures WorkerStep(cfg, s, spurious, terminated)
      == s.(observations := s.observations.Take(), worker := Inferring(Noting))
  {
    match s.worker
    case Inferring(stage) => InferTakesNothing(cfg, s, stage, terminated);
    case Polling(stage) => PollTakes(s, stage, spurious);
    case _ =>
  }

  /** Only the worker's compare-exchange takes an observation. */
  lemma TakeStep(cfg: Config, s: Sys, step: Step)
    requires Inv(cfg, s) && Do(cfg, s, step).observations.taken != s.observations.taken
    ensures Dirty(s.observations.middle)
    ensures Do(cfg, s, step) == s.(observations := s.observations.Take(), worker := Inferring(Noting))
  {
    match step
    case ControlMoves(call, spurious) => ControlTakesNothing(cfg, s, call, spurious);
    case WorkerMoves(spurious, terminated) => WorkerTakes(cfg, s, spurious, terminated);
    case _ =>
  }

  lemma TakeBegins(cfg: Config, s: Sys, step: Step)
    requires Inv(cfg, s) && Do(cfg, s, step).observations.taken != s.observations.taken
    ensures var t := Do(cfg, s, step);
      && t.observations.taken != [] && 0 <= Last(t.observations.taken) < |t.submitted|
      && Underway(cfg, t.submitted[Last(t.observations.taken)], NOTHING_FOUND, s.actions.published, t)
  {
    TakeStep(cfg, s, step);
    TakeObservationKeeps(cfg, s);
  }

  lemma HandlingBegins(cfg: Config, states: seq<Sys>, steps: seq<Step>, a: nat)
    requires Run(cfg, states, steps) && Handles(states, steps, a, a + 1)
    ensures states[a + 1].observations.taken != []
    ensures 0 <= Last(states[a + 1].observations.taken) < |states[a + 1].submitted|
    ensures Underway(cfg, TakenAt(states, a), NOTHING_FOUND, states[a].actions.published, states[a + 1])
  {
    RunStep(cfg, states, steps, a);
    TakeBegins(cfg, states[a], steps[a]);
  }

  lemma HandlingStep(cfg: Config, sub: Submission, before: seq<ActionPacket>, states: seq<Sys>, steps: seq<Step>,
                     i: nat, n: nat)
    requires Run(cfg, states, steps) && i <= n < |steps| && states[n].worker.Inferring?
    requires Onward(cfg, sub, FoundBetween(sub, states, steps, i, n), before, states[n])
    ensures Onward(cfg, sub, FoundBetween(sub, states, steps, i, n + 1), before, states[n + 1])
  {
    RunStep(cfg, states, steps, n);
    StepGoesOn(cfg, sub, FoundBetween(sub, states, steps, i, n), before, states[n], steps[n]);
  }

  lemma {:induction false} HandlingGoesOn(cfg: Config, states: seq<Sys>, steps: seq<Step>, a: nat, b: nat)
    requires Run(cfg, states, steps) && Handles(states, steps, a, b)
    ensures states[a + 1].observations.taken != []
    ensures 0 <= Last(states[a + 1].observations.taken) < |states[a + 1].submitted|
    ensures var sub := TakenAt(states, a);
      Onward(cfg, sub, FoundBetween(sub, states, steps, a + 1, b), states[a].actions.published, states[b])
    decreases b
  {
    if b == a + 1 {
      HandlingBegins(cfg, states, steps, a);
    } else {
      HandlingGoesOn(cfg, states, steps, a, b - 1);
      HandlingStep(cfg, TakenAt(states, a), states[a].actions.published, states, steps, a + 1, b - 1);
    }
  }

  /** In every interleaving: when the worker is back in its loop after taking an
      observation, it has published exactly one answer to it if and only if control was
      active and the epoch still the observation's when it tested, and nothing
      otherwise; the answer is valid exactly when the run was not given up, succeeded,
      and fitted, and then holds the policy's output. */
  lemma TakenObservationsAreAnswered(cfg: Config, states: seq<Sys>, steps: seq<Step>, a: nat, b: nat)
    requires Run(cfg, states, steps) && Handles(states, steps, a, b) && !states[b].worker.Inferring?
    ensures states[a + 1].observations.taken != []
    ensures 0 <= Last(states[a + 1].observations.taken) < |states[a + 1].submitted|
    ensures var sub, before, after := TakenAt(states, a), states[a].actions.published, states[b].actions.published;
      var f := FoundBetween(sub, states, steps, a + 1, b);
      && (f.active == Some(false) || (f.active == Some(true) && f.current.Some?))
      && (after != before <==> f.active == Some(true) && f.current == Some(true))
      && (after != before ==> after != [] && Front(after) == before && RunMade(sub, f) && IsAnswer(cfg, sub, f, Last(after)))
  {
    HandlingGoesOn(cfg, states, steps, a, b);
  }

  // ---------------------------------------------------------------------------
  // The notifications it has noted meanwhile
  // ---------------------------------------------------------------------------

  lemma InferNotes(cfg: Config, s: Sys, stage: InferStage, terminated: bool)
    requires s.Owned()
    ensures InferStep(cfg, s, stage, terminated).observed == if stage.Noting? then s.observationGeneration else s.observed
  {
  }

  lemma StepNotes(cfg: Config, s: Sys, step: Step)
    requires s.Owned() && s.worker.Inferring?
    ensures var t := Do(cfg, s, step);
      if step.WorkerMoves? && s.worker.infer.Noting? then t.observed == s.observationGeneration
      else t.observed == s.observed && (!step.WorkerMoves? ==> t.worker == s.worker)
  {
    if step.WorkerMoves? { InferNotes(cfg, s, s.worker.infer, step.terminated); } else { OthersDisturbNothing(cfg, s, step); }
  }

  lemma RunNotes(cfg: Config, states: seq<Sys>, steps: seq<Step>, m: nat)
    requires Run(cfg, states, steps) && m < |steps| && states[m].worker.Inferring?
    ensures states[m].worker == Inferring(Noting) ==>
      states[m + 1].worker == Inferring(Noting) || states[m + 1].observed == states[m].observationGeneration
    ensures states[m].worker != Inferring(Noting) ==> states[m + 1].observed == states[m].observed
  {
    RunStep(cfg, states, steps, m);
    StepNotes(cfg, states[m], steps[m]);
  }

  lemma TakenIsToBeNoted(cfg: Config, states: seq<Sys>, steps: seq<Step>, a: nat)
    requires Run(cfg, states, steps) && a < |steps|
    requires states[a + 1].observations.taken != states[a].observations.taken
    ensures states[a + 1].worker == Inferring(Noting)
  {
    RunStep(cfg, states, steps, a);
    TakeStep(cfg, states[a], steps[a]);
  }

  /** By the time the worker has noted, tested and answered, it waits for notifications
      later than the observation it took. */
  lemma {:induction false} NotificationsAreNoted(cfg: Config, states: seq<Sys>, steps: seq<Step>, a: nat, b: nat)
      returns (k: nat)
    requires Run(cfg, states, steps) && Handles(states, steps, a, b) && states[b].worker != Inferring(Noting)
    ensures a < k < b && states[b].observed == states[k].observationGeneration
    decreases b
  {
    TakenIsToBeNoted(cfg, states, steps, a);
    var m := b - 1;
    RunNotes(cfg, states, steps, m);
    if states[m].worker == Inferring(Noting) {
      k := m;
    } else {
      k := NotificationsAreNoted(cfg, states, steps, a, m);
    }
  }
}

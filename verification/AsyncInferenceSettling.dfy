/**
 Where the worker comes to rest when nobody disturbs it: exited after a stop, asleep for
 activation while control is inactive, and otherwise asleep for an observation, but only
 once the pending one has been taken and answered.
 */
module AsyncInferenceSettling {
  import opened Common
  import opened LatestTripleBuffer
  import opened PolicySession
  import opened AsyncInference
  import opened AsyncInferenceSafety
  import Wakeups = AsyncInferenceWakeups
  import Answers = AsyncInferenceAnswers
  import Progress = AsyncInferenceProgress

  // ---------------------------------------------------------------------------
  // A worker left alone
  // ---------------------------------------------------------------------------

  /** Step `k` of the path is one of the worker's; its compare-exchange does not fail
      without cause, and no run of the policy is given up. */
  ghost predicate LoneStep(cfg: Config, path: seq<Sys>, k: nat)
    requires k + 1 < |path|
  {
    path[k].Owned() && path[k + 1] == WorkerStep(cfg, path[k], false, false)
  }

  /** The worker moves and nobody else does. */
  ghost predicate Alone(cfg: Config, path: seq<Sys>) {
    path != [] && forall k :: 0 <= k < |path| - 1 ==> LoneStep(cfg, path, k)
  }

  predicate Settled(s: Sys) {
    || s.worker.Exited? || (s.worker.Idling? && s.worker.idle.IdleAsleep?)
    || (s.worker.Waiting? && s.worker.wait.WaitAsleep?)
  }

  /** Fewer than 2^32 notifications since the snapshot the worker holds. */
  predicate Recent(s: Sys) {
    && (s.worker.Idling? && IdleHasSnap(s.worker.idle) ==> s.wakeGeneration - s.worker.idle.snap < FUTEX_MODULUS)
    && (s.worker.Waiting? && WaitHasSnap(s.worker.wait) ==> s.wakeGeneration - s.worker.wait.snap < FUTEX_MODULUS)
  }

  predicate IdleHasSnap(stage: IdleStage) {
    stage.IdleActive2? || stage.IdleRunning2? || stage.IdleFutex? || stage.IdleAsleep?
  }

  predicate WaitHasSnap(stage: WaitStage) {
    stage.WaitGeneration2? || stage.WaitRunning2? || stage.WaitActive2? || stage.WaitFutex? || stage.WaitAsleep?
  }

  /** Nobody is in the middle of a call that ends with a notification. */
  predicate Quiescent(s: Sys) {
    s.control.Ready? && (s.stopper == NotStopping || s.stopper == StopDone)
  }

  ghost predicate ExitedStopped(s: Sys) {
    s.worker.Exited? ==> !s.running
  }

  ghost predicate Good(cfg: Config, s: Sys) {
    Inv(cfg, s) && Wakeups.WakeInv(s) && Recent(s) && Quiescent(s) && ExitedStopped(s)
  }

  /** What a worker alone does not change. */
  predicate SameSurroundings(s: Sys, t: Sys) {
    && t.control == s.control && t.stopper == s.stopper && t.session == s.session && t.submitted == s.submitted
    && t.active == s.active && t.running == s.running && t.wakeGeneration == s.wakeGeneration
    && t.observationGeneration == s.observationGeneration
    && t.observations.published == s.observations.published
  }

  // ---------------------------------------------------------------------------
  // How far the worker is from rest
  // ---------------------------------------------------------------------------

  /** News the worker has not noted, or a reason not to wait for any. */
  predicate Called(s: Sys) {
    s.observationGeneration != s.observed || !s.running
  }

  function IdleRank(s: Sys, stage: IdleStage): int {
    (match stage
     case IdleAsleep(_) => 0
     case IdleFutex(snap) => if SameWord(s.wakeGeneration, snap) then 1 else 7
     case IdleRunning2(snap) => if SameWord(s.wakeGeneration, snap) then 2 else 8
     case IdleActive2(snap) => if SameWord(s.wakeGeneration, snap) then 3 else 9
     case IdleSnapshot => 4
     case IdleRunning => 5
     case IdleActive => 6) + if s.active || !s.running then 100 else 0
  }

  function WaitRank(s: Sys, stage: WaitStage): int {
    (match stage
     case WaitAsleep(_) => 0
     case WaitFutex(snap) => if SameWord(s.wakeGeneration, snap) then 1 else 9
     case WaitActive2(snap) => if SameWord(s.wakeGeneration, snap) then 2 else 10
     case WaitRunning2(snap) => if SameWord(s.wakeGeneration, snap) then 3 else 11
     case WaitGeneration2(snap) => if SameWord(s.wakeGeneration, snap) then 4 else 12
     case WaitSnapshot => 5
     case WaitActive => 6
     case WaitRunning => 7
     case WaitGeneration => 8) + if Called(s) || !s.active then 100 else 0
  }

  function PollRank(s: Sys, stage: PollStage): int {
    match stage
    case Reloading => 25
    case Top => 24 + if s.running && Called(s) then 200 else 0
    case CheckingActive => 23 + if Called(s) then 200 else 0
    case LoadingObservations => 21 + if Called(s) || !s.active then 200 else 0
    case SwappingObservations(seen) =>
      (if seen == s.observations.middle then 20 else 22) + if Called(s) || !s.active then 200 else 0
  }

  function Rank(cfg: Config, s: Sys): int {
    (if Dirty(s.observations.middle) then 500 + cfg.observationCapacity + cfg.actionCapacity else 0) +
    match s.worker
    case Exited => 0
    case Idling(stage) => IdleRank(s, stage)
    case Waiting(stage) => WaitRank(s, stage)
    case Polling(stage) => PollRank(s, stage)
    case Inferring(stage) => 400 + Progress.InferRank(cfg, stage)
  }

  /** What the worker finds in its way when it would sleep for the wrong reason. */
  lemma PollNears(cfg: Config, s: Sys, stage: PollStage)
    requires s.Owned() && s.worker == Polling(stage)
    requires stage.SwappingObservations? ==> Dirty(stage.seen)
    ensures var t := PollStep(s, stage, false);
      Settled(t) || 0 <= Rank(cfg, t) < Rank(cfg, s)
  {
  }

  lemma WaitNears(cfg: Config, s: Sys, stage: WaitStage)
    requires s.Owned() && s.worker == Waiting(stage) && !stage.WaitAsleep?
    ensures var t := s.(worker := WaitStep(s, stage)); Settled(t) || 0 <= Rank(cfg, t) < Rank(cfg, s)
  {
  }

  lemma IdleNears(cfg: Config, s: Sys, stage: IdleStage)
    requires s.Owned() && s.worker == Idling(stage) && !stage.IdleAsleep?
    ensures var t := s.(worker := IdleStep(s, stage)); Settled(t) || 0 <= Rank(cfg, t) < Rank(cfg, s)
  {
  }

  lemma InferNears(cfg: Config, s: Sys, stage: InferStage)
    requires Inv(cfg, s) && s.worker == Inferring(stage)
    ensures var t := InferStep(cfg, s, stage, false); Settled(t) || 0 <= Rank(cfg, t) < Rank(cfg, s)
  {
    Progress.InferStepsCountDown(cfg, s, false);
    Answers.InferTakesNothing(cfg, s, stage, false);
  }

  lemma StepNears(cfg: Config, s: Sys)
    requires Inv(cfg, s) && !Settled(s)
    ensures var t := WorkerStep(cfg, s, false, false); Settled(t) || 0 <= Rank(cfg, t) < Rank(cfg, s)
  {
    match s.worker
    case Polling(stage) => PollNears(cfg, s, stage);
    case Waiting(stage) => WaitNears(cfg, s, stage);
    case Idling(stage) => IdleNears(cfg, s, stage);
    case Inferring(stage) => InferNears(cfg, s, stage);
  }

  // ---------------------------------------------------------------------------
  // What it keeps on the way
  // ---------------------------------------------------------------------------

  lemma InferSurroundings(cfg: Config, s: Sys, stage: InferStage)
    requires s.Owned()
    ensures SameSurroundings(s, InferStep(cfg, s, stage, false))
  {
  }

  lemma StepSurroundings(cfg: Config, s: Sys)
    requires s.Owned()
    ensures SameSurroundings(s, WorkerStep(cfg, s, false, false))
  {
    if s.worker.Inferring? { InferSurroundings(cfg, s, s.worker.infer); }
  }

  lemma StepStaysRecent(cfg: Config, s: Sys)
    requires s.Owned() && Recent(s) && ExitedStopped(s)
    ensures var t := WorkerStep(cfg, s, false, false); Recent(t) && ExitedStopped(t)
  {
    if s.worker.Inferring? { Wakeups.InferIsBusy(cfg, s, s.worker.infer, false); }
  }

  lemma StepStaysGood(cfg: Config, s: Sys)
    requires Good(cfg, s)
    ensures Good(cfg, WorkerStep(cfg, s, false, false)) && SameSurroundings(s, WorkerStep(cfg, s, false, false))
  {
    WorkerStepKeeps(cfg, s, false, false);
    Wakeups.WorkerKeeps(cfg, s, false, false);
    StepSurroundings(cfg, s);
    StepStaysRecent(cfg, s);
  }

  // ---------------------------------------------------------------------------
  // The pending observation
  // ---------------------------------------------------------------------------

  /** Nothing found out so far speaks against the observation. */
  predicate Favourable(f: Answers.Findings) {
    f.active != Some(false) && f.current != Some(false) && f.terminated != Some(true)
  }

  const ALL_GOOD: Answers.Findings := Answers.Findings(Some(true), Some(true), Some(false))

  predicate InMailbox(s: Sys) {
    Dirty(s.observations.middle) && s.submitted != []
  }

  ghost predicate Answered(cfg: Config, sub: Submission, s: Sys) {
    exists k :: 0 <= k < |s.actions.published| && Answers.IsAnswer(cfg, sub, ALL_GOOD, s.actions.published[k])
  }

  ghost predicate BeingHandled(cfg: Config, sub: Submission, s: Sys) {
    exists f, before :: Favourable(f) && Answers.Underway(cfg, sub, f, before, s)
  }

  ghost predicate Due(cfg: Config, sub: Submission, s: Sys) {
    || (InMailbox(s) && sub == Last(s.submitted))
    || BeingHandled(cfg, sub, s)
    || Answered(cfg, sub, s)
  }

  lemma MailboxStaysDue(cfg: Config, s: Sys)
    requires Inv(cfg, s) && InMailbox(s)
    ensures Due(cfg, Last(s.submitted), WorkerStep(cfg, s, false, false))
  {
    var t := WorkerStep(cfg, s, false, false);
    StepSurroundings(cfg, s);
    if t.observations.taken != s.observations.taken {
      NewestIsTaken(cfg, s);
    } else {
      MailboxUntouched(cfg, s);
    }
  }

  lemma NewestIsTaken(cfg: Config, s: Sys)
    requires Inv(cfg, s) && InMailbox(s)
    requires WorkerStep(cfg, s, false, false).observations.taken != s.observations.taken
    ensures BeingHandled(cfg, Last(s.submitted), WorkerStep(cfg, s, false, false))
  {
    var t := WorkerStep(cfg, s, false, false);
    Answers.TakeStep(cfg, s, WorkerMoves(false, false));
    Answers.TakeBegins(cfg, s, WorkerMoves(false, false));
    assert Last(t.observations.taken) == |s.submitted| - 1 && t.submitted == s.submitted;
    assert Answers.Underway(cfg, Last(s.submitted), Answers.NOTHING_FOUND, s.actions.published, t);
  }

  lemma MailboxUntouched(cfg: Config, s: Sys)
    requires Inv(cfg, s) && WorkerStep(cfg, s, false, false).observations.taken == s.observations.taken
    ensures WorkerStep(cfg, s, false, false).observations == s.observations
  {
    match s.worker
    case Inferring(stage) => Answers.InferTakesNothing(cfg, s, stage, false);
    case Polling(stage) => PollTakesNothing(s, stage);
    case _ =>
  }

  lemma PollTakesNothing(s: Sys, stage: PollStage)
    requires s.Owned() && PollStep(s, stage, false).observations.taken == s.observations.taken
    ensures PollStep(s, stage, false).observations == s.observations
  {
  }

  lemma FindingsStayFavourable(sub: Submission, f: Answers.Findings, s: Sys)
    requires Favourable(f) && s.active && s.session.epoch == sub.epoch
    ensures Favourable(Answers.Found(sub, f, s, WorkerMoves(false, false)))
  {
  }

  lemma HandledIsAnswered(cfg: Config, sub: Submission, f: Answers.Findings, before: seq<ActionPacket>, t: Sys)
    requires Favourable(f) && Answers.Handled(cfg, sub, f, before, t)
    ensures Answered(cfg, sub, t)
  {
    assert f.active.value && f.current.value;
    assert Answers.Accepted(f);
    if sub.policy != NONE { assert f.terminated.Some? && !f.terminated.value; }
    assert Answers.Succeeds(cfg, sub, f) == Answers.Succeeds(cfg, sub, ALL_GOOD);
    assert t.actions.published[|before|] == Last(t.actions.published);
    assert Answers.IsAnswer(cfg, sub, ALL_GOOD, t.actions.published[|before|]);
  }

  lemma HandlingStaysDue(cfg: Config, sub: Submission, s: Sys)
    requires Inv(cfg, s) && BeingHandled(cfg, sub, s) && s.active && s.session.epoch == sub.epoch
    ensures Due(cfg, sub, WorkerStep(cfg, s, false, false))
  {
    var f, before :| Favourable(f) && Answers.Underway(cfg, sub, f, before, s);
    var g, t := Answers.Found(sub, f, s, WorkerMoves(false, false)), WorkerStep(cfg, s, false, false);
    Answers.WorkerGoesOn(cfg, sub, f, before, s, false, false);
    FindingsStayFavourable(sub, f, s);
    if !t.worker.Inferring? {
      HandledIsAnswered(cfg, sub, g, before, t);
    } else {
      assert Answers.Underway(cfg, sub, g, before, t);
    }
  }

  lemma InferKeepsAnswers(cfg: Config, s: Sys, stage: InferStage)
    requires s.Owned()
    ensures s.actions.published <= InferStep(cfg, s, stage, false).actions.published
  {
  }

  lemma AnswersStay(cfg: Config, sub: Submission, s: Sys)
    requires Inv(cfg, s) && Answered(cfg, sub, s)
    ensures Answered(cfg, sub, WorkerStep(cfg, s, false, false))
  {
    var t := WorkerStep(cfg, s, false, false);
    if s.worker.Inferring? { InferKeepsAnswers(cfg, s, s.worker.infer); }
    var k :| 0 <= k < |s.actions.published| && Answers.IsAnswer(cfg, sub, ALL_GOOD, s.actions.published[k]);
    assert t.actions.published[k] == s.actions.published[k];
  }

  lemma StepStaysDue(cfg: Config, sub: Submission, s: Sys)
    requires Inv(cfg, s) && Due(cfg, sub, s) && s.active && s.session.epoch == sub.epoch
    ensures Due(cfg, sub, WorkerStep(cfg, s, false, false))
  {
    if Answered(cfg, sub, s) { AnswersStay(cfg, sub, s); }
    else if BeingHandled(cfg, sub, s) { HandlingStaysDue(cfg, sub, s); }
    else { MailboxStaysDue(cfg, s); }
  }

  // ---------------------------------------------------------------------------
  // The way to rest
  // ---------------------------------------------------------------------------

  predicate Near(cfg: Config, s: Sys, n: nat) {
    Settled(s) || Rank(cfg, s) < n
  }

  ghost predicate Expects(cfg: Config, sub: Submission, s: Sys) {
    Due(cfg, sub, s) && s.active && s.session.epoch == sub.epoch
  }

  /** What one step and the whole way have in common. */
  ghost predicate Leads(cfg: Config, sub: Submission, s: Sys, t: Sys) {
    Good(cfg, t) && SameSurroundings(s, t) && (Expects(cfg, sub, s) ==> Expects(cfg, sub, t))
  }

  lemma StepLeads(cfg: Config, sub: Submission, s: Sys, n: nat)
    requires Good(cfg, s) && !Settled(s) && Near(cfg, s, n)
    ensures var t := WorkerStep(cfg, s, false, false); n > 0 && Near(cfg, t, n - 1) && Leads(cfg, sub, s, t)
  {
    StepNears(cfg, s);
    RankIsNatural(cfg, s);
    StepStaysGood(cfg, s);
    if Expects(cfg, sub, s) { StepStaysDue(cfg, sub, s); }
  }

  lemma RankIsNatural(cfg: Config, s: Sys)
    requires Inv(cfg, s)
    ensures 0 <= Rank(cfg, s) < 1200 + 2 * (cfg.observationCapacity + cfg.actionCapacity)
  {
    if s.worker.Inferring? {
      Progress.StagesAreBounded(cfg, s);
      Progress.InferStepsCountDown(cfg, s, false);
    }
  }

  lemma LeadsOn(cfg: Config, sub: Submission, s: Sys, t: Sys, u: Sys)
    requires Leads(cfg, sub, s, t) && Leads(cfg, sub, t, u)
    ensures Leads(cfg, sub, s, u)
  {
  }

  lemma PathGrows(cfg: Config, s: Sys, path: seq<Sys>)
    requires s.Owned() && Alone(cfg, path) && path[0] == WorkerStep(cfg, s, false, false)
    ensures Alone(cfg, [s] + path)
  {
    forall k: nat | k < |path| ensures LoneStep(cfg, [s] + path, k) {
      if k > 0 { assert LoneStep(cfg, path, k - 1); }
    }
  }

  lemma {:induction false} GoesToRest(cfg: Config, sub: Submission, s: Sys, n: nat) returns (path: seq<Sys>)
    requires Good(cfg, s) && Near(cfg, s, n)
    ensures Alone(cfg, path) && path[0] == s && |path| <= n + 1
    ensures Settled(Last(path)) && Leads(cfg, sub, s, Last(path))
    decreases n
  {
    if Settled(s) {
      path := [s];
    } else {
      StepLeads(cfg, sub, s, n);
      var t := WorkerStep(cfg, s, false, false);
      path := GoesToRest(cfg, sub, t, n - 1);
      LeadsOn(cfg, sub, s, t, Last(path));
      PathGrows(cfg, s, path);
      path := [s] + path;
    }
  }

  // ---------------------------------------------------------------------------
  // Theorems
  // ---------------------------------------------------------------------------

  /** The stopping thread's steps among the first `n`. */
  function StopperMovesIn(steps: seq<Step>, n: nat): nat
    requires n <= |steps|
  {
    if n == 0 then 0 else StopperMovesIn(steps, n - 1) + if steps[n - 1].StopperMoves? then 1 else 0
  }

  ghost predicate KeepsStopper(s: Sys, t: Sys) {
    t.stopper == s.stopper && t.running == s.running
  }

  lemma WorkerKeepsStopper(cfg: Config, s: Sys, spurious: bool, terminated: bool)
    requires s.Owned()
    ensures KeepsStopper(s, WorkerStep(cfg, s, spurious, terminated))
  {
    if s.worker.Inferring? { Wakeups.InferIsBusy(cfg, s, s.worker.infer, terminated); }
  }

  lemma ControlKeepsStopper(cfg: Config, s: Sys, call: Call, spurious: bool)
    requires s.Owned()
    ensures KeepsStopper(s, ControlStep(cfg, s, call, spurious))
  {
    match s.control
    case Submitting(stage, sub) => Wakeups.SubmitIsSilent(s, stage, sub);
    case Consuming(stage, expected) => Wakeups.ConsumeIsSilent(cfg, s, stage, expected, spurious);
    case _ =>
  }

  lemma OthersKeepStopper(cfg: Config, s: Sys, step: Step)
    requires s.Owned() && !step.StopperMoves?
    ensures KeepsStopper(s, Do(cfg, s, step))
  {
    match step
    case ControlMoves(call, spurious) => ControlKeepsStopper(cfg, s, call, spurious);
    case WorkerMoves(spurious, terminated) => WorkerKeepsStopper(cfg, s, spurious, terminated);
    case _ =>
  }

  /** Where the stopping thread is after `n` steps of its own. */
  predicate StopperAt(s: Sys, n: nat) {
    && (s.stopper == NotStopping <==> n == 0) && (s.stopper == StoppingRun <==> n == 1)
    && (s.stopper == StopAdvancing <==> n == 2) && (s.stopper == StopWaking <==> n == 3)
    && (s.running <==> n < 2)
  }

  lemma StopperCounts(cfg: Config, s: Sys, step: Step, n: nat)
    requires s.Owned() && StopperAt(s, n)
    ensures StopperAt(Do(cfg, s, step), n + if step.StopperMoves? then 1 else 0)
    ensures step.StopperMoves? && n == 0 ==> !Do(cfg, s, step).active
  {
    if !step.StopperMoves? { OthersKeepStopper(cfg, s, step); }
  }

  lemma StopperRunStep(cfg: Config, states: seq<Sys>, steps: seq<Step>, m: nat, n: nat)
    requires Run(cfg, states, steps) && m < |steps| && StopperAt(states[m], n)
    ensures StopperAt(states[m + 1], n + if steps[m].StopperMoves? then 1 else 0)
    ensures steps[m].StopperMoves? && n == 0 ==> !states[m + 1].active
  {
    Answers.RunStep(cfg, states, steps, m);
    StopperCounts(cfg, states[m], steps[m], n);
  }

  lemma {:induction false} RunKeepsStopper(cfg: Config, states: seq<Sys>, steps: seq<Step>, n: nat)
    requires Run(cfg, states, steps) && n < |states|
    ensures StopperAt(states[n], StopperMovesIn(steps, n))
  {
    if n > 0 {
      var m := n - 1;
      RunKeepsStopper(cfg, states, steps, m);
      StopperRunStep(cfg, states, steps, m, StopperMovesIn(steps, m));
    }
  }

  /** Whatever the others do, the stop deactivates control with its first step, has told
      the worker to stop after two, and is done after four. */
  lemma StopsTakeFourSteps(cfg: Config, states: seq<Sys>, steps: seq<Step>, n: nat)
    requires Run(cfg, states, steps) && n < |steps|
    ensures states[n].stopper == StopDone <==> StopperMovesIn(steps, n) >= 4
    ensures states[n].running <==> StopperMovesIn(steps, n) < 2
    ensures steps[n].StopperMoves? && StopperMovesIn(steps, n) == 0 ==> !states[n + 1].active
  {
    RunKeepsStopper(cfg, states, steps, n);
    StopperRunStep(cfg, states, steps, n, StopperMovesIn(steps, n));
  }

  lemma ExitKept(cfg: Config, s: Sys, step: Step)
    requires s.Owned() && ExitedStopped(s)
    ensures ExitedStopped(Do(cfg, s, step))
  {
    match step
    case ControlMoves(call, spurious) => ControlKeepsExit(cfg, s, call, spurious);
    case WorkerMoves(spurious, terminated) => WorkerKeepsExit(cfg, s, spurious, terminated);
    case _ =>
  }

  lemma WorkerKeepsExit(cfg: Config, s: Sys, spurious: bool, terminated: bool)
    requires s.Owned() && ExitedStopped(s)
    ensures ExitedStopped(WorkerStep(cfg, s, spurious, terminated))
  {
    if s.worker.Inferring? { Wakeups.InferIsBusy(cfg, s, s.worker.infer, terminated); }
  }

  lemma ControlKeepsExit(cfg: Config, s: Sys, call: Call, spurious: bool)
    requires s.Owned() && ExitedStopped(s)
    ensures ExitedStopped(ControlStep(cfg, s, call, spurious))
  {
    match s.control
    case Submitting(stage, sub) => Wakeups.SubmitIsSilent(s, stage, sub);
    case Consuming(stage, expected) => Wakeups.ConsumeIsSilent(cfg, s, stage, expected, spurious);
    case _ =>
  }

  lemma {:induction false} RunExits(cfg: Config, states: seq<Sys>, steps: seq<Step>, n: nat)
    requires Run(cfg, states, steps) && n < |states|
    ensures ExitedStopped(states[n])
  {
    if n > 0 {
      RunExits(cfg, states, steps, n - 1);
      Answers.RunStep(cfg, states, steps, n - 1);
      ExitKept(cfg, states[n - 1], steps[n - 1]);
    }
  }

  lemma RunIsGood(cfg: Config, states: seq<Sys>, steps: seq<Step>, n: nat)
    requires Wakeups.PromptRun(cfg, states, steps) && n < |states| && Quiescent(states[n]) && Recent(states[n])
    ensures Good(cfg, states[n])
  {
    RunKeeps(cfg, states, steps, n);
    Wakeups.RunKeeps(cfg, states, steps, n);
    RunExits(cfg, states, steps, n);
  }

  lemma RestIsRight(cfg: Config, s: Sys)
    requires Good(cfg, s) && Settled(s)
    ensures if !s.running then s.worker.Exited?
            else if !s.active then s.worker.Idling? && s.worker.idle.IdleAsleep?
            else s.worker.Waiting? && s.worker.wait.WaitAsleep? && !Dirty(s.observations.middle)
  {
  }

  /** From any state of a run with no notifier under way, the worker left alone comes to
      rest after a bounded number of steps: it has exited if it was told to stop, sleeps
      for activation if control is inactive, and else sleeps for an observation; and an
      observation of the current epoch that was pending has been answered by then, with
      the policy's output if its run succeeds and fits. */
  lemma LoneWorkerSettles(cfg: Config, states: seq<Sys>, steps: seq<Step>, n: nat) returns (path: seq<Sys>)
    requires Wakeups.PromptRun(cfg, states, steps) && n < |states| && Quiescent(states[n]) && Recent(states[n])
    ensures Alone(cfg, path) && path[0] == states[n]
    ensures |path| <= 1201 + 2 * (cfg.observationCapacity + cfg.actionCapacity)
    ensures SameSurroundings(states[n], Last(path))
    ensures var s, t := states[n], Last(path);
      && (if !s.running then t.worker.Exited?
          else if !s.active then t.worker.Idling? && t.worker.idle.IdleAsleep?
          else t.worker.Waiting? && t.worker.wait.WaitAsleep? && !Dirty(t.observations.middle))
      && (s.running && s.active && InMailbox(s) && Last(s.submitted).epoch == s.session.epoch ==>
            Answered(cfg, Last(s.submitted), t))
  {
    RunIsGood(cfg, states, steps, n);
    var s := states[n];
    RankIsNatural(cfg, s);
    var sub := if InMailbox(s) then Last(s.submitted) else Submission(NONE, 0, 0, 0, []);
    path := GoesToRest(cfg, sub, s, 1200 + 2 * (cfg.observationCapacity + cfg.actionCapacity));
    RestIsRight(cfg, Last(path));
    if InMailbox(s) { RestIsAnswered(cfg, sub, s, Last(path)); }
  }

  lemma RestIsAnswered(cfg: Config, sub: Submission, s: Sys, t: Sys)
    requires InMailbox(s) && sub == Last(s.submitted) && Leads(cfg, sub, s, t) && Settled(t)
    ensures s.running && s.active && sub.epoch == s.session.epoch ==> Answered(cfg, sub, t)
  {
    RestIsRight(cfg, t);
  }
}

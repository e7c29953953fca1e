/**
 No wake-up of the inference worker is lost: in every interleaving, whenever the
 worker sleeps although it should not, a notifier is still on its way to wake it.
 */
module AsyncInferenceWakeups {
  import opened Common
  import opened LatestTripleBuffer
  import opened PolicySession
  import opened AsyncInference

  // ---------------------------------------------------------------------------
  // Notifiers between their change of state and their FUTEX_WAKE
  // ---------------------------------------------------------------------------

  /** An observation is in the mailbox but its generation has not been advanced. */
  predicate Announcing(control: ControlPc) {
    control == Notifying(CountingOverwrite) || control == Notifying(AdvancingObservation)
  }

  /** `controllerActive` is off, or was turned off, and the wake generation has not
      been advanced since. */
  predicate Deactivating(control: ControlPc, stopper: StopperPc) {
    || control == Notifying(StartEpoch) || control == Notifying(StartOn)
    || control == Notifying(AdvancingWake(Stopped))
    || stopper == StoppingRun || stopper == StopAdvancing
  }

  /** The wake generation has been advanced, FUTEX_WAKE has not been made. */
  predicate AboutToWake(control: ControlPc, stopper: StopperPc) {
    (control.Notifying? && control.notify.Waking?) || stopper == StopWaking
  }

  /** Some notifier has changed what the worker waits for and has not yet woken it. */
  predicate NotifierUnderWay(s: Sys) {
    || Announcing(s.control) || Deactivating(s.control, s.stopper) || AboutToWake(s.control, s.stopper)
    || (s.control.Notifying? && s.control.notify.AdvancingWake?)
  }

  // ---------------------------------------------------------------------------
  // The invariant
  // ---------------------------------------------------------------------------

  ghost predicate Snapshot(s: Sys, snap: nat) {
    snap <= s.wakeGeneration
  }

  /** What the worker's second look at each condition has established: if it has
      changed since, the wake generation moved past the snapshot or is about to. */
  ghost predicate GenerationSeen(s: Sys, snap: nat) {
    s.observationGeneration > s.observed ==>
      s.wakeGeneration > snap || s.control == Notifying(AdvancingWake(NewObservation))
  }

  ghost predicate RunningSeen(s: Sys, snap: nat) {
    !s.running ==> s.wakeGeneration > snap || s.stopper == StopAdvancing
  }

  ghost predicate ActiveSeen(s: Sys, snap: nat) {
    !s.active ==> s.wakeGeneration > snap || Deactivating(s.control, s.stopper)
  }

  ghost predicate InactiveSeen(s: Sys, snap: nat) {
    s.active ==> s.wakeGeneration > snap || s.control == Notifying(AdvancingWake(Started))
  }

  /** Nobody sleeps past an advanced generation unless the waker is about to call. */
  ghost predicate Sleeping(s: Sys, snap: nat) {
    && (s.wakeGeneration > snap ==> AboutToWake(s.control, s.stopper))
    && s.stopper != StopDone
  }

  ghost predicate WaitInv(s: Sys, stage: WaitStage) {
    match stage
    case WaitGeneration2(snap) => Snapshot(s, snap)
    case WaitRunning2(snap) => Snapshot(s, snap) && GenerationSeen(s, snap)
    case WaitActive2(snap) => Snapshot(s, snap) && GenerationSeen(s, snap) && RunningSeen(s, snap)
    case WaitFutex(snap) =>
      Snapshot(s, snap) && GenerationSeen(s, snap) && RunningSeen(s, snap) && ActiveSeen(s, snap)
    case WaitAsleep(snap) =>
      && Snapshot(s, snap) && GenerationSeen(s, snap) && RunningSeen(s, snap) && ActiveSeen(s, snap)
      && Sleeping(s, snap)
    case _ => true
  }

  ghost predicate IdleInv(s: Sys, stage: IdleStage) {
    match stage
    case IdleActive2(snap) => Snapshot(s, snap)
    case IdleRunning2(snap) => Snapshot(s, snap) && InactiveSeen(s, snap)
    case IdleFutex(snap) => Snapshot(s, snap) && InactiveSeen(s, snap) && RunningSeen(s, snap)
    case IdleAsleep(snap) =>
      Snapshot(s, snap) && InactiveSeen(s, snap) && RunningSeen(s, snap) && Sleeping(s, snap)
    case _ => true
  }

  ghost predicate WakeInv(s: Sys) {
    && s.observations.Owned() && s.actions.Owned()
    && s.observed <= s.observationGeneration
    && (!s.running <==> s.stopper == StopAdvancing || s.stopper == StopWaking || s.stopper == StopDone)
    && (s.worker.Waiting? ==>
          && (Dirty(s.observations.middle) ==> s.observationGeneration > s.observed || Announcing(s.control))
          && WaitInv(s, s.worker.wait))
    && (s.worker.Idling? ==> IdleInv(s, s.worker.idle))
  }

  // ---------------------------------------------------------------------------
  // Every step keeps it
  // ---------------------------------------------------------------------------

  /** Nothing the wake-up protocol reads has changed, except that the control thread
      may be about to announce an observation it has just published. */
  ghost predicate Silent(s: Sys, t: Sys) {
    && t.observations.Owned() && t.actions.Owned()
    && t.worker == s.worker && t.observed == s.observed && t.stopper == s.stopper
    && t.active == s.active && t.running == s.running
    && t.observationGeneration == s.observationGeneration && t.wakeGeneration == s.wakeGeneration
    && (Dirty(t.observations.middle) == Dirty(s.observations.middle) || Announcing(t.control))
  }

  /** A control step that is not part of a notification leaves all of it alone. */
  lemma OtherControlKeeps(s: Sys, t: Sys)
    requires WakeInv(s) && !s.control.Notifying? && Silent(s, t)
    ensures WakeInv(t)
  {
  }

  lemma SubmitIsSilent(s: Sys, stage: SubmitStage, sub: Submission)
    requires s.Owned()
    ensures Silent(s, SubmitStep(s, stage, sub))
  {
  }

  lemma SubmitKeeps(s: Sys, stage: SubmitStage, sub: Submission)
    requires WakeInv(s) && s.control == Submitting(stage, sub)
    ensures WakeInv(SubmitStep(s, stage, sub))
  {
    SubmitIsSilent(s, stage, sub);
    OtherControlKeeps(s, SubmitStep(s, stage, sub));
  }

  lemma ConsumeIsSilent(cfg: Config, s: Sys, stage: ConsumeStage, expected: PolicyKind, spurious: bool)
    requires s.Owned()
    ensures Silent(s, ConsumeStep(cfg, s, stage, expected, spurious))
  {
  }

  lemma ConsumeKeeps(cfg: Config, s: Sys, stage: ConsumeStage, expected: PolicyKind, spurious: bool)
    requires WakeInv(s) && s.control == Consuming(stage, expected)
    ensures WakeInv(ConsumeStep(cfg, s, stage, expected, spurious))
  {
    ConsumeIsSilent(cfg, s, stage, expected, spurious);
    OtherControlKeeps(s, ConsumeStep(cfg, s, stage, expected, spurious));
  }

  lemma ControlKeeps(cfg: Config, s: Sys, call: Call, spurious: bool)
    requires WakeInv(s)
    ensures WakeInv(ControlStep(cfg, s, call, spurious))
  {
    match s.control
    case Ready => OtherControlKeeps(s, BeginCall(s, call));
    case Submitting(stage, sub) => SubmitKeeps(s, stage, sub);
    case Consuming(stage, expected) => ConsumeKeeps(cfg, s, stage, expected, spurious);
    case Notifying(stage) => NotifyKeeps(s, stage);
  }

  lemma AnnouncementKeeps(s: Sys, stage: NotifyStage)
    requires WakeInv(s) && s.control == Notifying(stage)
    requires stage.CountingOverwrite? || stage.AdvancingObservation?
    ensures WakeInv(NotifyStep(s, stage))
  {
  }

  lemma AdvanceKeeps(s: Sys, stage: NotifyStage)
    requires WakeInv(s) && s.control == Notifying(stage) && stage.AdvancingWake?
    ensures WakeInv(NotifyStep(s, stage))
  {
  }

  lemma WakingKeeps(s: Sys, stage: NotifyStage)
    requires WakeInv(s) && s.control == Notifying(stage) && stage.Waking?
    ensures WakeInv(NotifyStep(s, stage))
  {
  }

  lemma SwitchingKeeps(s: Sys, stage: NotifyStage)
    requires WakeInv(s) && s.control == Notifying(stage)
    requires stage.StartOff? || stage.StartEpoch? || stage.StartOn? || stage.StopOff? || stage.StopEpoch?
    ensures WakeInv(NotifyStep(s, stage))
  {
  }

  lemma NotifyKeeps(s: Sys, stage: NotifyStage)
    requires WakeInv(s) && s.control == Notifying(stage)
    ensures WakeInv(NotifyStep(s, stage))
  {
    match stage
    case CountingOverwrite => AnnouncementKeeps(s, stage);
    case AdvancingObservation => AnnouncementKeeps(s, stage);
    case AdvancingWake(_) => AdvanceKeeps(s, stage);
    case Waking(_) => WakingKeeps(s, stage);
    case _ => SwitchingKeeps(s, stage);
  }

  lemma StopperKeeps(s: Sys)
    requires WakeInv(s)
    ensures WakeInv(StopperStep(s))
  {
  }

  lemma SleepOnlyOnEqualGenerations(generation: nat, snap: nat)
    requires snap <= generation < snap + FUTEX_MODULUS && SameWord(generation, snap)
    ensures generation == snap
  {
  }

  lemma WorkerKeeps(cfg: Config, s: Sys, spurious: bool, terminated: bool)
    requires WakeInv(s) && FewNotifications(s)
    ensures WakeInv(WorkerStep(cfg, s, spurious, terminated))
  {
    match s.worker
    case Waiting(stage) => WaitKeeps(s, stage);
    case Idling(stage) => IdleKeeps(s, stage);
    case Polling(stage) => PollKeeps(s, stage, spurious);
    case Inferring(stage) => InferKeeps(cfg, s, stage, terminated);
    case Exited =>
  }

  lemma PollKeeps(s: Sys, stage: PollStage, spurious: bool)
    requires WakeInv(s) && s.worker == Polling(stage)
    ensures WakeInv(PollStep(s, stage, spurious))
  {
  }

  lemma WaitKeeps(s: Sys, stage: WaitStage)
    requires WakeInv(s) && FewNotifications(s) && s.worker == Waiting(stage)
    ensures WakeInv(s.(worker := WaitStep(s, stage)))
  {
    if stage.WaitFutex? && SameWord(s.wakeGeneration, stage.snap) {
      SleepOnlyOnEqualGenerations(s.wakeGeneration, stage.snap);
    }
  }

  lemma IdleKeeps(s: Sys, stage: IdleStage)
    requires WakeInv(s) && FewNotifications(s) && s.worker == Idling(stage)
    ensures WakeInv(s.(worker := IdleStep(s, stage)))
  {
    if stage.IdleFutex? && SameWord(s.wakeGeneration, stage.snap) {
      SleepOnlyOnEqualGenerations(s.wakeGeneration, stage.snap);
    }
  }

  /** A worker that neither waits nor idles, with nothing a notifier writes changed. */
  ghost predicate Busy(s: Sys, t: Sys) {
    && t.observations.Owned() && t.actions.Owned()
    && (t.worker.Polling? || t.worker.Inferring?) && t.stopper == s.stopper && t.running == s.running
    && t.observationGeneration == s.observationGeneration
    && (t.observed == s.observed || t.observed == s.observationGeneration)
  }

  lemma BusyKeeps(s: Sys, t: Sys)
    requires WakeInv(s) && Busy(s, t)
    ensures WakeInv(t)
  {
  }

  lemma StoredResultIsBusy(s: Sys, p: ActionPacket, next: InferStage)
    requires s.Owned()
    ensures Busy(s, s.StoreResult(p, next))
  {
  }

  lemma InferIsBusy(cfg: Config, s: Sys, stage: InferStage, terminated: bool)
    requires s.Owned() && s.worker == Inferring(stage)
    ensures Busy(s, InferStep(cfg, s, stage, terminated))
  {
    var t := InferStep(cfg, s, stage, terminated);
    if t.actions != s.actions && !stage.PublishingAction? {
      StoredResultIsBusy(s, t.actions.slots[s.actions.back], t.worker.infer);
    }
  }

  lemma InferKeeps(cfg: Config, s: Sys, stage: InferStage, terminated: bool)
    requires WakeInv(s) && s.worker == Inferring(stage)
    ensures WakeInv(InferStep(cfg, s, stage, terminated))
  {
    InferIsBusy(cfg, s, stage, terminated);
    BusyKeeps(s, InferStep(cfg, s, stage, terminated));
  }

  lemma DoKeeps(cfg: Config, s: Sys, step: Step)
    requires WakeInv(s) && FewNotifications(s)
    ensures WakeInv(Do(cfg, s, step))
  {
    match step
    case ControlMoves(call, spurious) => ControlKeeps(cfg, s, call, spurious);
    case WorkerMoves(spurious, terminated) => WorkerKeeps(cfg, s, spurious, terminated);
    case StopperMoves => StopperKeeps(s);
    case _ =>
  }

  /** A run in which the worker never takes 2^32 notifications to go from its
      snapshot to its FUTEX_WAIT. */
  ghost predicate PromptRun(cfg: Config, states: seq<Sys>, steps: seq<Step>) {
    Run(cfg, states, steps) && forall i :: 0 <= i < |states| ==> FewNotifications(states[i])
  }

  lemma {:induction false} RunKeeps(cfg: Config, states: seq<Sys>, steps: seq<Step>, n: nat)
    requires PromptRun(cfg, states, steps) && n < |states|
    ensures WakeInv(states[n])
  {
    if n > 0 {
      RunKeeps(cfg, states, steps, n - 1);
      DoKeeps(cfg, states[n - 1], steps[n - 1]);
    }
  }

  // ---------------------------------------------------------------------------
  // What it means for the worker
  // ---------------------------------------------------------------------------

  /** If the worker sleeps waiting for an observation while one has been announced,
      or while it should stop or go idle, then whoever changed that is still on its
      way to wake it; likewise if it sleeps waiting for activation. */
  lemma NoLostWakeup(cfg: Config, states: seq<Sys>, steps: seq<Step>, n: nat)
    requires PromptRun(cfg, states, steps) && n < |states|
    ensures var s := states[n];
      && (s.worker.Waiting? && s.worker.wait.WaitAsleep?
            && (s.observationGeneration != s.observed || Dirty(s.observations.middle) || !s.running || !s.active)
          ==> NotifierUnderWay(s))
      && (s.worker.Idling? && s.worker.idle.IdleAsleep? && (s.active || !s.running) ==> NotifierUnderWay(s))
  {
    RunKeeps(cfg, states, steps, n);
  }

  /** With the control thread between calls and no stop in progress, a worker asleep
      waiting for an observation has an empty mailbox and nothing to react to. */
  lemma AsleepMeansNothingToDo(cfg: Config, states: seq<Sys>, steps: seq<Step>, n: nat)
    requires PromptRun(cfg, states, steps) && n < |states|
    requires var s := states[n];
      && s.worker.Waiting? && s.worker.wait.WaitAsleep?
      && s.control.Ready? && (s.stopper == NotStopping || s.stopper == StopDone)
    ensures var s := states[n];
      && !Dirty(s.observations.middle) && s.observationGeneration == s.observed && s.active && s.running
  {
    RunKeeps(cfg, states, steps, n);
  }

  /** Once the stopping thread has made its wake-up call the worker never sleeps. */
  lemma NeverAsleepAfterStop(cfg: Config, states: seq<Sys>, steps: seq<Step>, n: nat)
    requires PromptRun(cfg, states, steps) && n < |states| && states[n].stopper == StopDone
    ensures var w := states[n].worker;
      !(w.Waiting? && w.wait.WaitAsleep?) && !(w.Idling? && w.idle.IdleAsleep?)
  {
    RunKeeps(cfg, states, steps, n);
  }

  /** The bound on notifications is what the 32-bit futex word needs, exactly: with a
      newer generation than the snapshot the worker falls asleep if and only if a
      whole multiple of 2^32 notifications came in between. */
  lemma SleepsThroughExactlyOnWrap(s: Sys, snap: nat)
    requires s.worker == Waiting(WaitFutex(snap)) && snap <= s.wakeGeneration
    ensures WaitStep(s, s.worker.wait) == Waiting(WaitAsleep(snap))
            <==> exists laps: nat :: s.wakeGeneration == snap + laps * FUTEX_MODULUS
  {
    var gap := s.wakeGeneration - snap;
    if SameWord(s.wakeGeneration, snap) {
      var laps := s.wakeGeneration / FUTEX_MODULUS - snap / FUTEX_MODULUS;
      assert s.wakeGeneration == snap + laps * FUTEX_MODULUS;
    }
  }
}

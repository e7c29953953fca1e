/**
 The asynchronous inference protocol as interleaved steps of three threads: the
 control thread, the inference worker, and the thread that stops the worker.

 One step is one atomic operation, one store into a mailbox slot, or one read of
 a slot; work on a thread's own variables is folded into the step next to it.
 Atomics are sequentially consistent and a weak compare-exchange may fail.
 */
module AsyncInference {
  import opened Common
  import opened LatestTripleBuffer
  import opened PolicySession

  /** `run` is the policy as a function of the observation it is given; `None` is
      a run that does not succeed. */
  datatype Config = Config(
    run: (PolicyKind, seq<Float>) -> Option<seq<Float>>,
    observationCapacity: nat, actionCapacity: nat, timeoutMs: int)

  /** One call of `submitObservation` that passed the size test, as the control
      thread itself knows it. */
  datatype Submission = Submission(
    policy: PolicyKind, epoch: nat, sequence: nat, timestampNs: int, input: seq<Float>)

  /** One successful `applyActionPacket`: what the destination array then holds. */
  datatype Application = Application(
    policy: PolicyKind, epoch: nat, sequence: nat, timestampNs: int, consumedNs: int, output: seq<Float>)

  datatype Notice = NewObservation | Started | Stopped

  /** Stages of `submitObservation`. */
  datatype SubmitStage =
    | StoringPolicy | StoringEpoch | StoringSequence | StoringTimestamp | StoringSize | StoringData(i: nat)
    | Publishing

  /** Stages of `publishObservation` after its exchange, of `starting` and of `stopping`. */
  datatype NotifyStage =
    | CountingOverwrite | AdvancingObservation | AdvancingWake(why: Notice) | Waking(why: Notice)
    | StartOff | StartEpoch | StartOn | StopOff | StopEpoch

  /** Stages of `consumeAction`. */
  datatype ConsumeStage = LoadingActions | SwappingActions(seen: Word) | Checking | Copying(consumedNs: int, i: nat)

  datatype ControlPc =
    | Ready
    | Submitting(submit: SubmitStage, sub: Submission)
    | Notifying(notify: NotifyStage)
    | Consuming(consume: ConsumeStage, expected: PolicyKind)

  /** Stages of `inferenceLoop` that look for an observation. */
  datatype PollStage = Top | CheckingActive | LoadingObservations | SwappingObservations(seen: Word) | Reloading

  /** Stages of `waitUntilInferenceActive`. */
  datatype IdleStage =
    | IdleActive | IdleRunning | IdleSnapshot | IdleActive2(snap: nat) | IdleRunning2(snap: nat)
    | IdleFutex(snap: nat) | IdleAsleep(snap: nat)

  /** Stages of `waitForObservationNotification`. */
  datatype WaitStage =
    | WaitGeneration | WaitRunning | WaitActive | WaitSnapshot | WaitGeneration2(snap: nat)
    | WaitRunning2(snap: nat) | WaitActive2(snap: nat) | WaitFutex(snap: nat) | WaitAsleep(snap: nat)

  /** Stages of `inferenceLoop` for a consumed observation. */
  datatype InferStage =
    | Noting | RecheckingActive | RecheckingEpoch
    | ClearingValid | WritingPolicy | WritingEpoch | WritingSource | WritingTimestamp
    | ReadingInput(input: seq<Float>) | RunningPolicy(input: seq<Float>)
    | WritingOutput(output: seq<Float>, i: nat) | WritingSize(result: Option<seq<Float>>)
    | WritingValid(ok: bool) | PublishingAction

  datatype WorkerPc =
    | Polling(poll: PollStage) | Idling(idle: IdleStage) | Waiting(wait: WaitStage) | Inferring(infer: InferStage)
    | Exited

  /** `stopInferenceThread` up to its notification. */
  datatype StopperPc = NotStopping | StoppingRun | StopAdvancing | StopWaking | StopDone

  datatype Sys = Sys(
    now: int,
    session: Session, active: bool, running: bool,
    observationGeneration: nat,
    wakeGeneration: nat,                 // increments so far; the futex word is this modulo 2^32
    overwrittenObservations: nat,
    observations: Mailbox<ObservationPacket>, actions: Mailbox<ActionPacket>,
    destination: map<PolicyKind, seq<Float>>,
    control: ControlPc, worker: WorkerPc, observed: nat, stopper: StopperPc,
    submitted: seq<Submission>, applied: seq<Application>)
  {
    ghost predicate Owned() {
      observations.Owned() && actions.Owned()
    }

    /** The slot the control thread fills, and the one the worker reads. */
    function Draft(): ObservationPacket requires Owned() { observations.slots[observations.back] }
    function Held(): ObservationPacket requires Owned() { observations.slots[observations.front] }

    /** The slot the worker fills, and the one the control thread reads. */
    function Result(): ActionPacket requires Owned() { actions.slots[actions.back] }
    function Received(): ActionPacket requires Owned() { actions.slots[actions.front] }

    function StoreDraft(p: ObservationPacket, next: ControlPc): Sys requires Owned() {
      this.(observations := observations.WriteBack(p), control := next)
    }

    function StoreResult(p: ActionPacket, next: InferStage): Sys requires Owned() {
      this.(actions := actions.WriteBack(p), worker := Inferring(next))
    }

    function Destination(kind: PolicyKind): Option<seq<Float>> {
      if kind in destination then Some(destination[kind]) else None
    }
  }

  const FUTEX_MODULUS: nat := 0x1_0000_0000

  /** Both notifiers end with FUTEX_WAKE; a sleeping worker goes back to its loop test. */
  function Woken(pc: WorkerPc): WorkerPc {
    if pc.Idling? && pc.idle.IdleAsleep? then Idling(IdleActive)
    else if pc.Waiting? && pc.wait.WaitAsleep? then Waiting(WaitGeneration)
    else pc
  }

  // ---------------------------------------------------------------------------
  // The control thread
  // ---------------------------------------------------------------------------

  /** What the control thread does next when it is between calls. `Rewrite` is any
      other change it makes to an action array: zeroing, clamping, seeding. */
  datatype Call =
    | Submit(policy: PolicyKind, input: seq<Float>) | Consume(expected: PolicyKind)
    | EnterPolicy(policy: PolicyKind) | LeavePolicy | Starting | Stopping
    | Rewrite(kind: PolicyKind, values: seq<Float>)

  function BeginCall(s: Sys, call: Call): Sys
    requires s.Owned()
  {
    match call
    case Submit(policy, input) =>
      if |input| > |s.Draft().data| then s
      else s.(control := Submitting(StoringPolicy, Submission(policy, 0, 0, 0, input)))
    case Consume(expected) => s.(control := Consuming(LoadingActions, expected))
    case EnterPolicy(policy) => s.(session := Enter(s.session, policy, s.now))
    case LeavePolicy => s.(session := Leave(s.session))
    case Starting => s.(control := Notifying(StartOff))
    case Stopping => s.(control := Notifying(StopOff))
    case Rewrite(kind, values) => s.(destination := s.destination[kind := values])
  }

  /** `submitObservation` after its size test, up to the exchange. */
  function SubmitStep(s: Sys, stage: SubmitStage, sub: Submission): Sys
    requires s.Owned()
  {
    var d := s.Draft();
    match stage
    case StoringPolicy => s.StoreDraft(d.(policy := sub.policy), Submitting(StoringEpoch, sub))
    case StoringEpoch =>
      s.StoreDraft(d.(epoch := s.session.epoch), Submitting(StoringSequence, sub.(epoch := s.session.epoch)))
    case StoringSequence =>
      var sequence := s.session.observationSequence + 1;
      s.StoreDraft(d.(sequence := sequence), Submitting(StoringTimestamp, sub.(sequence := sequence)))
       .(session := s.session.(observationSequence := sequence))
    case StoringTimestamp =>
      s.StoreDraft(d.(timestampNs := s.now), Submitting(StoringSize, sub.(timestampNs := s.now)))
    case StoringSize => s.StoreDraft(d.(size := |sub.input|), Submitting(StoringData(0), sub))
    case StoringData(i) =>
      if i < |sub.input| && i < |d.data|
      then s.StoreDraft(d.(data := d.data[i := sub.input[i]]), Submitting(StoringData(i + 1), sub))
      else s.(control := Submitting(Publishing, sub))
    case Publishing =>
      s.(observations := s.observations.Publish(), submitted := s.submitted + [sub],
         control := Notifying(if Dirty(s.observations.middle) then CountingOverwrite else AdvancingObservation))
  }

  /** The rest of `publishObservation`, and the steps of `starting` and `stopping`. */
  function NotifyStep(s: Sys, stage: NotifyStage): Sys {
    match stage
    case CountingOverwrite =>
      s.(overwrittenObservations := s.overwrittenObservations + 1, control := Notifying(AdvancingObservation))
    case AdvancingObservation =>
      s.(observationGeneration := s.observationGeneration + 1, control := Notifying(AdvancingWake(NewObservation)))
    case AdvancingWake(why) => s.(wakeGeneration := s.wakeGeneration + 1, control := Notifying(Waking(why)))
    case Waking(why) =>
      s.(worker := Woken(s.worker), control := if why == Stopped then Notifying(StopEpoch) else Ready)
    case StartOff => s.(active := false, control := Notifying(StartEpoch))
    case StartEpoch => s.(session := Start(s.session), control := Notifying(StartOn))
    case StartOn => s.(active := true, control := Notifying(AdvancingWake(Started)))
    case StopOff => s.(active := false, control := Notifying(AdvancingWake(Stopped)))
    case StopEpoch => s.(session := Stop(s.session), control := Ready)
  }

  /** `consumeAction`. */
  function ConsumeStep(cfg: Config, s: Sys, stage: ConsumeStage, expected: PolicyKind, spurious: bool): Sys
    requires s.Owned()
  {
    match stage
    case LoadingActions => s.(control := LoadedActions(s, expected))
    case SwappingActions(seen) =>
      if s.actions.middle == seen && !spurious then
        s.(actions := s.actions.Take(), control := Consuming(Checking, expected))
      else s.(control := LoadedActions(s, expected))
    case Checking =>
      s.(control :=
           if Accepts(s.session, s.Received(), expected, s.now, cfg.timeoutMs, s.Destination(expected))
           then Consuming(Copying(s.now, 0), expected) else Ready)
    case Copying(consumedNs, i) =>
      var r := s.Received();
      var target := if expected in s.destination then s.destination[expected] else [];
      if i < r.size && i < |r.actions| && i < |target| then
        s.(destination := s.destination[expected := target[i := r.actions[i]]],
           control := Consuming(Copying(consumedNs, i + 1), expected))
      else
        s.(session := AfterApply(s.session, r), control := Ready,
           applied := s.applied + [Application(expected, s.session.epoch, r.sourceSequence,
                                               r.observationTimestampNs, consumedNs, target)])
  }

  /** A clean word ends `consumeLatest` with a null pointer. */
  function LoadedActions(s: Sys, expected: PolicyKind): ControlPc {
    if Dirty(s.actions.middle) then Consuming(SwappingActions(s.actions.middle), expected) else Ready
  }

  function ControlStep(cfg: Config, s: Sys, call: Call, spurious: bool): Sys
    requires s.Owned()
  {
    match s.control
    case Ready => BeginCall(s, call)
    case Submitting(stage, sub) => SubmitStep(s, stage, sub)
    case Notifying(stage) => NotifyStep(s, stage)
    case Consuming(stage, expected) => ConsumeStep(cfg, s, stage, expected, spurious)
  }

  // ---------------------------------------------------------------------------
  // The inference worker
  // ---------------------------------------------------------------------------

  /** FUTEX_WAIT compares 32-bit words. */
  predicate SameWord(generation: nat, snap: nat) {
    generation % FUTEX_MODULUS == snap % FUTEX_MODULUS
  }

  /** The loop of `inferenceLoop` up to a consumed observation. */
  function PollStep(s: Sys, stage: PollStage, spurious: bool): Sys
    requires s.Owned()
  {
    match stage
    case Top => s.(worker := if s.running then Polling(CheckingActive) else Exited)
    case CheckingActive => s.(worker := if s.active then Polling(LoadingObservations) else Idling(IdleActive))
    case LoadingObservations => s.(worker := LoadedObservations(s))
    case SwappingObservations(seen) =>
      if s.observations.middle == seen && !spurious then
        s.(observations := s.observations.Take(), worker := Inferring(Noting))
      else s.(worker := LoadedObservations(s))
    case Reloading => s.(observed := s.observationGeneration, worker := Polling(Top))
  }

  function LoadedObservations(s: Sys): WorkerPc {
    if Dirty(s.observations.middle) then Polling(SwappingObservations(s.observations.middle))
    else Waiting(WaitGeneration)
  }

  /** `waitUntilInferenceActive`. */
  function IdleStep(s: Sys, stage: IdleStage): WorkerPc {
    match stage
    case IdleActive => if s.active then Polling(Reloading) else Idling(IdleRunning)
    case IdleRunning => if s.running then Idling(IdleSnapshot) else Polling(Reloading)
    case IdleSnapshot => Idling(IdleActive2(s.wakeGeneration))
    case IdleActive2(snap) => if s.active then Polling(Reloading) else Idling(IdleRunning2(snap))
    case IdleRunning2(snap) => if s.running then Idling(IdleFutex(snap)) else Polling(Reloading)
    case IdleFutex(snap) => Idling(if SameWord(s.wakeGeneration, snap) then IdleAsleep(snap) else IdleActive)
    case IdleAsleep(snap) => Idling(stage)
  }

  /** `waitForObservationNotification`. */
  function WaitStep(s: Sys, stage: WaitStage): WorkerPc {
    match stage
    case WaitGeneration =>
      if s.observationGeneration == s.observed then Waiting(WaitRunning) else Polling(Reloading)
    case WaitRunning => if s.running then Waiting(WaitActive) else Polling(Reloading)
    case WaitActive => if s.active then Waiting(WaitSnapshot) else Polling(Reloading)
    case WaitSnapshot => Waiting(WaitGeneration2(s.wakeGeneration))
    case WaitGeneration2(snap) =>
      if s.observationGeneration == s.observed then Waiting(WaitRunning2(snap)) else Polling(Reloading)
    case WaitRunning2(snap) => if s.running then Waiting(WaitActive2(snap)) else Polling(Reloading)
    case WaitActive2(snap) => if s.active then Waiting(WaitFutex(snap)) else Polling(Reloading)
    case WaitFutex(snap) => Waiting(if SameWord(s.wakeGeneration, snap) then WaitAsleep(snap) else WaitGeneration)
    case WaitAsleep(snap) => Waiting(stage)
  }

  /** The body of `inferenceLoop` for a consumed observation; `terminated` is a run
      that the policy runtime gives up on. */
  function InferStep(cfg: Config, s: Sys, stage: InferStage, terminated: bool): Sys
    requires s.Owned()
  {
    var o, a := s.Held(), s.Result();
    match stage
    case Noting => s.(observed := s.observationGeneration, worker := Inferring(RecheckingActive))
    case RecheckingActive => s.(worker := if s.active then Inferring(RecheckingEpoch) else Polling(Top))
    case RecheckingEpoch =>
      s.(worker := if o.epoch == s.session.epoch then Inferring(ClearingValid) else Polling(Top))
    case ClearingValid => s.StoreResult(a.(valid := false), WritingPolicy)
    case WritingPolicy => s.StoreResult(a.(policy := o.policy), WritingEpoch)
    case WritingEpoch => s.StoreResult(a.(epoch := o.epoch), WritingSource)
    case WritingSource => s.StoreResult(a.(sourceSequence := o.sequence), WritingTimestamp)
    case WritingTimestamp =>
      s.StoreResult(a.(observationTimestampNs := o.timestampNs),
                    if o.policy == NONE then WritingValid(false) else ReadingInput([]))
    case ReadingInput(input) =>
      s.(worker := Inferring(if |input| < o.size && |input| < |o.data|
                             then ReadingInput(input + [o.data[|input|]]) else RunningPolicy(input)))
    case RunningPolicy(input) =>
      var result := cfg.run(o.policy, input);
      s.(worker := Inferring(if terminated || result.None? || |result.value| > |a.actions|
                             then WritingSize(None) else WritingOutput(result.value, 0)))
    case WritingOutput(output, i) =>
      if i < |output| && i < |a.actions|
      then s.StoreResult(a.(actions := a.actions[i := output[i]]), WritingOutput(output, i + 1))
      else s.(worker := Inferring(WritingSize(Some(output))))
    case WritingSize(result) =>
      s.StoreResult(a.(size := if result.Some? then |result.value| else 0), WritingValid(result.Some?))
    case WritingValid(ok) => s.StoreResult(a.(valid := ok), PublishingAction)
    case PublishingAction => s.(actions := s.actions.Publish(), worker := Polling(Top))
  }

  function WorkerStep(cfg: Config, s: Sys, spurious: bool, terminated: bool): Sys
    requires s.Owned()
  {
    match s.worker
    case Polling(stage) => PollStep(s, stage, spurious)
    case Idling(stage) => s.(worker := IdleStep(s, stage))
    case Waiting(stage) => s.(worker := WaitStep(s, stage))
    case Inferring(stage) => InferStep(cfg, s, stage, terminated)
    case Exited => s
  }

  // ---------------------------------------------------------------------------
  // The stopping thread, and whole runs
  // ---------------------------------------------------------------------------

  function StopperStep(s: Sys): Sys {
    match s.stopper
    case NotStopping => s.(active := false, stopper := StoppingRun)
    case StoppingRun => s.(running := false, stopper := StopAdvancing)
    case StopAdvancing => s.(wakeGeneration := s.wakeGeneration + 1, stopper := StopWaking)
    case StopWaking => s.(worker := Woken(s.worker), stopper := StopDone)
    case StopDone => s
  }

  datatype Step =
    | Elapse(ns: nat)
    | ControlMoves(call: Call, spurious: bool)
    | WorkerMoves(spurious: bool, terminated: bool)
    | WorkerInterrupted                        // EINTR or a spurious futex wake-up
    | StopperMoves

  function Do(cfg: Config, s: Sys, step: Step): Sys
    requires s.Owned()
  {
    match step
    case Elapse(ns) => s.(now := s.now + ns)
    case ControlMoves(call, spurious) => ControlStep(cfg, s, call, spurious)
    case WorkerMoves(spurious, terminated) =>
      WorkerStep(cfg, s, spurious, terminated)
    case WorkerInterrupted => s.(worker := Woken(s.worker))
    case StopperMoves => StopperStep(s)
  }

  /** What `init` leaves behind just before the worker thread is created. */
  ghost predicate Initial(cfg: Config, s: Sys) {
    && s.Owned()
    && s.session == Session(NONE, 0, 0, 0, 0, 0) && !s.active && s.running
    && s.observationGeneration == 0 && s.wakeGeneration == 0 && s.overwrittenObservations == 0
    && s.observed == 0
    && s.observations.middle == 1 && s.actions.middle == 1
    && s.observations.published == [] && s.observations.taken == [] && s.observations.overwritten == 0
    && s.actions.published == [] && s.actions.taken == [] && s.actions.overwritten == 0
    && (forall i :: 0 <= i < 3 ==> |s.observations.slots[i].data| == cfg.observationCapacity)
    && (forall i :: 0 <= i < 3 ==> |s.actions.slots[i].actions| == cfg.actionCapacity)
    && s.control == Ready && s.worker == Polling(Reloading) && s.stopper == NotStopping
    && s.submitted == [] && s.applied == []
  }

  /** Fewer than 2^32 notifications fall between the worker's snapshot of the wake
      generation and its FUTEX_WAIT. */
  ghost predicate FewNotifications(s: Sys) {
    && (s.worker.Idling? && s.worker.idle.IdleFutex? ==> s.wakeGeneration - s.worker.idle.snap < FUTEX_MODULUS)
    && (s.worker.Waiting? && s.worker.wait.WaitFutex? ==> s.wakeGeneration - s.worker.wait.snap < FUTEX_MODULUS)
  }

  /** A run; the premise leaves nothing out, since every state of a run is `Owned`. */
  ghost predicate Run(cfg: Config, states: seq<Sys>, steps: seq<Step>) {
    && |states| == |steps| + 1
    && Initial(cfg, states[0])
    && (forall i {:trigger steps[i]} :: 0 <= i < |steps| ==>
          states[i].Owned() ==> states[i + 1] == Do(cfg, states[i], steps[i]))
  }
}

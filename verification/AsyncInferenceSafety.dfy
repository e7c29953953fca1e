/**
 End-to-end integrity of asynchronous inference: in every interleaving, whatever
 action vector the control thread applies is the policy's output on one
 observation it submitted itself, whole and unchanged, in the current epoch.
 */
module AsyncInferenceSafety {
  import opened Common
  import opened LatestTripleBuffer
  import opened PolicySession
  import opened AsyncInference

  // ---------------------------------------------------------------------------
  // What ties packets to submissions
  // ---------------------------------------------------------------------------

  /** The packet carries exactly this submission; the buffer may be longer. */
  ghost predicate Carries(o: ObservationPacket, sub: Submission) {
    && o.policy == sub.policy && o.epoch == sub.epoch && o.sequence == sub.sequence
    && o.timestampNs == sub.timestampNs
    && o.size == |sub.input| <= |o.data| && o.data[..o.size] == sub.input
  }

  /** The action packet is the policy's answer to this submission. */
  ghost predicate Answers(cfg: Config, a: ActionPacket, sub: Submission) {
    && a.policy == sub.policy && a.epoch == sub.epoch && a.sourceSequence == sub.sequence
    && a.observationTimestampNs == sub.timestampNs
    && a.size <= |a.actions| && cfg.run(sub.policy, sub.input) == Some(a.actions[..a.size])
  }

  ghost predicate Genuine(cfg: Config, a: ActionPacket, submitted: seq<Submission>) {
    exists k :: 0 <= k < |submitted| && Answers(cfg, a, submitted[k])
  }

  /** What `applied` records is the policy's answer to this submission, and it was
      young enough when it was checked. */
  ghost predicate Applies(cfg: Config, a: Application, sub: Submission) {
    && a.policy == sub.policy && a.epoch == sub.epoch && a.sequence == sub.sequence
    && a.timestampNs == sub.timestampNs
    && cfg.run(sub.policy, sub.input) == Some(a.output)
    && !Expired(a.consumedNs - a.timestampNs, cfg.timeoutMs)
  }

  ghost predicate Earlier(epoch: nat, sequence: nat, epoch': nat, sequence': nat) {
    epoch < epoch' || (epoch == epoch' && sequence < sequence')
  }

  // ---------------------------------------------------------------------------
  // The invariant, one part for each thread's data
  // ---------------------------------------------------------------------------

  ghost predicate BoxesInv(cfg: Config, observations: Mailbox<ObservationPacket>, actions: Mailbox<ActionPacket>) {
    && observations.Inv() && actions.Inv()
    && (forall i :: 0 <= i < 3 ==> |observations.slots[i].data| == cfg.observationCapacity)
    && (forall i :: 0 <= i < 3 ==> |actions.slots[i].actions| == cfg.actionCapacity)
  }

  /** How far the control thread has got with the slot it fills. */
  ghost predicate DraftInv(d: ObservationPacket, session: Session, control: ControlPc) {
    control.Submitting? ==> StageInv(d, session, control.submit, control.sub)
  }

  ghost predicate StageInv(d: ObservationPacket, session: Session, stage: SubmitStage, sub: Submission) {
    && |sub.input| <= |d.data|
    && (!stage.StoringPolicy? ==> d.policy == sub.policy)
    && (!stage.StoringPolicy? && !stage.StoringEpoch? ==> d.epoch == sub.epoch == session.epoch)
    && (HasSequence(stage) ==> d.sequence == sub.sequence == session.observationSequence && sub.sequence > 0)
    && (stage.StoringSize? || stage.StoringData? || stage.Publishing? ==> d.timestampNs == sub.timestampNs)
    && (stage.StoringData? || stage.Publishing? ==> d.size == |sub.input|)
    && (stage.StoringData? ==> stage.i <= |sub.input| && d.data[..stage.i] == sub.input[..stage.i])
    && (stage.Publishing? ==> d.data[..|sub.input|] == sub.input)
  }

  predicate HasSequence(stage: SubmitStage) {
    stage.StoringTimestamp? || stage.StoringSize? || stage.StoringData? || stage.Publishing?
  }

  /** The last sequence number in use: one that has been taken for a packet not
      published yet does not count. */
  function LastPublishedSequence(session: Session, control: ControlPc): int {
    session.observationSequence - if control.Submitting? && HasSequence(control.submit) then 1 else 0
  }

  ghost predicate SubmissionsInv(published: seq<ObservationPacket>, submitted: seq<Submission>,
                                 epoch: nat, lastSequence: int) {
    && |published| == |submitted|
    && (forall k :: 0 <= k < |submitted| ==> Carries(published[k], submitted[k]))
    && (forall k :: 0 <= k < |submitted| ==>
          && submitted[k].sequence > 0 && submitted[k].epoch <= epoch
          && (submitted[k].epoch == epoch ==> submitted[k].sequence <= lastSequence))
    && (forall j, k :: 0 <= j < k < |submitted| ==>
          Earlier(submitted[j].epoch, submitted[j].sequence, submitted[k].epoch, submitted[k].sequence))
  }

  /** How far the worker has got with the slot it fills, relative to the one it holds. */
  ghost predicate ResultInv(cfg: Config, o: ObservationPacket, a: ActionPacket, worker: WorkerPc) {
    worker.Inferring? ==> InferInv(cfg, o, a, worker.infer)
  }

  ghost predicate InferInv(cfg: Config, o: ObservationPacket, a: ActionPacket, stage: InferStage) {
    match stage
    case WritingEpoch => a.policy == o.policy
    case WritingSource => a.policy == o.policy && a.epoch == o.epoch
    case WritingTimestamp => a.policy == o.policy && a.epoch == o.epoch && a.sourceSequence == o.sequence
    case ReadingInput(input) =>
      HeaderCopied(o, a) && |input| <= o.size <= |o.data| && input == o.data[..|input|]
    case RunningPolicy(input) => HeaderCopied(o, a) && o.size <= |o.data| && input == o.data[..o.size]
    case WritingOutput(output, i) =>
      && HeaderCopied(o, a) && Computed(cfg, o, output)
      && i <= |output| <= |a.actions| && a.actions[..i] == output[..i]
    case WritingSize(result) =>
      && HeaderCopied(o, a)
      && (result.Some? ==> Computed(cfg, o, result.value) && |result.value| <= |a.actions|
                           && a.actions[..|result.value|] == result.value)
    case WritingValid(ok) => ok ==> Computes(cfg, o, a)
    case PublishingAction => a.valid ==> Computes(cfg, o, a)
    case _ => true
  }

  ghost predicate HeaderCopied(o: ObservationPacket, a: ActionPacket) {
    && a.policy == o.policy && a.epoch == o.epoch && a.sourceSequence == o.sequence
    && a.observationTimestampNs == o.timestampNs
  }

  ghost predicate Computed(cfg: Config, o: ObservationPacket, output: seq<Float>) {
    o.size <= |o.data| && cfg.run(o.policy, o.data[..o.size]) == Some(output)
  }

  ghost predicate Computes(cfg: Config, o: ObservationPacket, a: ActionPacket) {
    HeaderCopied(o, a) && a.size <= |a.actions| && Computed(cfg, o, a.actions[..a.size])
  }

  ghost predicate AnswersInv(cfg: Config, published: seq<ActionPacket>, submitted: seq<Submission>) {
    forall k :: 0 <= k < |published| && published[k].valid ==> Genuine(cfg, published[k], submitted)
  }

  /** How far the control thread has got with the packet it received. */
  ghost predicate ReceiptInv(cfg: Config, r: ActionPacket, session: Session,
                             destination: map<PolicyKind, seq<Float>>, control: ControlPc) {
    control.Consuming? && control.consume.Copying? ==>
      var Copying(consumedNs, i) := control.consume;
      && control.expected in destination
      && Accepts(session, r, control.expected, consumedNs, cfg.timeoutMs, Some(destination[control.expected]))
      && i <= r.size && destination[control.expected][..i] == r.actions[..i]
  }

  ghost predicate AppliedInv(cfg: Config, applied: seq<Application>, submitted: seq<Submission>,
                             epoch: nat, lastApplied: nat) {
    && (forall k :: 0 <= k < |applied| ==> Backed(cfg, applied[k], submitted))
    && (forall k :: 0 <= k < |applied| ==>
          && applied[k].epoch <= epoch
          && (applied[k].epoch == epoch ==> applied[k].sequence <= lastApplied))
    && (forall j, k :: 0 <= j < k < |applied| ==>
          Earlier(applied[j].epoch, applied[j].sequence, applied[k].epoch, applied[k].sequence))
  }

  ghost predicate Backed(cfg: Config, a: Application, submitted: seq<Submission>) {
    exists j :: 0 <= j < |submitted| && Applies(cfg, a, submitted[j])
  }

  /** The control thread has consumed the packet it reads, and saw a dirty word
      before it swaps; likewise the worker. */
  ghost predicate ReadsInv(control: ControlPc, worker: WorkerPc, observations: Mailbox<ObservationPacket>,
                           actions: Mailbox<ActionPacket>) {
    && (control.Consuming? && (control.consume.Checking? || control.consume.Copying?) ==> actions.taken != [])
    && (control.Consuming? && control.consume.SwappingActions? ==> Dirty(control.consume.seen))
    && (worker.Inferring? ==> observations.taken != [])
    && (worker.Polling? && worker.poll.SwappingObservations? ==> Dirty(worker.poll.seen))
  }

  /** Replaced observations that have been counted or are about to be. */
  function OverwritesCounted(s: Sys): nat {
    s.overwrittenObservations + if s.control == Notifying(CountingOverwrite) then 1 else 0
  }

  ghost predicate Inv(cfg: Config, s: Sys) {
    && BoxesInv(cfg, s.observations, s.actions)
    && ReadsInv(s.control, s.worker, s.observations, s.actions)
    && s.observations.overwritten == OverwritesCounted(s)
    && DraftInv(s.Draft(), s.session, s.control)
    && SubmissionsInv(s.observations.published, s.submitted, s.session.epoch,
                      LastPublishedSequence(s.session, s.control))
    && ResultInv(cfg, s.Held(), s.Result(), s.worker)
    && AnswersInv(cfg, s.actions.published, s.submitted)
    && ReceiptInv(cfg, s.Received(), s.session, s.destination, s.control)
    && AppliedInv(cfg, s.applied, s.submitted, s.session.epoch, s.session.lastAppliedSequence)
  }

  // ---------------------------------------------------------------------------
  // Growing records
  // ---------------------------------------------------------------------------

  /** A later submission takes nothing away from what is genuine. */
  lemma GenuineGrows(cfg: Config, a: ActionPacket, submitted: seq<Submission>, sub: Submission)
    requires Genuine(cfg, a, submitted)
    ensures Genuine(cfg, a, submitted + [sub])
  {
    var k :| 0 <= k < |submitted| && Answers(cfg, a, submitted[k]);
    assert (submitted + [sub])[k] == submitted[k];
  }

  lemma BackedGrows(cfg: Config, a: Application, submitted: seq<Submission>, sub: Submission)
    requires Backed(cfg, a, submitted)
    ensures Backed(cfg, a, submitted + [sub])
  {
    var k :| 0 <= k < |submitted| && Applies(cfg, a, submitted[k]);
    assert (submitted + [sub])[k] == submitted[k];
  }

  lemma AnswersGrow(cfg: Config, published: seq<ActionPacket>, submitted: seq<Submission>, sub: Submission)
    requires AnswersInv(cfg, published, submitted)
    ensures AnswersInv(cfg, published, submitted + [sub])
  {
    forall k | 0 <= k < |published| && published[k].valid ensures Genuine(cfg, published[k], submitted + [sub]) {
      GenuineGrows(cfg, published[k], submitted, sub);
    }
  }

  lemma AppliedGrows(cfg: Config, applied: seq<Application>, submitted: seq<Submission>, sub: Submission,
                     epoch: nat, last: nat)
    requires AppliedInv(cfg, applied, submitted, epoch, last)
    ensures AppliedInv(cfg, applied, submitted + [sub], epoch, last)
  {
    forall k | 0 <= k < |applied| ensures Backed(cfg, applied[k], submitted + [sub]) {
      BackedGrows(cfg, applied[k], submitted, sub);
    }
  }

  lemma SubmissionsLater(published: seq<ObservationPacket>, submitted: seq<Submission>,
                         epoch: nat, last: int, epoch': nat, last': int)
    requires SubmissionsInv(published, submitted, epoch, last)
    requires epoch < epoch' || (epoch == epoch' && last <= last')
    ensures SubmissionsInv(published, submitted, epoch', last')
  {
  }

  lemma AppliedLater(cfg: Config, applied: seq<Application>, submitted: seq<Submission>,
                     epoch: nat, last: nat, epoch': nat, last': nat)
    requires AppliedInv(cfg, applied, submitted, epoch, last)
    requires epoch < epoch' || (epoch == epoch' && last <= last')
    ensures AppliedInv(cfg, applied, submitted, epoch', last')
  {
  }

  lemma ApplicationIsRecorded(cfg: Config, applied: seq<Application>, a: Application, submitted: seq<Submission>,
                              epoch: nat, last: nat)
    requires AppliedInv(cfg, applied, submitted, epoch, last)
    requires a.epoch == epoch && a.sequence > last && Backed(cfg, a, submitted)
    ensures AppliedInv(cfg, applied + [a], submitted, epoch, a.sequence)
  {
  }

  // ---------------------------------------------------------------------------
  // Steps that touch no slot
  // ---------------------------------------------------------------------------

  /** The mailboxes and the records are as before; the session is the same or
      belongs to a later epoch; the control thread is not in the middle of a packet. */
  ghost predicate Quiet(s: Sys, t: Sys) {
    && t.observations == s.observations && t.actions == s.actions
    && t.submitted == s.submitted && t.applied == s.applied
    && (t.worker == s.worker || t.worker.Idling? || t.worker.Waiting?)
    && (t.session == s.session || s.session.epoch < t.session.epoch)
    && (s.control.Ready? || s.control.Notifying? || (s.control.Consuming? && s.control.consume.SwappingActions?))
    && (t.control.Ready? || t.control.Notifying?)
    && OverwritesCounted(t) == OverwritesCounted(s)
  }

  lemma QuietKeeps(cfg: Config, s: Sys, t: Sys)
    requires Inv(cfg, s) && Quiet(s, t)
    ensures Inv(cfg, t)
  {
    SubmissionsLater(s.observations.published, s.submitted, s.session.epoch, LastPublishedSequence(s.session, s.control),
                     t.session.epoch, LastPublishedSequence(t.session, t.control));
    AppliedLater(cfg, s.applied, s.submitted, s.session.epoch, s.session.lastAppliedSequence,
                 t.session.epoch, t.session.lastAppliedSequence);
  }

  /** Only variables that no data invariant reads change, or the worker's program
      counter, to a place where it holds no slot. */
  ghost predicate Elsewhere(s: Sys, t: Sys) {
    && t == s.(worker := t.worker, observed := t.observed, now := t.now, active := t.active,
               running := t.running, wakeGeneration := t.wakeGeneration, stopper := t.stopper)
    && (t.worker == s.worker
        || (!t.worker.Inferring? && ReadsInv(t.control, t.worker, t.observations, t.actions)))
  }

  lemma ElsewhereKeeps(cfg: Config, s: Sys, t: Sys)
    requires Inv(cfg, s) && Elsewhere(s, t)
    ensures Inv(cfg, t)
  {
  }

  lemma NotifyKeeps(cfg: Config, s: Sys, stage: NotifyStage)
    requires Inv(cfg, s) && s.control == Notifying(stage)
    ensures Inv(cfg, NotifyStep(s, stage))
  {
    QuietKeeps(cfg, s, NotifyStep(s, stage));
  }

  lemma BeginCallKeeps(cfg: Config, s: Sys, call: Call)
    requires Inv(cfg, s) && s.control == Ready
    ensures Inv(cfg, BeginCall(s, call))
  {
    var t := BeginCall(s, call);
    if !t.control.Submitting? && !t.control.Consuming? {
      QuietKeeps(cfg, s, t);
    }
  }

  // ---------------------------------------------------------------------------
  // The control thread fills a slot
  // ---------------------------------------------------------------------------

  /** Everything but the slot being filled is as before. */
  ghost predicate OnlyDraft(s: Sys, t: Sys, p: ObservationPacket)
    requires s.Owned()
  {
    && t.observations == s.observations.WriteBack(p) && |p.data| == |s.Draft().data|
    && t.actions == s.actions && t.submitted == s.submitted && t.applied == s.applied
    && t.destination == s.destination && t.worker == s.worker
    && t.overwrittenObservations == s.overwrittenObservations
    && t.session.epoch == s.session.epoch && t.session.lastAppliedSequence == s.session.lastAppliedSequence
    && s.control.Submitting? && t.control.Submitting?
    && LastPublishedSequence(t.session, t.control) == LastPublishedSequence(s.session, s.control)
  }

  lemma DraftStepKeeps(cfg: Config, s: Sys, t: Sys, p: ObservationPacket)
    requires Inv(cfg, s) && OnlyDraft(s, t, p)
    requires DraftInv(p, t.session, t.control)
    ensures Inv(cfg, t)
  {
    WriteBackKeepsInv(s.observations, p);
    assert t.Held() == s.Held() && t.Draft() == p;
  }

  lemma StoreIsDraftOnly(s: Sys, stage: SubmitStage, sub: Submission)
    requires s.observations.Owned() && s.actions.Owned()
    requires s.control == Submitting(stage, sub) && !stage.Publishing?
    requires StageInv(s.Draft(), s.session, stage, sub)
    ensures var t := SubmitStep(s, stage, sub);
      t.Owned() && OnlyDraft(s, t, t.Draft()) && StageInv(t.Draft(), t.session, t.control.submit, t.control.sub)
  {
    var t, d := SubmitStep(s, stage, sub), s.Draft();
    match stage
    case StoringData(i) =>
      if i < |sub.input| {
        assert t.Draft().data[..i + 1] == d.data[..i] + [sub.input[i]];
        assert sub.input[..i + 1] == sub.input[..i] + [sub.input[i]];
      } else {
        assert t.observations.slots == s.observations.slots[s.observations.back := d];
        assert d.data[..i] == sub.input[..i] == sub.input;
      }
    case _ =>
  }

  lemma PublicationIsRecorded(published: seq<ObservationPacket>, submitted: seq<Submission>,
                              d: ObservationPacket, sub: Submission, session: Session)
    requires StageInv(d, session, Publishing, sub)
    requires SubmissionsInv(published, submitted, session.epoch, session.observationSequence - 1)
    ensures SubmissionsInv(published + [d], submitted + [sub], session.epoch, session.observationSequence)
  {
  }

  lemma PublishObservationKeeps(cfg: Config, s: Sys, sub: Submission)
    requires Inv(cfg, s) && s.control == Submitting(Publishing, sub)
    ensures Inv(cfg, SubmitStep(s, Publishing, sub))
  {
    var t := SubmitStep(s, Publishing, sub);
    PublishKeepsInv(s.observations);
    PublicationIsRecorded(s.observations.published, s.submitted, s.Draft(), sub, s.session);
    assert t.Held() == s.Held();
    AnswersGrow(cfg, s.actions.published, s.submitted, sub);
    AppliedGrows(cfg, s.applied, s.submitted, sub, s.session.epoch, s.session.lastAppliedSequence);
  }

  lemma SubmitKeeps(cfg: Config, s: Sys, stage: SubmitStage, sub: Submission)
    requires Inv(cfg, s) && s.control == Submitting(stage, sub)
    ensures Inv(cfg, SubmitStep(s, stage, sub))
  {
    if stage.Publishing? {
      PublishObservationKeeps(cfg, s, sub);
    } else {
      StoreIsDraftOnly(s, stage, sub);
      DraftStepKeeps(cfg, s, SubmitStep(s, stage, sub), SubmitStep(s, stage, sub).Draft());
    }
  }

  // ---------------------------------------------------------------------------
  // The control thread receives a packet
  // ---------------------------------------------------------------------------

  /** Nothing but the control thread's own data changes, and it is handling a packet. */
  ghost predicate OnlyReceipt(s: Sys, t: Sys) {
    && t.observations == s.observations && t.actions == s.actions && t.submitted == s.submitted
    && t.worker == s.worker && t.overwrittenObservations == s.overwrittenObservations
    && t.session.epoch == s.session.epoch
    && t.session.observationSequence == s.session.observationSequence
    && s.control.Consuming? && (t.control.Consuming? || t.control.Ready?)
    && ReadsInv(t.control, t.worker, t.observations, t.actions)
  }

  lemma ReceiptStepKeeps(cfg: Config, s: Sys, t: Sys)
    requires Inv(cfg, s) && OnlyReceipt(s, t)
    requires ReceiptInv(cfg, s.Received(), t.session, t.destination, t.control)
    requires AppliedInv(cfg, t.applied, s.submitted, s.session.epoch, t.session.lastAppliedSequence)
    ensures Inv(cfg, t)
  {
  }

  lemma TakeActionKeeps(cfg: Config, s: Sys, expected: PolicyKind)
    requires Inv(cfg, s) && s.control.Consuming? && Dirty(s.actions.middle)
    ensures Inv(cfg, s.(actions := s.actions.Take(), control := Consuming(Checking, expected)))
  {
    TakeKeepsInv(s.actions);
    var t := s.(actions := s.actions.Take(), control := Consuming(Checking, expected));
    assert t.Result() == s.Result();
  }

  lemma ReceivedAnswer(cfg: Config, s: Sys) returns (j: nat)
    requires Inv(cfg, s) && s.actions.taken != [] && s.Received().valid
    ensures j < |s.submitted| && Answers(cfg, s.Received(), s.submitted[j])
  {
    var r := s.Received();
    assert r == s.actions.published[Last(s.actions.taken)];
    j :| 0 <= j < |s.submitted| && Answers(cfg, r, s.submitted[j]);
  }

  lemma CopyKeeps(cfg: Config, s: Sys, expected: PolicyKind, consumedNs: int, i: nat)
    requires Inv(cfg, s) && s.control == Consuming(Copying(consumedNs, i), expected)
    ensures Inv(cfg, ConsumeStep(cfg, s, Copying(consumedNs, i), expected, false))
  {
    var r, target := s.Received(), s.destination[expected];
    if i < r.size {
      assert target[i := r.actions[i]][..i + 1] == target[..i] + [r.actions[i]];
      assert r.actions[..i + 1] == r.actions[..i] + [r.actions[i]];
    } else {
      var a := Application(expected, s.session.epoch, r.sourceSequence, r.observationTimestampNs, consumedNs, target);
      var j := ReceivedAnswer(cfg, s);
      assert target == target[..i] == r.actions[..r.size];
      assert Applies(cfg, a, s.submitted[j]);
      ApplicationIsRecorded(cfg, s.applied, a, s.submitted, s.session.epoch, s.session.lastAppliedSequence);
    }
    ReceiptStepKeeps(cfg, s, ConsumeStep(cfg, s, Copying(consumedNs, i), expected, false));
  }

  lemma ConsumeKeeps(cfg: Config, s: Sys, stage: ConsumeStage, expected: PolicyKind, spurious: bool)
    requires Inv(cfg, s) && s.control == Consuming(stage, expected)
    ensures Inv(cfg, ConsumeStep(cfg, s, stage, expected, spurious))
  {
    var t := ConsumeStep(cfg, s, stage, expected, spurious);
    match stage
    case SwappingActions(seen) =>
      if s.actions.middle == seen && !spurious { TakeActionKeeps(cfg, s, expected); }
      else { ReceiptStepKeeps(cfg, s, t); }
    case Checking =>
      assert t.control.Consuming? ==> s.destination[expected][..0] == s.Received().actions[..0];
      ReceiptStepKeeps(cfg, s, t);
    case Copying(consumedNs, i) => CopyKeeps(cfg, s, expected, consumedNs, i);
    case LoadingActions => ReceiptStepKeeps(cfg, s, t);
  }

  // ---------------------------------------------------------------------------
  // The worker
  // ---------------------------------------------------------------------------

  lemma TakeObservationKeeps(cfg: Config, s: Sys)
    requires Inv(cfg, s) && Dirty(s.observations.middle)
    ensures Inv(cfg, s.(observations := s.observations.Take(), worker := Inferring(Noting)))
  {
    TakeKeepsInv(s.observations);
    var t := s.(observations := s.observations.Take(), worker := Inferring(Noting));
    assert t.Draft() == s.Draft();
  }

  lemma PollKeeps(cfg: Config, s: Sys, stage: PollStage, spurious: bool)
    requires Inv(cfg, s) && s.worker == Polling(stage)
    ensures Inv(cfg, PollStep(s, stage, spurious))
  {
    if stage.SwappingObservations? && s.observations.middle == stage.seen && !spurious {
      TakeObservationKeeps(cfg, s);
    } else {
      ElsewhereKeeps(cfg, s, PollStep(s, stage, spurious));
    }
  }

  /** Everything but the slot the worker fills is as before. */
  ghost predicate OnlyResult(s: Sys, t: Sys, p: ActionPacket)
    requires s.Owned()
  {
    && t.actions == s.actions.WriteBack(p) && |p.actions| == |s.Result().actions|
    && t.observations == s.observations && t.submitted == s.submitted && t.applied == s.applied
    && t.destination == s.destination && t.control == s.control && t.session == s.session
    && t.overwrittenObservations == s.overwrittenObservations
    && (t.worker.Polling? ==> !t.worker.poll.SwappingObservations?)
  }

  lemma ResultStepKeeps(cfg: Config, s: Sys, t: Sys, p: ActionPacket)
    requires Inv(cfg, s) && OnlyResult(s, t, p) && s.worker.Inferring?
    requires ResultInv(cfg, s.Held(), p, t.worker)
    ensures Inv(cfg, t)
  {
    WriteBackKeepsInv(s.actions, p);
    assert t.Received() == s.Received() && t.Result() == p;
  }

  predicate Heading(stage: InferStage) {
    stage.ClearingValid? || stage.WritingPolicy? || stage.WritingEpoch? || stage.WritingSource? ||
    stage.WritingTimestamp?
  }

  lemma HeadingIsResultOnly(cfg: Config, s: Sys, stage: InferStage)
    requires s.observations.Owned() && s.actions.Owned() && Heading(stage)
    requires s.Held().size <= |s.Held().data|
    requires InferInv(cfg, s.Held(), s.Result(), stage)
    ensures var t := InferStep(cfg, s, stage, false);
      t.Owned() && OnlyResult(s, t, t.Result()) && ResultInv(cfg, s.Held(), t.Result(), t.worker)
  {
    assert [] == s.Held().data[..0];
  }

  lemma InferIsResultOnly(cfg: Config, s: Sys, stage: InferStage, terminated: bool)
    requires s.observations.Owned() && s.actions.Owned()
    requires !Heading(stage) && !stage.PublishingAction? && !stage.WritingOutput?
    requires s.Held().size <= |s.Held().data|
    requires InferInv(cfg, s.Held(), s.Result(), stage)
    ensures var t := InferStep(cfg, s, stage, terminated);
      t.Owned() && OnlyResult(s, t, t.Result()) && ResultInv(cfg, s.Held(), t.Result(), t.worker)
  {
    var o := s.Held();
    assert s.actions.slots[s.actions.back := s.Result()] == s.actions.slots;
    if stage.ReadingInput? && |stage.input| < o.size {
      assert o.data[..|stage.input| + 1] == o.data[..|stage.input|] + [o.data[|stage.input|]];
    }
  }

  lemma CopyingOutIsResultOnly(cfg: Config, s: Sys, output: seq<Float>, i: nat)
    requires s.observations.Owned() && s.actions.Owned()
    requires InferInv(cfg, s.Held(), s.Result(), WritingOutput(output, i))
    ensures var t := InferStep(cfg, s, WritingOutput(output, i), false);
      t.Owned() && OnlyResult(s, t, t.Result()) && ResultInv(cfg, s.Held(), t.Result(), t.worker)
  {
    var a := s.Result();
    if i < |output| {
      assert a.actions[i := output[i]][..i + 1] == a.actions[..i] + [output[i]];
      assert output[..i + 1] == output[..i] + [output[i]];
    } else {
      assert s.actions.slots[s.actions.back := a] == s.actions.slots;
      assert output[..i] == output;
    }
  }

  lemma PublishActionKeeps(cfg: Config, s: Sys)
    requires Inv(cfg, s) && s.worker == Inferring(PublishingAction)
    ensures Inv(cfg, s.(actions := s.actions.Publish(), worker := Polling(Top)))
  {
    var t := s.(actions := s.actions.Publish(), worker := Polling(Top));
    PublishKeepsInv(s.actions);
    assert t.Received() == s.Received();
    var k := Last(s.observations.taken);
    assert s.Held() == s.observations.published[k] && Carries(s.Held(), s.submitted[k]);
    if s.Result().valid {
      assert Answers(cfg, s.Result(), s.submitted[k]);
    }
  }

  lemma InferKeeps(cfg: Config, s: Sys, stage: InferStage, terminated: bool)
    requires Inv(cfg, s) && s.worker == Inferring(stage)
    ensures Inv(cfg, InferStep(cfg, s, stage, terminated))
  {
    if stage.PublishingAction? {
      PublishActionKeeps(cfg, s);
    } else {
      var k := Last(s.observations.taken);
      assert s.Held() == s.observations.published[k] && Carries(s.Held(), s.submitted[k]);
      if stage.WritingOutput? { CopyingOutIsResultOnly(cfg, s, stage.output, stage.i); }
      else if Heading(stage) { HeadingIsResultOnly(cfg, s, stage); }
      else { InferIsResultOnly(cfg, s, stage, terminated); }
      ResultStepKeeps(cfg, s, InferStep(cfg, s, stage, terminated), InferStep(cfg, s, stage, terminated).Result());
    }
  }

  // ---------------------------------------------------------------------------
  // Any step, and any run
  // ---------------------------------------------------------------------------

  lemma ControlStepKeeps(cfg: Config, s: Sys, call: Call, spurious: bool)
    requires Inv(cfg, s)
    ensures Inv(cfg, ControlStep(cfg, s, call, spurious))
  {
    match s.control
    case Ready => BeginCallKeeps(cfg, s, call);
    case Submitting(stage, sub) => SubmitKeeps(cfg, s, stage, sub);
    case Notifying(stage) => NotifyKeeps(cfg, s, stage);
    case Consuming(stage, expected) => ConsumeKeeps(cfg, s, stage, expected, spurious);
  }

  lemma WaitKeeps(cfg: Config, s: Sys, t: Sys)
    requires Inv(cfg, s) && t == s.(worker := t.worker)
    requires t.worker == s.worker || t.worker.Idling? || t.worker.Waiting? || t.worker == Polling(Reloading)
    ensures Inv(cfg, t)
  {
    ElsewhereKeeps(cfg, s, t);
  }

  lemma WorkerStepKeeps(cfg: Config, s: Sys, spurious: bool, terminated: bool)
    requires Inv(cfg, s)
    ensures Inv(cfg, WorkerStep(cfg, s, spurious, terminated))
  {
    match s.worker
    case Polling(stage) => PollKeeps(cfg, s, stage, spurious);
    case Idling(stage) => WaitKeeps(cfg, s, s.(worker := IdleStep(s, stage)));
    case Waiting(stage) => WaitKeeps(cfg, s, s.(worker := WaitStep(s, stage)));
    case Inferring(stage) => InferKeeps(cfg, s, stage, terminated);
    case Exited =>
  }

  lemma StopperIsElsewhere(s: Sys)
    requires ReadsInv(s.control, s.worker, s.observations, s.actions)
    ensures Elsewhere(s, StopperStep(s))
  {
  }

  lemma StopperKeeps(cfg: Config, s: Sys)
    requires Inv(cfg, s)
    ensures Inv(cfg, StopperStep(s))
  {
    StopperIsElsewhere(s);
    ElsewhereKeeps(cfg, s, StopperStep(s));
  }

  lemma DoKeeps(cfg: Config, s: Sys, step: Step)
    requires Inv(cfg, s)
    ensures Inv(cfg, Do(cfg, s, step))
  {
    match step
    case Elapse(ns) => ElsewhereKeeps(cfg, s, s.(now := s.now + ns));
    case ControlMoves(call, spurious) => ControlStepKeeps(cfg, s, call, spurious);
    case WorkerMoves(spurious, terminated) => WorkerStepKeeps(cfg, s, spurious, terminated);
    case WorkerInterrupted => WaitKeeps(cfg, s, s.(worker := Woken(s.worker)));
    case StopperMoves => StopperKeeps(cfg, s);
  }

  lemma {:induction false} RunKeeps(cfg: Config, states: seq<Sys>, steps: seq<Step>, n: nat)
    requires Run(cfg, states, steps) && n < |states|
    ensures Inv(cfg, states[n])
  {
    if n > 0 {
      RunKeeps(cfg, states, steps, n - 1);
      DoKeeps(cfg, states[n - 1], steps[n - 1]);
    }
  }

  /** No other submission has the same epoch and sequence number. */
  ghost predicate OnlyOneNamed(submitted: seq<Submission>, j: nat)
    requires j < |submitted|
  {
    forall i :: 0 <= i < |submitted| && i != j ==>
      submitted[i].epoch != submitted[j].epoch || submitted[i].sequence != submitted[j].sequence
  }

  /** In every interleaving each applied vector is the policy's output on exactly
      the observation the control thread submitted under that sequence number, for
      the same policy and epoch, no older than the timeout when it was checked. */
  lemma AppliedActionsAreGenuine(cfg: Config, states: seq<Sys>, steps: seq<Step>, n: nat, k: nat)
    requires Run(cfg, states, steps) && n < |states| && k < |states[n].applied|
    ensures var s, a := states[n], states[n].applied[k];
      exists j :: 0 <= j < |s.submitted| && Applies(cfg, a, s.submitted[j]) && OnlyOneNamed(s.submitted, j)
  {
    RunKeeps(cfg, states, steps, n);
    var s, a := states[n], states[n].applied[k];
    assert Backed(cfg, a, s.submitted);
    var j :| 0 <= j < |s.submitted| && Applies(cfg, a, s.submitted[j]);
    assert OnlyOneNamed(s.submitted, j);
  }

  /** Applications belong to epochs in order, and within one epoch their sequence
      numbers strictly increase: nothing is applied twice or out of order. */
  lemma AppliedSequencesIncrease(cfg: Config, states: seq<Sys>, steps: seq<Step>, n: nat, j: nat, k: nat)
    requires Run(cfg, states, steps) && n < |states| && j < k < |states[n].applied|
    ensures var a, b := states[n].applied[j], states[n].applied[k];
      a.epoch < b.epoch || (a.epoch == b.epoch && a.sequence < b.sequence)
  {
    RunKeeps(cfg, states, steps, n);
  }

  /** An application happens in the epoch that is current at that moment, so nothing
      computed before the last mode entry, start or stop is ever applied after it. */
  lemma ApplicationIsCurrent(cfg: Config, states: seq<Sys>, steps: seq<Step>, n: nat)
    requires Run(cfg, states, steps) && n + 1 < |states|
    ensures var s, t := states[n], states[n + 1];
      s.applied != t.applied ==> exists a ::
        && t.applied == s.applied + [a] && a.epoch == s.session.epoch == t.session.epoch
        && s.session.lastAppliedSequence < a.sequence == t.session.lastAppliedSequence
        && a.policy in t.destination && t.destination[a.policy] == a.output
  {
    RunKeeps(cfg, states, steps, n);
    ApplyingStep(cfg, states[n], steps[n]);
  }

  lemma ApplyingStep(cfg: Config, s: Sys, step: Step)
    requires Inv(cfg, s)
    ensures var t := Do(cfg, s, step);
      s.applied != t.applied ==> exists a ::
        && t.applied == s.applied + [a] && a.epoch == s.session.epoch == t.session.epoch
        && s.session.lastAppliedSequence < a.sequence == t.session.lastAppliedSequence
        && a.policy in t.destination && t.destination[a.policy] == a.output
  {
    if step.ControlMoves? && s.control.Consuming? && s.control.consume.Copying? {
      var t := ConsumeStep(cfg, s, s.control.consume, s.control.expected, step.spurious);
      assert t.applied != s.applied ==> t.applied == s.applied + [Last(t.applied)];
    } else {
      ElsewhereNothingApplied(cfg, s, step);
    }
  }

  lemma ControlAppliesNothing(cfg: Config, s: Sys, call: Call, spurious: bool)
    requires s.Owned() && (s.control.Consuming? ==> !s.control.consume.Copying?)
    ensures ControlStep(cfg, s, call, spurious).applied == s.applied
  {
    match s.control
    case Ready =>
    case Submitting(stage, sub) => SubmitAppliesNothing(s, stage, sub);
    case Notifying(stage) =>
    case Consuming(stage, expected) =>
  }

  lemma SubmitAppliesNothing(s: Sys, stage: SubmitStage, sub: Submission)
    requires s.Owned()
    ensures SubmitStep(s, stage, sub).applied == s.applied
  {
  }

  lemma InferAppliesNothing(cfg: Config, s: Sys, stage: InferStage, terminated: bool)
    requires s.Owned()
    ensures InferStep(cfg, s, stage, terminated).applied == s.applied
  {
  }

  lemma WorkerAppliesNothing(cfg: Config, s: Sys, spurious: bool, terminated: bool)
    requires s.Owned()
    ensures WorkerStep(cfg, s, spurious, terminated).applied == s.applied
  {
    if s.worker.Inferring? { InferAppliesNothing(cfg, s, s.worker.infer, terminated); }
  }

  lemma ElsewhereNothingApplied(cfg: Config, s: Sys, step: Step)
    requires s.Owned()
    requires step.ControlMoves? && s.control.Consuming? ==> !s.control.consume.Copying?
    ensures Do(cfg, s, step).applied == s.applied
  {
    match step
    case ControlMoves(call, spurious) => ControlAppliesNothing(cfg, s, call, spurious);
    case WorkerMoves(spurious, terminated) => WorkerAppliesNothing(cfg, s, spurious, terminated);
    case _ =>
  }

  /** Observations are neither lost silently nor counted twice: each publication was
      consumed by the worker, counted as overwritten, or is still pending. */
  lemma ObservationsConserved(cfg: Config, states: seq<Sys>, steps: seq<Step>, n: nat)
    requires Run(cfg, states, steps) && n < |states|
    ensures var s := states[n];
      |s.submitted| == |s.observations.taken| + s.overwrittenObservations
                       + (if s.control == Notifying(CountingOverwrite) then 1 else 0)
                       + (if Dirty(s.observations.middle) then 1 else 0)
  {
    RunKeeps(cfg, states, steps, n);
  }
}

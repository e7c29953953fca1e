/**
 The protocol gets somewhere. No call of the control thread but the consumption, and no
 handling of an observation by the worker, depends on another thread to finish; and a
 worker left alone settles where it should: it has exited after a stop, it sleeps while
 control is inactive, and otherwise it sleeps only once the pending observation has been
 answered.
 */
module AsyncInferenceProgress {
  import opened Common
  import opened LatestTripleBuffer
  import opened PolicySession
  import opened AsyncInference
  import opened AsyncInferenceSafety
  import Wakeups = AsyncInferenceWakeups
  import Answers = AsyncInferenceAnswers
  import Calls = AsyncInferenceCalls

  // ---------------------------------------------------------------------------
  // How far a thread is from the end of what it does
  // ---------------------------------------------------------------------------

  /** Steps of its own the worker has still to make for the observation it holds. */
  function InferRank(cfg: Config, stage: InferStage): int {
    var copies := cfg.observationCapacity + cfg.actionCapacity;
    match stage
    case Noting => 14 + copies
    case RecheckingActive => 13 + copies
    case RecheckingEpoch => 12 + copies
    case ClearingValid => 11 + copies
    case WritingPolicy => 10 + copies
    case WritingEpoch => 9 + copies
    case WritingSource => 8 + copies
    case WritingTimestamp => 7 + copies
    case ReadingInput(input) => 6 + copies - |input|
    case RunningPolicy(_) => 5 + cfg.actionCapacity
    case WritingOutput(output, i) => 4 + |output| - i
    case WritingSize(_) => 3
    case WritingValid(_) => 2
    case PublishingAction => 1
  }

  /** What keeps the ranks from running out too early. */
  predicate Bounded(cfg: Config, stage: InferStage) {
    && (stage.ReadingInput? ==> |stage.input| <= cfg.observationCapacity)
    && (stage.WritingOutput? ==> stage.i <= |stage.output| <= cfg.actionCapacity)
  }

  lemma InferCountsDown(cfg: Config, s: Sys, stage: InferStage, terminated: bool)
    requires s.Owned() && Bounded(cfg, stage)
    requires |s.Result().actions| == cfg.actionCapacity && |s.Held().data| == cfg.observationCapacity
    ensures var w := InferStep(cfg, s, stage, terminated).worker;
      && InferRank(cfg, stage) > 0
      && (w == Polling(Top) || (w.Inferring? && 0 < InferRank(cfg, w.infer) < InferRank(cfg, stage)))
  {
  }

  lemma InferStepsCountDown(cfg: Config, s: Sys, terminated: bool)
    requires Inv(cfg, s) && s.worker.Inferring?
    ensures var w := InferStep(cfg, s, s.worker.infer, terminated).worker;
      && InferRank(cfg, s.worker.infer) > 0
      && (w == Polling(Top) || (w.Inferring? && 0 < InferRank(cfg, w.infer) < InferRank(cfg, s.worker.infer)))
  {
    StagesAreBounded(cfg, s);
    InferCountsDown(cfg, s, s.worker.infer, terminated);
  }

  lemma StagesAreBounded(cfg: Config, s: Sys)
    requires Inv(cfg, s) && s.worker.Inferring?
    ensures Bounded(cfg, s.worker.infer)
    ensures |s.Result().actions| == cfg.actionCapacity && |s.Held().data| == cfg.observationCapacity
  {
    assert InferInv(cfg, s.Held(), s.Result(), s.worker.infer);
  }

  /** Steps of its own the control thread has still to make for a call that does not
      consume. */
  function CallRank(control: ControlPc): int {
    match control
    case Submitting(stage, sub) => SubmitRank(stage, sub)
    case Notifying(stage) => NotifyRank(stage)
    case _ => 0
  }

  function SubmitRank(stage: SubmitStage, sub: Submission): int {
    match stage
    case StoringPolicy => 12 + |sub.input|
    case StoringEpoch => 11 + |sub.input|
    case StoringSequence => 10 + |sub.input|
    case StoringTimestamp => 9 + |sub.input|
    case StoringSize => 8 + |sub.input|
    case StoringData(i) => 7 + |sub.input| - i
    case Publishing => 6
  }

  function NotifyRank(stage: NotifyStage): int {
    match stage
    case StartOff => 6
    case StartEpoch => 5
    case StartOn => 4
    case StopOff => 4
    case CountingOverwrite => 5
    case AdvancingObservation => 4
    case AdvancingWake(_) => 3
    case Waking(_) => 2
    case StopEpoch => 1
  }

  lemma SubmitCountsDown(s: Sys, stage: SubmitStage, sub: Submission)
    requires s.Owned() && (stage.StoringData? ==> stage.i <= |sub.input|)
    ensures var c := SubmitStep(s, stage, sub).control;
      SubmitRank(stage, sub) > 0 && (c.Submitting? || c.Notifying?) && 0 < CallRank(c) < SubmitRank(stage, sub)
  {
  }

  lemma NotifyCountsDown(s: Sys, stage: NotifyStage)
    ensures var c := NotifyStep(s, stage).control;
      NotifyRank(stage) > 0 && (c.Ready? || c.Notifying?) && 0 <= CallRank(c) < NotifyRank(stage)
  {
  }

  lemma CallStepsCountDown(cfg: Config, s: Sys, next: Call, spurious: bool)
    requires Inv(cfg, s) && (s.control.Submitting? || s.control.Notifying?)
    ensures var c := ControlStep(cfg, s, next, spurious).control;
      (c.Ready? || c.Submitting? || c.Notifying?) && 0 <= CallRank(c) < CallRank(s.control)
  {
    if s.control.Submitting? {
      assert StageInv(s.Draft(), s.session, s.control.submit, s.control.sub);
      SubmitCountsDown(s, s.control.submit, s.control.sub);
    } else {
      NotifyCountsDown(s, s.control.notify);
    }
  }

  /** The same for a consumption that is left alone. */
  function ConsumeRank(cfg: Config, stage: ConsumeStage, middle: Word, size: nat): int {
    match stage
    case LoadingActions => 4 + cfg.actionCapacity
    case SwappingActions(seen) => if seen == middle then 3 + cfg.actionCapacity else 5 + cfg.actionCapacity
    case Checking => 2 + cfg.actionCapacity
    case Copying(_, i) => 1 + size - i
  }

  lemma ConsumeCountsDown(cfg: Config, s: Sys, stage: ConsumeStage, expected: PolicyKind)
    requires s.Owned() && |s.Received().actions| == cfg.actionCapacity
    requires stage.Copying? ==> stage.i <= s.Received().size
    ensures var t := ConsumeStep(cfg, s, stage, expected, false);
      && t.Owned() && ConsumeRank(cfg, stage, s.actions.middle, s.Received().size) > 0
      && (t.control.Ready? || (t.control.Consuming? &&
            ConsumeRank(cfg, t.control.consume, t.actions.middle, t.Received().size)
            < ConsumeRank(cfg, stage, s.actions.middle, s.Received().size)))
  {
  }

  /** A consumption that no other thread interferes with comes nearer to its return with
      every step. */
  lemma LoneConsumptionCountsDown(cfg: Config, s: Sys, next: Call)
    requires Inv(cfg, s) && s.control.Consuming?
    ensures var t := ControlStep(cfg, s, next, false);
      && t.Owned() && ConsumeRank(cfg, s.control.consume, s.actions.middle, s.Received().size) > 0
      && (t.control.Ready? || (t.control.Consuming? &&
            ConsumeRank(cfg, t.control.consume, t.actions.middle, t.Received().size)
            < ConsumeRank(cfg, s.control.consume, s.actions.middle, s.Received().size)))
  {
    assert ReceiptInv(cfg, s.Received(), s.session, s.destination, s.control);
    assert |s.Received().actions| == cfg.actionCapacity;
    ConsumeCountsDown(cfg, s, s.control.consume, s.control.expected);
  }

  // ---------------------------------------------------------------------------
  // Bounds over runs
  // ---------------------------------------------------------------------------

  function WorkerMovesIn(steps: seq<Step>, i: nat, n: nat): nat
    requires i <= n <= |steps|
    decreases n - i
  {
    if i == n then 0 else WorkerMovesIn(steps, i, n - 1) + if steps[n - 1].WorkerMoves? then 1 else 0
  }

  function ControlMovesIn(steps: seq<Step>, i: nat, n: nat): nat
    requires i <= n <= |steps|
    decreases n - i
  {
    if i == n then 0 else ControlMovesIn(steps, i, n - 1) + if steps[n - 1].ControlMoves? then 1 else 0
  }

  lemma HandlingCountsDown(cfg: Config, s: Sys, step: Step)
    requires Inv(cfg, s) && s.worker.Inferring?
    ensures var t := Do(cfg, s, step);
      && InferRank(cfg, s.worker.infer) > 0
      && (t.worker.Inferring? ==>
            0 < InferRank(cfg, t.worker.infer) <= InferRank(cfg, s.worker.infer) - if step.WorkerMoves? then 1 else 0)
  {
    if step.WorkerMoves? { InferStepsCountDown(cfg, s, step.terminated); }
    else { Answers.OthersDisturbNothing(cfg, s, step); InferStepsCountDown(cfg, s, false); }
  }

  /** However the others interleave, the worker is back in its loop after a number of
      its own steps fixed by the sizes of the two buffers. */
  lemma {:induction false} HandlingIsBounded(cfg: Config, states: seq<Sys>, steps: seq<Step>, a: nat, b: nat)
    requires Run(cfg, states, steps) && Answers.Handles(states, steps, a, b) && states[b].worker.Inferring?
    ensures WorkerMovesIn(steps, a + 1, b) < 14 + cfg.observationCapacity + cfg.actionCapacity
    ensures WorkerMovesIn(steps, a + 1, b)
      <= 14 + cfg.observationCapacity + cfg.actionCapacity - InferRank(cfg, states[b].worker.infer)
    decreases b
  {
    if b == a + 1 {
      TakenIsNoted(cfg, states, steps, a);
    } else {
      HandlingIsBounded(cfg, states, steps, a, b - 1);
      Answers.RunStep(cfg, states, steps, b - 1);
      HandlingCountsDown(cfg, states[b - 1], steps[b - 1]);
    }
    RankIsPositive(cfg, states, steps, b);
  }

  lemma RankIsPositive(cfg: Config, states: seq<Sys>, steps: seq<Step>, n: nat)
    requires Run(cfg, states, steps) && n < |states| && states[n].worker.Inferring?
    ensures InferRank(cfg, states[n].worker.infer) > 0
  {
    RunKeeps(cfg, states, steps, n);
    InferStepsCountDown(cfg, states[n], false);
  }

  lemma TakenIsNoted(cfg: Config, states: seq<Sys>, steps: seq<Step>, a: nat)
    requires Run(cfg, states, steps) && Answers.Handles(states, steps, a, a + 1)
    ensures states[a + 1].worker == Inferring(Noting)
  {
    Answers.RunStep(cfg, states, steps, a);
    Answers.TakeStep(cfg, states[a], steps[a]);
  }

  predicate WaitFree(control: ControlPc) {
    control.Ready? || control.Submitting? || control.Notifying?
  }

  lemma CallCountsDown(cfg: Config, s: Sys, step: Step)
    requires Inv(cfg, s) && (s.control.Submitting? || s.control.Notifying?) && CallRank(s.control) >= 0
    ensures var c := Do(cfg, s, step).control;
      WaitFree(c) && 0 <= CallRank(c) <= CallRank(s.control) - if step.ControlMoves? then 1 else 0
  {
    if step.ControlMoves? { CallStepsCountDown(cfg, s, step.call, step.spurious); }
    else { Calls.OthersAreElsewhere(cfg, s, step); }
  }

  lemma CallStartsBounded(s: Sys, call: Call)
    requires s.Owned() && s.control == Ready && !call.Consume?
    ensures var c := BeginCall(s, call).control;
      WaitFree(c) && 0 <= CallRank(c) <= 12 + if call.Submit? then |call.input| else 0
  {
  }

  /** Submitting, entering, leaving, starting and stopping never wait: they return after
      a fixed number of the control thread's own steps, whatever the worker does. */
  lemma {:induction false} CallsAreWaitFree(cfg: Config, states: seq<Sys>, steps: seq<Step>, call: Call, a: nat, b: nat)
    requires Run(cfg, states, steps) && Calls.Calls(states, steps, call, a, b) && !call.Consume?
    ensures WaitFree(states[b].control) && 0 <= CallRank(states[b].control)
    ensures ControlMovesIn(steps, a + 1, b) + CallRank(states[b].control) <= 12 + if call.Submit? then |call.input| else 0
    decreases b
  {
    if b == a + 1 {
      Calls.RunStep(cfg, states, steps, a);
      CallStartsBounded(states[a], call);
    } else {
      CallsAreWaitFree(cfg, states, steps, call, a, b - 1);
      RunCountsDown(cfg, states, steps, b - 1);
    }
  }

  lemma RunCountsDown(cfg: Config, states: seq<Sys>, steps: seq<Step>, n: nat)
    requires Run(cfg, states, steps) && n < |steps|
    requires (states[n].control.Submitting? || states[n].control.Notifying?) && CallRank(states[n].control) >= 0
    ensures WaitFree(states[n + 1].control) && 0 <= CallRank(states[n + 1].control)
    ensures CallRank(states[n + 1].control) <= CallRank(states[n].control) - if steps[n].ControlMoves? then 1 else 0
  {
    Calls.RunStep(cfg, states, steps, n);
    CallCountsDown(cfg, states[n], steps[n]);
  }
}

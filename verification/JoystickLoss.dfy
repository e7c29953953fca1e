/**
 The joystick status over runs of interleaved cycles: what the callbacks have reported,
 and how a cycle ends whose joystick is gone.
 */
module JoystickLoss {
  import opened Common
  import opened ControlStateMachine
  import opened RLControllerBase
  import opened ControlCycle

  predicate Restarts(s: Sys, move: Move) {
    s.pc.Ended? && move.Advance? && move.choice.restart
  }

  /** A status was received and the controller has not been restarted since. */
  ghost predicate ReceivedBefore(states: seq<Sys>, moves: seq<Move>, n: nat)
    requires n < |states| == |moves| + 1
  {
    exists a :: 0 <= a < n && moves[a].SetReceived? && forall k :: a < k < n ==> !Restarts(states[k], moves[k])
  }

  /** What the last report since the last restart said; connected without one. */
  predicate LastReport(states: seq<Sys>, moves: seq<Move>, n: nat)
    requires n < |states| == |moves| + 1
  {
    if n == 0 || Restarts(states[n - 1], moves[n - 1]) then true
    else if moves[n - 1].SetConnected? then moves[n - 1].value
    else LastReport(states, moves, n - 1)
  }

  lemma StatusAfter(s: Sys, move: Move, t: Sys)
    requires Next(s, move, t)
    ensures t.received <==> !Restarts(s, move) && (s.received || move.SetReceived?)
    ensures t.connected == if Restarts(s, move) then true else if move.SetConnected? then move.value else s.connected
  {
    if move.Advance? { OperationsKeepStatus(s, move.choice); }
  }

  lemma OperationsKeepStatus(s: Sys, choice: Choice)
    ensures var t := CycleStep(s, choice);
      if Restarts(s, Advance(choice)) then !t.received && t.connected
      else t.received == s.received && t.connected == s.connected
  {
  }

  lemma ReceivedGoesOn(states: seq<Sys>, moves: seq<Move>, n: nat)
    requires n < |moves| && |states| == |moves| + 1
    ensures ReceivedBefore(states, moves, n + 1) <==>
      moves[n].SetReceived? || (ReceivedBefore(states, moves, n) && !Restarts(states[n], moves[n]))
  {
    if ReceivedBefore(states, moves, n) && !Restarts(states[n], moves[n]) {
      var a :| 0 <= a < n && moves[a].SetReceived? && forall k :: a < k < n ==> !Restarts(states[k], moves[k]);
      assert forall k :: a < k < n + 1 ==> !Restarts(states[k], moves[k]);
    }
  }

  /** The two flags hold what the callbacks reported since the last restart. */
  lemma {:induction false} StatusIsHistory(states: seq<Sys>, moves: seq<Move>, n: nat)
    requires Run(states, moves) && n < |states|
    ensures states[n].received <==> ReceivedBefore(states, moves, n)
    ensures states[n].connected == LastReport(states, moves, n)
  {
    if n > 0 {
      StatusIsHistory(states, moves, n - 1);
      StatusAfter(states[n - 1], moves[n - 1], states[n]);
      ReceivedGoesOn(states, moves, n - 1);
    }
  }

  // ---------------------------------------------------------------------------
  // A lost joystick
  // ---------------------------------------------------------------------------

  predicate FellBack(mode: Mode) {
    mode == Walk || mode == Default
  }

  /** WALK, or a DEFAULT in which every joint is limp. */
  predicate FallenAsleep(l: Local) {
    FellBack(l.control.mode) && (l.control.mode == Default ==> forall k :: 0 <= k < |l.joints| ==> Limp(l.joints[k]))
  }

  /** What the cycle has made of a joystick it found gone, and of a late stop. */
  ghost predicate Marked(s: Sys) {
    match s.pc
    case Admitting(stage) => stage.ExchangingTarget? || stage.ComparingWord? ==> Stopped(s.local)
    case Stopping(_, _) => Stopped(s.local)
    case Acting(stage) => stage.Dispatching? && stage.disconnected ==> FellBack(s.local.control.mode)
    case Checking(stage) =>
      || stage.ReloadingReceived? || stage.ReloadingConnected? || stage.ClearingForJoystickLate?
      || !stage.disconnected || FallenAsleep(s.local)
    case Ended => true
  }

  lemma AdmitStepMarks(s: Sys, stage: AdmitStage, choice: Choice)
    requires s.pc == Admitting(stage) && Marked(s)
    ensures Marked(AdmitStep(s, stage, choice))
  {
  }

  lemma StopStepMarks(s: Sys, after: After, requestsCleared: bool)
    requires s.pc == Stopping(after, requestsCleared) && Marked(s)
    ensures var t := StopStep(s, after, requestsCleared);
      Marked(t) && (t.pc.Ended? ==> FallenAsleep(t.local))
  {
  }

  lemma ActStepMarks(s: Sys, stage: ActStage, choice: Choice)
    requires s.pc == Acting(stage) && Marked(s) && (stage.Dispatching? ==> EffectAllowed(s.local, choice.effect))
    ensures Marked(ActStep(s, stage, choice))
  {
  }

  lemma CheckStepMarks(s: Sys, stage: LateStage)
    requires s.pc == Checking(stage) && Marked(s)
    ensures var t := CheckStep(s, stage);
      Marked(t) && (t.pc.Ended? && s.received && !s.connected ==> FallenAsleep(t.local))
  {
  }

  lemma StepKeepsMarked(s: Sys, move: Move, t: Sys)
    requires Next(s, move, t) && Marked(s)
    ensures Marked(t)
    ensures !s.pc.Ended? && t.pc.Ended? && s.received && !s.connected ==> FallenAsleep(t.local)
  {
    if move.Advance? {
      match s.pc
      case Admitting(stage) => AdmitStepMarks(s, stage, move.choice);
      case Stopping(after, requestsCleared) => StopStepMarks(s, after, requestsCleared);
      case Acting(stage) => ActStepMarks(s, stage, move.choice);
      case Checking(stage) => CheckStepMarks(s, stage);
      case Ended =>
    }
  }

  lemma {:induction false} RunKeepsMarked(states: seq<Sys>, moves: seq<Move>, n: nat)
    requires Run(states, moves) && n < |states|
    ensures Marked(states[n])
  {
    if n > 0 {
      RunKeepsMarked(states, moves, n - 1);
      StepKeepsMarked(states[n - 1], moves[n - 1], states[n]);
    }
  }

  /** A cycle whose joystick is reported gone when it makes its last operation ends in
      WALK, or in DEFAULT with every joint limp: whatever mode it ran, whatever was
      requested, and whenever in the cycle the report came. */
  lemma LostJoystickFallsBack(states: seq<Sys>, moves: seq<Move>, n: nat)
    requires Run(states, moves) && n < |moves| && !states[n].pc.Ended? && states[n + 1].pc.Ended?
    requires ReceivedBefore(states, moves, n) && !LastReport(states, moves, n)
    ensures FallenAsleep(states[n + 1].local)
  {
    StatusIsHistory(states, moves, n);
    RunKeepsMarked(states, moves, n);
    StepKeepsMarked(states[n], moves[n], states[n + 1]);
  }
}

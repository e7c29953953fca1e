/**
 What becomes of the operator's requests when callbacks and stops interleave with the
 cycles: which requests are pending, and which ones a stop leaves behind.
 */
module ControlRequests {
  import opened Common
  import opened ControlStateMachine
  import opened RLControllerBase
  import opened ControlCycle

  // ---------------------------------------------------------------------------
  // What one step does to the mailbox and to a standing stop
  // ---------------------------------------------------------------------------

  /** The operations that empty the mailbox: the arbitration, the first store of a stop,
      the two tests that find the joystick gone, and a restart. */
  predicate Empties(s: Sys, move: Move) {
    && move.Advance?
    && (match s.pc
        case Admitting(stage) => stage.ExchangingRequests?
        case Stopping(_, requestsCleared) => !requestsCleared
        case Acting(stage) => stage.ClearingForJoystick?
        case Checking(stage) => stage.ClearingForJoystickLate?
        case Ended => move.choice.restart)
  }

  /** The operations that take or clear the shutdown flag. */
  predicate Withdraws(s: Sys, move: Move) {
    && move.Advance?
    && (match s.pc
        case Admitting(stage) => stage.ExchangingShutdown? || stage.ExchangingShutdownAgain?
        case Stopping(_, requestsCleared) => requestsCleared
        case Acting(_) => false
        case Checking(stage) => stage.ReexchangingShutdown?
        case Ended => move.choice.restart)
  }

  /** A stop has emptied the mailbox and is about to clear the shutdown flag. */
  predicate BetweenStores(pc: Pc) {
    pc.Stopping? && pc.requestsCleared
  }

  predicate AboutToEmpty(pc: Pc) {
    pc.Stopping? && !pc.requestsCleared
  }

  /** What one operation of the cycle does to the mailbox and to a standing stop: only a
      stop that is about to empty the mailbox takes either mark of a stop away. */
  ghost predicate Handles(s: Sys, choice: Choice, t: Sys) {
    && t.pending == (if Empties(s, Advance(choice)) then {} else s.pending)
    && (BetweenStores(t.pc) ==> AboutToEmpty(s.pc))
    && (Latched(s.word) && !Latched(t.word) ==> AboutToEmpty(t.pc))
    && t.shutdown == (s.shutdown && !Withdraws(s, Advance(choice)))
    && (s.shutdown && !t.shutdown ==> AboutToEmpty(t.pc) || BetweenStores(s.pc) || t.pending == {})
    && (s.pc.Ended? ==> t.pc.Ended? || t.pc == Admitting(LoadingEmergency))
    && (s.pc == Admitting(LoadingEmergency) ==>
          if Latched(s.word) then AboutToEmpty(t.pc) else t.pc == Admitting(ExchangingShutdown))
    && (s.pc == Admitting(ExchangingShutdown) && s.shutdown ==> AboutToEmpty(t.pc))
  }

  lemma AdmitStepHandles(s: Sys, stage: AdmitStage, choice: Choice)
    requires s.pc == Admitting(stage)
    ensures Handles(s, choice, AdmitStep(s, stage, choice))
  {
  }

  lemma ActStepHandles(s: Sys, stage: ActStage, choice: Choice)
    requires s.pc == Acting(stage)
    ensures Handles(s, choice, ActStep(s, stage, choice))
  {
  }

  lemma CheckStepHandles(s: Sys, stage: LateStage, choice: Choice)
    requires s.pc == Checking(stage)
    ensures Handles(s, choice, CheckStep(s, stage))
  {
  }

  lemma CycleStepHandles(s: Sys, choice: Choice)
    ensures Handles(s, choice, CycleStep(s, choice))
  {
    match s.pc
    case Admitting(stage) => AdmitStepHandles(s, stage, choice);
    case Acting(stage) => ActStepHandles(s, stage, choice);
    case Checking(stage) => CheckStepHandles(s, stage, choice);
    case Stopping(_, _) =>
    case Ended =>
  }

  /** What a callback does to them. */
  ghost predicate CallsBack(s: Sys, move: Move, t: Sys) {
    && t.pc == s.pc && t.pending == (if move.Ask? then s.pending + {move.request} else s.pending)
    && (Latched(s.word) || move.Trigger? ==> Latched(t.word)) && (t.shutdown <==> s.shutdown || move.RequestShutdown?)
  }

  lemma CallbackCallsBack(s: Sys, move: Move)
    requires WordInv(s) && !move.Advance?
    ensures CallsBack(s, move, Callback(s, move))
  {
    LatchAdvances(s.word, s.triggers);
  }

  ghost predicate StepFacts(s: Sys, move: Move, t: Sys) {
    if move.Advance? then Handles(s, move.choice, t) else CallsBack(s, move, t)
  }

  /** What a run does to the mailbox and the stops. */
  ghost predicate Facts(states: seq<Sys>, moves: seq<Move>) {
    && |states| == |moves| + 1 && states[0].pending == {} && !states[0].shutdown
    && forall k {:trigger moves[k]} :: 0 <= k < |moves| ==> StepFacts(states[k], moves[k], states[k + 1])
  }

  lemma RunHasFacts(states: seq<Sys>, moves: seq<Move>)
    requires Run(states, moves)
    ensures Facts(states, moves)
  {
    forall k | 0 <= k < |moves| ensures StepFacts(states[k], moves[k], states[k + 1]) {
      StepOfRun(states, moves, k);
    }
  }

  lemma StepOfRun(states: seq<Sys>, moves: seq<Move>, n: nat)
    requires Run(states, moves) && n < |moves|
    ensures StepFacts(states[n], moves[n], states[n + 1])
  {
    assert Next(states[n], moves[n], states[n + 1]);
    RunKeepsWordInv(states, moves, n);
    if moves[n].Advance? { CycleStepHandles(states[n], moves[n].choice); } else { CallbackCallsBack(states[n], moves[n]); }
  }

  // ---------------------------------------------------------------------------
  // Pending is asked and not taken or cleared since
  // ---------------------------------------------------------------------------

  /** `r` was asked after step `j`. */
  ghost predicate AskedSince(moves: seq<Move>, j: int, n: nat, r: Request)
    requires n <= |moves|
  {
    exists a :: 0 <= a < n && j < a && moves[a] == Ask(r)
  }

  ghost predicate AskedLast(states: seq<Sys>, moves: seq<Move>, n: nat, r: Request)
    requires n < |states| == |moves| + 1
  {
    exists a :: 0 <= a < n && moves[a] == Ask(r) && forall k :: a < k < n ==> !Empties(states[k], moves[k])
  }

  lemma PendingAfter(s: Sys, move: Move, t: Sys, r: Request)
    requires StepFacts(s, move, t)
    ensures r in t.pending <==> !Empties(s, move) && (r in s.pending || move == Ask(r))
  {
  }

  lemma PendingStep(states: seq<Sys>, moves: seq<Move>, n: nat, r: Request)
    requires Facts(states, moves) && n < |moves|
    ensures r in states[n + 1].pending <==>
      moves[n] == Ask(r) || (r in states[n].pending && !Empties(states[n], moves[n]))
  {
    assert StepFacts(states[n], moves[n], states[n + 1]);
    PendingAfter(states[n], moves[n], states[n + 1], r);
  }

  lemma {:induction false} FactsKeepHistory(states: seq<Sys>, moves: seq<Move>, n: nat, r: Request)
    requires Facts(states, moves) && n < |states|
    ensures r in states[n].pending <==> AskedLast(states, moves, n, r)
  {
    if n > 0 {
      var m := n - 1;
      FactsKeepHistory(states, moves, m, r);
      AskedLastGoesOn(states, moves, m, r);
      PendingStep(states, moves, m, r);
    }
  }

  lemma AskedLastGoesOn(states: seq<Sys>, moves: seq<Move>, n: nat, r: Request)
    requires n < |moves| && |states| == |moves| + 1
    ensures AskedLast(states, moves, n + 1, r) <==>
      moves[n] == Ask(r) || (AskedLast(states, moves, n, r) && !Empties(states[n], moves[n]))
  {
    if AskedLast(states, moves, n, r) && !Empties(states[n], moves[n]) {
      var a :| 0 <= a < n && moves[a] == Ask(r) && forall k :: a < k < n ==> !Empties(states[k], moves[k]);
      assert forall k :: a < k < n + 1 ==> !Empties(states[k], moves[k]);
    }
  }

  /** A request is pending if and only if it was asked and the mailbox has not been
      emptied since. */
  lemma PendingIsHistory(states: seq<Sys>, moves: seq<Move>, n: nat, r: Request)
    requires Run(states, moves) && n < |states|
    ensures r in states[n].pending <==> AskedLast(states, moves, n, r)
  {
    RunHasFacts(states, moves);
    FactsKeepHistory(states, moves, n, r);
  }

  ghost predicate ShutdownLast(states: seq<Sys>, moves: seq<Move>, n: nat)
    requires n < |states| == |moves| + 1
  {
    exists a :: 0 <= a < n && moves[a] == RequestShutdown && forall k :: a < k < n ==> !Withdraws(states[k], moves[k])
  }

  lemma ShutdownLastGoesOn(states: seq<Sys>, moves: seq<Move>, n: nat)
    requires n < |moves| && |states| == |moves| + 1
    ensures ShutdownLast(states, moves, n + 1) <==>
      moves[n] == RequestShutdown || (ShutdownLast(states, moves, n) && !Withdraws(states[n], moves[n]))
  {
    if ShutdownLast(states, moves, n) && !Withdraws(states[n], moves[n]) {
      var a :| 0 <= a < n && moves[a] == RequestShutdown && forall k :: a < k < n ==> !Withdraws(states[k], moves[k]);
      assert forall k :: a < k < n + 1 ==> !Withdraws(states[k], moves[k]);
    }
  }

  lemma ShutdownAfter(states: seq<Sys>, moves: seq<Move>, n: nat)
    requires Facts(states, moves) && n < |moves|
    ensures states[n + 1].shutdown <==>
      moves[n] == RequestShutdown || (states[n].shutdown && !Withdraws(states[n], moves[n]))
  {
    assert StepFacts(states[n], moves[n], states[n + 1]);
  }

  lemma {:induction false} FactsKeepShutdown(states: seq<Sys>, moves: seq<Move>, n: nat)
    requires Facts(states, moves) && n < |states|
    ensures states[n].shutdown <==> ShutdownLast(states, moves, n)
  {
    if n > 0 {
      var m := n - 1;
      FactsKeepShutdown(states, moves, m);
      ShutdownLastGoesOn(states, moves, m);
      ShutdownAfter(states, moves, m);
    }
  }

  /** A shutdown is pending if and only if it was asked for and no test has taken it and
      no stop or restart cleared it since. */
  lemma ShutdownIsHistory(states: seq<Sys>, moves: seq<Move>, n: nat)
    requires Run(states, moves) && n < |states|
    ensures states[n].shutdown <==> ShutdownLast(states, moves, n)
  {
    RunHasFacts(states, moves);
    FactsKeepShutdown(states, moves, n);
  }

  // ---------------------------------------------------------------------------
  // A stop leaves no older request behind
  // ---------------------------------------------------------------------------

  datatype StopKind = Emergency | ShuttingDown

  /** The stop asked for by `move`. */
  predicate Asks(move: Move, kind: StopKind) {
    match kind case Emergency => move.Trigger? case ShuttingDown => move.RequestShutdown?
  }

  /** The stop has not begun to be carried out. */
  predicate Stands(s: Sys, kind: StopKind) {
    match kind case Emergency => Latched(s.word) case ShuttingDown => s.shutdown && !BetweenStores(s.pc)
  }

  /** In the cycle after the stop, before the test that finds it. */
  predicate BeforeTheTest(pc: Pc, kind: StopKind) {
    || pc.Ended? || (pc.Admitting? && pc.admit.LoadingEmergency?)
    || (kind == ShuttingDown && pc.Admitting? && pc.admit.ExchangingShutdown?)
  }

  lemma {:induction false} OlderRequestsWait(
      states: seq<Sys>, moves: seq<Move>, j: nat, n: nat, kind: StopKind, r: Request)
    requires Facts(states, moves) && j < n < |states| && Asks(moves[j], kind)
    requires kind == ShuttingDown ==> !BetweenStores(states[j].pc)
    requires r in states[n].pending && !AskedSince(moves, j, n, r)
    ensures AboutToEmpty(states[n].pc) || Stands(states[n], kind)
  {
    var m := n - 1;
    assert StepFacts(states[m], moves[m], states[n]);
    PendingAfter(states[m], moves[m], states[n], r);
    if n > j + 1 {
      NotAskedBefore(moves, j, n, r);
      OlderRequestsWait(states, moves, j, n - 1, kind, r);
      WaitingGoesOn(states[n - 1], moves[n - 1], states[n], kind, r);
    }
  }

  lemma NotAskedBefore(moves: seq<Move>, j: nat, n: nat, r: Request)
    requires j + 1 < n <= |moves| && !AskedSince(moves, j, n, r)
    ensures !AskedSince(moves, j, n - 1, r) && moves[n - 1] != Ask(r)
  {
  }

  lemma WaitingGoesOn(s: Sys, move: Move, t: Sys, kind: StopKind, r: Request)
    requires StepFacts(s, move, t) && r in s.pending && r in t.pending
    requires AboutToEmpty(s.pc) || Stands(s, kind)
    ensures AboutToEmpty(t.pc) || Stands(t, kind)
  {
  }

  lemma {:induction false} OlderRequestsAreNotReached(
      states: seq<Sys>, moves: seq<Move>, j: nat, e: nat, n: nat, kind: StopKind, r: Request)
    requires Facts(states, moves) && j < e <= n < |states| && Asks(moves[j], kind) && states[e].pc.Ended?
    requires kind == ShuttingDown ==> !BetweenStores(states[j].pc)
    requires r in states[n].pending && !AskedSince(moves, j, n, r)
    ensures AboutToEmpty(states[n].pc) || BeforeTheTest(states[n].pc, kind)
  {
    OlderRequestsWait(states, moves, j, n, kind, r);
    if n > e {
      PendingAfter(states[n - 1], moves[n - 1], states[n], r);
      NotAskedBefore(moves, j, n, r);
      OlderRequestsAreNotReached(states, moves, j, e, n - 1, kind, r);
      OlderRequestsWait(states, moves, j, n - 1, kind, r);
      NotReachedGoesOn(states[n - 1], moves[n - 1], states[n], kind, r);
    }
  }

  lemma NotReachedGoesOn(s: Sys, move: Move, t: Sys, kind: StopKind, r: Request)
    requires StepFacts(s, move, t) && r in s.pending && r in t.pending
    requires AboutToEmpty(s.pc) || (BeforeTheTest(s.pc, kind) && Stands(s, kind))
    ensures AboutToEmpty(t.pc) || BeforeTheTest(t.pc, kind)
  {
  }

  /** From the end of the cycle in which a trigger takes effect, every request that the
      arbitration looks at was asked after the trigger, whatever resets do meanwhile.
      The same holds of a shutdown, unless it arrives between the two stores of a stop
      that is under way. */
  lemma NoRequestSurvivesAStop(
      states: seq<Sys>, moves: seq<Move>, j: nat, e: nat, n: nat, kind: StopKind, r: Request)
    requires Run(states, moves) && j < e <= n < |states| && Asks(moves[j], kind) && states[e].pc.Ended?
    requires states[n].pc == Admitting(ExchangingRequests) && r in states[n].pending
    ensures AskedSince(moves, j, n, r) || (kind == ShuttingDown && BetweenStores(states[j].pc))
  {
    if !AskedSince(moves, j, n, r) && !(kind == ShuttingDown && BetweenStores(states[j].pc)) {
      RunHasFacts(states, moves);
      OlderRequestsAreNotReached(states, moves, j, e, n, kind, r);
      assert false;
    }
  }

  /** So once an emergency has stopped the robot, it moves again only by a START that
      was asked after the trigger; likewise after a shutdown outside that window. */
  lemma MotionNeedsALaterStart(
      states: seq<Sys>, moves: seq<Move>, j: nat, e: nat, i: nat, n: nat, kind: StopKind) returns (a: nat)
    requires Run(states, moves) && j < e <= i <= n < |states| && Asks(moves[j], kind) && states[e].pc.Ended?
    requires kind == ShuttingDown ==> !BetweenStores(states[j].pc)
    requires !states[i].local.control.started && Locomotion(states[n].local.control.mode)
    ensures j < a < n && moves[a] == Ask(RequestStart)
  {
    var b, c, d := CyclesFollowTheStateMachine(states, moves, i, n);
    NoRequestSurvivesAStop(states, moves, j, e, b - 1, kind, RequestStart);
    a :| 0 <= a < b - 1 && j < a && moves[a] == Ask(RequestStart);
  }

  // ---------------------------------------------------------------------------
  // The window between the two stores of a stop
  // ---------------------------------------------------------------------------

  /** A state of the control thread, nothing shared being set but `pending` and `shutdown`. */
  function At(control: Control, pc: Pc, pending: set<Request>, shutdown: bool, demanded: bool): Sys {
    Sys(0, 0, pending, shutdown, true, false, Local(control, [], if control.started then map[RequestStart := 1] else map[]),
        pc, map[], 0, 0, 0, demanded)
  }

  const GO: Move := Advance(Choice(1, false, Effect(Default, []), false))

  /** A cycle stops for a shutdown; between its two stores the operator presses START and
      then asks for a shutdown again: the stop swallows the second shutdown. */
  function Swallowing(): seq<(Sys, Move)> {
    [ (At(STOPPED, Ended, {}, false, false), RequestShutdown),
      (At(STOPPED, Ended, {}, true, false), GO),
      (At(STOPPED, Admitting(LoadingEmergency), {}, true, true), GO),
      (At(STOPPED, Admitting(ExchangingShutdown), {}, true, true), GO),
      (At(STOPPED, Stopping(ThenJoystick, false), {}, false, true), GO),
      (At(STOPPED, Stopping(ThenJoystick, true), {}, false, true), Ask(RequestStart)),
      (At(STOPPED, Stopping(ThenJoystick, true), {RequestStart}, false, true), RequestShutdown),
      (At(STOPPED, Stopping(ThenJoystick, true), {RequestStart}, true, true), GO),
      (At(STOPPED, Acting(LoadingReceived), {RequestStart}, false, true), GO),
      (At(STOPPED, Acting(Dispatching(false)), {RequestStart}, false, true), GO),
      (At(STOPPED, Checking(ReloadingEmergency(false)), {RequestStart}, false, true), GO),
      (At(STOPPED, Checking(ReexchangingShutdown(false)), {RequestStart}, false, true), GO),
      (At(STOPPED, Checking(ReloadingReceived), {RequestStart}, false, true), GO),
      (At(STOPPED, Ended, {RequestStart}, false, true), GO),
      (At(STOPPED, Admitting(LoadingEmergency), {RequestStart}, false, false), GO),
      (At(STOPPED, Admitting(ExchangingShutdown), {RequestStart}, false, false), GO),
      (At(STOPPED, Admitting(DroppingTarget), {RequestStart}, false, false), GO),
      (At(STOPPED, Admitting(ExchangingShutdownAgain), {RequestStart}, false, false), GO),
      (At(STOPPED, Admitting(ExchangingRequests), {RequestStart}, false, false), GO),
      (At(Control(Lie, true), Acting(LoadingReceived), {}, false, false), GO) ]
  }

  lemma StartIsSelected()
    ensures ProcessRequests(Local(STOPPED, [], map[]), {RequestStart}, false, 1)
            == Local(Control(Lie, true), [], map[RequestStart := 1])
  {
    assert Eligible({RequestStart}, false, map[], PRIORITY[0], 1);
    assert Select({RequestStart}, false, map[], 1, 0) == RequestStart;
  }

  lemma FirstSteps(k: nat)
    requires k < 10
    ensures Next(Swallowing()[k].0, Swallowing()[k].1, Swallowing()[k + 1].0)
  {
  }

  lemma LaterSteps(k: nat)
    requires 10 <= k < 19
    ensures Next(Swallowing()[k].0, Swallowing()[k].1, Swallowing()[k + 1].0)
  {
    StartIsSelected();
  }

  /** That window is real: this run starts the robot by a START that was asked before the
      last shutdown. */
  lemma AShutdownMayBeSwallowed() returns (states: seq<Sys>, moves: seq<Move>)
    ensures Run(states, moves) && |states| == 20
    ensures moves[5] == Ask(RequestStart) && moves[6] == RequestShutdown && BetweenStores(states[6].pc)
    ensures forall k :: 7 <= k < 19 ==> moves[k].Advance?
    ensures states[13].pc.Ended? && states[19].local.control == Control(Lie, true)
  {
    var run := Swallowing();
    states := seq(20, k requires 0 <= k < 20 => run[k].0);
    moves := seq(19, k requires 0 <= k < 19 => run[k].1);
    forall k | 0 <= k < 19 ensures Next(states[k], moves[k], states[k + 1]) {
      if k < 10 { FirstSteps(k); } else { LaterSteps(k); }
    }
  }
}

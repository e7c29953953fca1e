/**
 The two views of `update` agree: between its first test and its end, whatever
 callbacks run in between, the interleaved cycle of `ControlCycle` does to the
 thread's state what `RLControllerBase.Cycle` does with the values that were read.
 */
module CycleReadings {
  import opened Common
  import opened ControlStateMachine
  import opened RLControllerBase
  import opened ControlCycle

  const NOTHING_READ: Readings :=
    Readings(0, false, false, false, {}, false, false, Effect(Default, []), false, false, false)

  /** The value the next operation of the cycle reads, added to what was read before. */
  function Read(r: Readings, s: Sys, choice: Choice): Readings {
    match s.pc
    case Admitting(LoadingEmergency) => r.(latched := Latched(s.word))
    case Admitting(ExchangingShutdown) => r.(shutdown := s.shutdown)
    case Admitting(ExchangingShutdownAgain) => r.(shutdownAgain := s.shutdown)
    case Admitting(ExchangingRequests) =>
      r.(pending := s.pending, upAllowed := choice.upAllowed, nowNs := choice.nowNs)
    case Acting(LoadingConnected) => r.(disconnected := !s.connected)
    case Acting(Dispatching(_)) => r.(effect := choice.effect)
    case Checking(ReloadingEmergency(_)) => r.(latchedLate := Latched(s.word))
    case Checking(ReexchangingShutdown(_)) => r.(shutdownLate := s.shutdown)
    case Checking(ReloadingConnected) => r.(disconnectedLate := !s.connected)
    case _ => r
  }

  /** Everything read by steps `i` to `n`; callbacks read nothing for the cycle. */
  function ReadBetween(states: seq<Sys>, moves: seq<Move>, i: nat, n: nat): Readings
    requires i <= n < |states| == |moves| + 1
    decreases n - i
  {
    if i == n then NOTHING_READ
    else
      var r := ReadBetween(states, moves, i, n - 1);
      if moves[n - 1].Advance? then Read(r, states[n - 1], moves[n - 1].choice) else r
  }

  /** One operation of a cycle that is under way, or one callback. */
  ghost predicate Within(s: Sys, move: Move, t: Sys) {
    !s.pc.Ended? && Next(s, move, t)
  }

  /** Steps `i` to `n` are one cycle, with the callbacks that ran during it. */
  ghost predicate OneCycle(states: seq<Sys>, moves: seq<Move>, i: nat, n: nat) {
    && |states| == |moves| + 1 && i <= n < |states| && states[i].pc == Admitting(LoadingEmergency)
    && forall k {:trigger moves[k]} :: i <= k < n ==> Within(states[k], moves[k], states[k + 1])
  }

  predicate NotYetLate(r: Readings) {
    !r.latchedLate && !r.shutdownLate && !r.disconnectedLate
  }

  predicate StopRead(r: Readings) {
    r.latched || r.shutdown || r.shutdownAgain
  }

  function AfterHandler(l: Local, r: Readings): Local {
    Dispatch(BeforeDispatch(l, r), r.effect)
  }

  /** Where the cycle that began with `l` is, in terms of what it has read. */
  ghost predicate Progress(l: Local, r: Readings, s: Sys) {
    match s.pc
    case Admitting(stage) =>
      && !r.disconnected && NotYetLate(r)
      && (if stage.ExchangingTarget? || stage.ComparingWord? then r.latched && s.local == Stop(l)
          else !StopRead(r) && s.local == l)
    case Stopping(ThenHold, _) =>
      && EffectAllowed(BeforeDispatch(l, r), r.effect) && (r.latchedLate || r.shutdownLate)
      && s.local == Stop(AfterHandler(l, r))
    case Stopping(after, _) =>
      && !r.disconnected && NotYetLate(r) && (if after.ThenReset? then r.latched else StopRead(r))
      && s.local == Stop(l)
    case Acting(stage) =>
      && NotYetLate(r)
      && (if stage.Dispatching? then r.disconnected == stage.disconnected && s.local == BeforeDispatch(l, r)
          else r.disconnected == stage.ClearingForJoystick? && s.local == AfterRequests(l, r))
    case Checking(stage) =>
      && EffectAllowed(BeforeDispatch(l, r), r.effect) && s.local == AfterHandler(l, r)
      && !r.latchedLate && !r.shutdownLate && r.disconnectedLate == stage.ClearingForJoystickLate?
      && (if stage.ReloadingEmergency? || stage.ReexchangingShutdown? then r.disconnected == stage.disconnected
          else !r.disconnected)
    case Ended => EffectAllowed(BeforeDispatch(l, r), r.effect) && s.local == Cycle(l, r)
  }

  /** The tests that stop the cycle. */
  lemma StopTestsKeepProgress(l: Local, r: Readings, s: Sys, choice: Choice)
    requires Progress(l, r, s) && s.pc.Admitting?
    requires var stage := s.pc.admit;
      stage.LoadingEmergency? || stage.ExchangingShutdown? || stage.ExchangingShutdownAgain?
    ensures Progress(l, Read(r, s, choice), AdmitStep(s, s.pc.admit, choice))
  {
    var t, u := AdmitStep(s, s.pc.admit, choice), Read(r, s, choice);
    assert t.pc.Stopping? <==> StopRead(u);
    assert t.local == if StopRead(u) then Stop(l) else l;
  }

  /** The reset, and the requests. */
  lemma AdmissionKeepsProgress(l: Local, r: Readings, s: Sys, choice: Choice)
    requires Progress(l, r, s) && s.pc.Admitting?
    requires var stage := s.pc.admit;
      !stage.LoadingEmergency? && !stage.ExchangingShutdown? && !stage.ExchangingShutdownAgain?
    ensures Progress(l, Read(r, s, choice), AdmitStep(s, s.pc.admit, choice))
  {
    var t, u := AdmitStep(s, s.pc.admit, choice), Read(r, s, choice);
    assert t.pc.Acting? ==> t.pc.act.LoadingReceived? && t.local == AfterRequests(l, u);
  }

  lemma StopKeepsProgress(l: Local, r: Readings, s: Sys)
    requires Progress(l, r, s) && s.pc.Stopping?
    ensures Progress(l, r, StopStep(s, s.pc.after, s.pc.requestsCleared))
  {
  }

  /** The joystick status is known, and what was admitted stands. */
  lemma JoystickRead(l: Local, r: Readings, disconnected: bool, s: Sys, stage: ActStage)
    requires NotYetLate(r) && s.local == AfterRequests(l, r)
    requires !stage.LoadingReceived? && disconnected == stage.ClearingForJoystick?
    requires stage.Dispatching? ==> !stage.disconnected
    ensures Progress(l, r.(disconnected := disconnected), s.(pc := Acting(stage)))
  {
    assert AfterRequests(l, r.(disconnected := disconnected)) == AfterRequests(l, r);
  }

  lemma JoystickTestKeepsProgress(l: Local, r: Readings, s: Sys, choice: Choice)
    requires Progress(l, r, s) && (s.pc == Acting(LoadingReceived) || s.pc == Acting(LoadingConnected))
    ensures Progress(l, Read(r, s, choice), ActStep(s, s.pc.act, choice))
  {
    var t, u := ActStep(s, s.pc.act, choice), Read(r, s, choice);
    JoystickRead(l, r, u.disconnected, s, t.pc.act);
  }

  lemma JoystickLossKeepsProgress(l: Local, r: Readings, s: Sys, choice: Choice)
    requires Progress(l, r, s) && s.pc == Acting(ClearingForJoystick)
    ensures Progress(l, Read(r, s, choice), ActStep(s, s.pc.act, choice))
  {
    assert BeforeDispatch(l, r) == Disconnect(AfterRequests(l, r));
  }

  lemma DispatchKeepsProgress(l: Local, r: Readings, s: Sys, choice: Choice)
    requires Progress(l, r, s) && AboutToDispatch(s.pc) && EffectAllowed(s.local, choice.effect)
    ensures Progress(l, Read(r, s, choice), ActStep(s, s.pc.act, choice))
  {
    assert BeforeDispatch(l, Read(r, s, choice)) == BeforeDispatch(l, r);
  }

  lemma LateStopTestsKeepProgress(l: Local, r: Readings, s: Sys, choice: Choice)
    requires Progress(l, r, s) && s.pc.Checking?
    requires s.pc.late.ReloadingEmergency? || s.pc.late.ReexchangingShutdown?
    ensures Progress(l, Read(r, s, choice), CheckStep(s, s.pc.late))
  {
    assert BeforeDispatch(l, Read(r, s, choice)) == BeforeDispatch(l, r);
  }

  lemma LateJoystickTestKeepsProgress(l: Local, r: Readings, s: Sys, choice: Choice)
    requires Progress(l, r, s) && (s.pc == Checking(ReloadingReceived) || s.pc == Checking(ReloadingConnected))
    ensures Progress(l, Read(r, s, choice), CheckStep(s, s.pc.late))
  {
    var t, u := CheckStep(s, s.pc.late), Read(r, s, choice);
    assert t.local == s.local && BeforeDispatch(l, u) == BeforeDispatch(l, r) && AfterHandler(l, u) == AfterHandler(l, r);
    assert t.pc.Ended? ==> Cycle(l, u) == AfterHandler(l, u);
  }

  lemma LateJoystickLossKeepsProgress(l: Local, r: Readings, s: Sys, choice: Choice)
    requires Progress(l, r, s) && s.pc == Checking(ClearingForJoystickLate)
    ensures Progress(l, Read(r, s, choice), CheckStep(s, s.pc.late))
  {
    assert Cycle(l, r) == Hold(Disconnect(AfterHandler(l, r)));
  }

  lemma NextKeepsProgress(l: Local, r: Readings, s: Sys, move: Move, t: Sys)
    requires Progress(l, r, s) && !s.pc.Ended? && Next(s, move, t)
    ensures Progress(l, if move.Advance? then Read(r, s, move.choice) else r, t)
  {
    if move.Advance? {
      match s.pc
      case Admitting(stage) =>
        if stage.LoadingEmergency? || stage.ExchangingShutdown? || stage.ExchangingShutdownAgain? {
          StopTestsKeepProgress(l, r, s, move.choice);
        } else {
          AdmissionKeepsProgress(l, r, s, move.choice);
        }
      case Stopping(_, _) => StopKeepsProgress(l, r, s);
      case Acting(stage) =>
        if stage.Dispatching? { DispatchKeepsProgress(l, r, s, move.choice); }
        else if stage.ClearingForJoystick? { JoystickLossKeepsProgress(l, r, s, move.choice); }
        else { JoystickTestKeepsProgress(l, r, s, move.choice); }
      case Checking(stage) =>
        if stage.ReloadingEmergency? || stage.ReexchangingShutdown? { LateStopTestsKeepProgress(l, r, s, move.choice); }
        else if stage.ClearingForJoystickLate? { LateJoystickLossKeepsProgress(l, r, s, move.choice); }
        else { LateJoystickTestKeepsProgress(l, r, s, move.choice); }
    }
  }

  lemma {:induction false} CycleProgress(states: seq<Sys>, moves: seq<Move>, i: nat, n: nat)
    requires OneCycle(states, moves, i, n)
    ensures Progress(states[i].local, ReadBetween(states, moves, i, n), states[n])
    decreases n
  {
    if i < n {
      CycleProgress(states, moves, i, n - 1);
      var r := ReadBetween(states, moves, i, n - 1);
      assert Within(states[n - 1], moves[n - 1], states[n]);
      NextKeepsProgress(states[i].local, r, states[n - 1], moves[n - 1], states[n]);
    }
  }

  /** A cycle in any interleaving is `Cycle` of the values it read, with a handler
      effect that keeps the handler's contract. */
  lemma CycleIsItsReadings(states: seq<Sys>, moves: seq<Move>, i: nat, n: nat)
    requires OneCycle(states, moves, i, n) && states[n].pc.Ended?
    ensures var l, r := states[i].local, ReadBetween(states, moves, i, n);
      EffectAllowed(BeforeDispatch(l, r), r.effect) && states[n].local == Cycle(l, r)
  {
    CycleProgress(states, moves, i, n);
  }

  /** The operator's stop over runs: a cycle of a started controller that finds a START
      due in the mailbox ends stopped with every joint limp, whatever the callbacks do
      during the cycle. */
  lemma StartStopsARunningCycle(states: seq<Sys>, moves: seq<Move>, i: nat, n: nat)
    requires OneCycle(states, moves, i, n) && states[n].pc.Ended? && states[i].local.control.started
    requires var r := ReadBetween(states, moves, i, n);
      Due(r.pending, r.upAllowed, states[i].local.accepted, r.nowNs, RequestStart)
    ensures Held(states[n].local)
  {
    CycleIsItsReadings(states, moves, i, n);
    StartStopsAStartedCycle(states[i].local, ReadBetween(states, moves, i, n));
  }
}

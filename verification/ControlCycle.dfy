/**
 `RLControllerBase::update` against callbacks that run between any two of its
 atomic operations: emergency triggers and resets, shutdowns, requests, and the
 joystick status.
 */
module ControlCycle {
  import opened Common
  import opened ControlStateMachine
  import opened RLControllerBase

  const WORD_MODULUS: nat := 0x1_0000_0000
  const GENERATION_MODULUS: nat := 0x8000_0000

  /** `(observed + 2U) | 1U` on a 32-bit word. */
  function Latch(word: nat): nat {
    var next := (word + 2) % WORD_MODULUS;
    if next % 2 == 0 then next + 1 else next
  }

  predicate Latched(word: nat) {
    word % 2 == 1
  }

  /** Bits 1 to 31. */
  function Generation(word: nat): nat {
    word / 2
  }

  /** What follows an immediate stop. */
  datatype After = ThenReset | ThenJoystick | ThenHold

  /** From the first test to the request mailbox; `seen` is the number of triggers when
      the reset callback read the word it left as target. */
  datatype AdmitStage =
    | LoadingEmergency | ExchangingTarget | ComparingWord(target: nat, seen: nat)
    | ExchangingShutdown | DroppingTarget | ExchangingShutdownAgain | ExchangingRequests

  /** From the joystick test to the dispatched handler. */
  datatype ActStage = LoadingReceived | LoadingConnected | ClearingForJoystick | Dispatching(disconnected: bool)

  /** The tests after the handler; `disconnected` is the joystick status read before it. */
  datatype LateStage =
    | ReloadingEmergency(disconnected: bool) | ReexchangingShutdown(disconnected: bool)
    | ReloadingReceived | ReloadingConnected | ClearingForJoystickLate

  /** The next atomic operation of `update`; `Stopping` is what is left of
      `applyImmediateStop`: clearing the requests, then the shutdown flag. */
  datatype Pc =
    | Admitting(admit: AdmitStage) | Stopping(after: After, requestsCleared: bool)
    | Acting(act: ActStage) | Checking(late: LateStage) | Ended

  /** A reset callback that has loaded the word but not stored it yet. */
  datatype ResetRead = ResetRead(word: nat, seen: nat)

  datatype Sys = Sys(
    word: nat, target: nat, pending: set<Request>, shutdown: bool, connected: bool, received: bool,
    local: Local, pc: Pc, callbacks: map<nat, ResetRead>,
    // history
    triggers: nat,             // triggers that took effect
    targetSeen: nat,           // triggers when the stored target was read
    resetAt: nat,              // triggers at the last successful reset
    demanded: bool)            // a stop has to show at the end of this cycle

  datatype Choice = Choice(nowNs: int, upAllowed: bool, effect: Effect, restart: bool)

  datatype Move =
    | Trigger | ReadForReset(callback: nat) | StoreTarget(callback: nat) | RequestShutdown
    | Ask(request: Request) | SetConnected(value: bool) | SetReceived
    | Advance(choice: Choice)

  /** A trigger that takes effect now is seen by this cycle's last test. */
  predicate BeforeLastEmergencyTest(pc: Pc) {
    !pc.Ended? && !(pc.Checking? && !pc.late.ReloadingEmergency?)
  }

  predicate BeforeLastShutdownTest(pc: Pc) {
    BeforeLastEmergencyTest(pc) || (pc.Checking? && pc.late.ReexchangingShutdown?)
  }

  function Callback(s: Sys, move: Move): Sys
    requires !move.Advance?
  {
    match move
    case Trigger =>
      s.(word := Latch(s.word), triggers := s.triggers + 1,
         demanded := s.demanded || BeforeLastEmergencyTest(s.pc))
    case ReadForReset(id) =>
      if Latched(s.word) then s.(callbacks := s.callbacks[id := ResetRead(s.word, s.triggers)]) else s
    case StoreTarget(id) =>
      if id in s.callbacks then
        s.(target := s.callbacks[id].word, targetSeen := s.callbacks[id].seen, callbacks := s.callbacks - {id})
      else s
    case RequestShutdown => s.(shutdown := true, demanded := s.demanded || BeforeLastShutdownTest(s.pc))
    case Ask(r) => s.(pending := s.pending + {r})
    case SetConnected(value) => s.(connected := value)
    case SetReceived => s.(received := true)
  }

  /** `applyImmediateStop` up to its first store to a shared atomic. */
  function BeginStop(s: Sys, after: After): Sys {
    s.(local := Stop(s.local), pc := Stopping(after, false))
  }

  function StopStep(s: Sys, after: After, requestsCleared: bool): Sys {
    if !requestsCleared then s.(pending := {}, pc := Stopping(after, true))
    else match after
         case ThenReset => s.(shutdown := false, pc := Admitting(ExchangingTarget))
         case ThenJoystick => s.(shutdown := false, pc := Acting(LoadingReceived))
         case ThenHold => s.(shutdown := false, local := Hold(s.local), pc := Ended)
  }

  function AdmitStep(s: Sys, stage: AdmitStage, choice: Choice): Sys {
    match stage
    case LoadingEmergency =>
      if Latched(s.word) then BeginStop(s, ThenReset) else s.(pc := Admitting(ExchangingShutdown))
    case ExchangingTarget =>
      s.(target := 0,
         pc := if Latched(s.target) then Admitting(ComparingWord(s.target, s.targetSeen))
               else Acting(LoadingReceived))
    case ComparingWord(target, seen) =>
      if s.word == target then
        s.(word := target - target % 2, resetAt := s.triggers, pc := Stopping(ThenJoystick, false))
      else s.(pc := Acting(LoadingReceived))
    case ExchangingShutdown =>
      if s.shutdown then BeginStop(s.(shutdown := false), ThenJoystick) else s.(pc := Admitting(DroppingTarget))
    case DroppingTarget => s.(target := 0, pc := Admitting(ExchangingShutdownAgain))
    case ExchangingShutdownAgain =>
      if s.shutdown then BeginStop(s.(shutdown := false), ThenJoystick) else s.(pc := Admitting(ExchangingRequests))
    case ExchangingRequests =>
      s.(local := ProcessRequests(s.local, s.pending, choice.upAllowed, choice.nowNs), pending := {},
         pc := Acting(LoadingReceived))
  }

  function ActStep(s: Sys, stage: ActStage, choice: Choice): Sys {
    match stage
    case LoadingReceived => s.(pc := Acting(if s.received then LoadingConnected else Dispatching(false)))
    case LoadingConnected => s.(pc := Acting(if s.connected then Dispatching(false) else ClearingForJoystick))
    case ClearingForJoystick => s.(pending := {}, local := Disconnect(s.local), pc := Acting(Dispatching(true)))
    case Dispatching(disconnected) =>
      s.(local := Dispatch(s.local, choice.effect), pc := Checking(ReloadingEmergency(disconnected)))
  }

  function CheckStep(s: Sys, stage: LateStage): Sys {
    match stage
    case ReloadingEmergency(disconnected) =>
      if Latched(s.word) then BeginStop(s, ThenHold) else s.(pc := Checking(ReexchangingShutdown(disconnected)))
    case ReexchangingShutdown(disconnected) =>
      if s.shutdown then BeginStop(s.(shutdown := false), ThenHold)
      else s.(pc := if disconnected then Ended else Checking(ReloadingReceived))
    case ReloadingReceived => s.(pc := if s.received then Checking(ReloadingConnected) else Ended)
    case ReloadingConnected => s.(pc := if s.connected then Ended else Checking(ClearingForJoystickLate))
    case ClearingForJoystickLate => s.(pending := {}, local := Hold(Disconnect(s.local)), pc := Ended)
  }

  /** The next cycle, or `starting`, which the controller manager runs between cycles. */
  function BetweenCycles(s: Sys, restart: bool): Sys {
    if restart then
      s.(local := Stop(s.local), pending := {}, shutdown := false, target := 0, connected := true, received := false)
    else s.(pc := Admitting(LoadingEmergency), demanded := Latched(s.word) || s.shutdown)
  }

  function CycleStep(s: Sys, choice: Choice): Sys {
    match s.pc
    case Admitting(stage) => AdmitStep(s, stage, choice)
    case Stopping(after, requestsCleared) => StopStep(s, after, requestsCleared)
    case Acting(stage) => ActStep(s, stage, choice)
    case Checking(stage) => CheckStep(s, stage)
    case Ended => BetweenCycles(s, choice.restart)
  }

  predicate AboutToDispatch(pc: Pc) {
    pc.Acting? && pc.act.Dispatching?
  }

  ghost predicate Next(s: Sys, move: Move, t: Sys) {
    if move.Advance? then
      && (AboutToDispatch(s.pc) ==> EffectAllowed(s.local, move.choice.effect))
      && t == CycleStep(s, move.choice)
    else t == Callback(s, move)
  }

  ghost predicate Initial(s: Sys) {
    && s.word == 0 && s.target == 0 && s.pending == {} && !s.shutdown && s.connected && !s.received
    && s.local.control == STOPPED && s.pc == Ended && s.callbacks == map[]
    && s.triggers == 0 && s.targetSeen == 0 && s.resetAt == 0 && !s.demanded
  }

  ghost predicate Run(states: seq<Sys>, moves: seq<Move>) {
    && |states| == |moves| + 1 && Initial(states[0])
    && forall i :: 0 <= i < |moves| ==> Next(states[i], moves[i], states[i + 1])
  }

  // ---------------------------------------------------------------------------
  // What one step of the control thread may do
  // ---------------------------------------------------------------------------

  predicate Comparing(pc: Pc) {
    pc.Admitting? && pc.admit.ComparingWord?
  }

  /** What the control thread may do to the word and its copies: only a reset
      changes the word, and only `ComparingWord` looks at a copy. */
  ghost predicate WordFrame(s: Sys, t: Sys) {
    && t.triggers == s.triggers && t.callbacks == s.callbacks
    && (t.target == 0 || (t.target == s.target && t.targetSeen == s.targetSeen))
    && (Comparing(t.pc) ==> Latched(s.target) && t.pc.admit == ComparingWord(s.target, s.targetSeen))
    && (if Comparing(s.pc) && s.word == s.pc.admit.target
        then t.word == s.word - s.word % 2 && t.resetAt == s.triggers
        else t.word == s.word && t.resetAt == s.resetAt)
  }

  /** A demanded stop is carried out already, or still shows in a shared atomic that
      a later test of this cycle reads. */
  ghost predicate StopInv(s: Sys) {
    var shown := Latched(s.word) || s.shutdown;
    match s.pc
    case Admitting(stage) =>
      if stage.ExchangingTarget? || stage.ComparingWord? then Stopped(s.local) else s.demanded ==> shown
    case Stopping(_, _) => Stopped(s.local)
    case Acting(_) => s.demanded ==> shown || Stopped(s.local)
    case Checking(stage) =>
      s.demanded ==> || Held(s.local) || (stage.ReloadingEmergency? && shown)
                     || (stage.ReexchangingShutdown? && s.shutdown)
    case Ended => s.demanded ==> Held(s.local)
  }

  /** The mode change of one step, as the state machine names it. */
  function CauseOf(s: Sys, move: Move): Cause {
    if !move.Advance? then ByHandler
    else match s.pc
         case Admitting(stage) =>
           if stage.ExchangingRequests? then
             ByRequest(Select(s.pending, move.choice.upAllowed, s.local.accepted, move.choice.nowNs, 0))
           else if || (stage.LoadingEmergency? && Latched(s.word))
                   || ((stage.ExchangingShutdown? || stage.ExchangingShutdownAgain?) && s.shutdown) then ByStop
           else ByHandler
         case Acting(stage) => if stage.ClearingForJoystick? then ByJoystick else ByHandler
         case Checking(stage) =>
           if stage.ClearingForJoystickLate? then ByJoystick
           else if || (stage.ReloadingEmergency? && Latched(s.word))
                   || (stage.ReexchangingShutdown? && s.shutdown) then ByStop
           else ByHandler
         case Ended => if move.choice.restart then ByStop else ByHandler
         case Stopping(_, _) => ByHandler
  }

  /** The emergency word, the demanded stop and the mode all move only as above. */
  ghost predicate Moves(s: Sys, choice: Choice, t: Sys) {
    && WordFrame(s, t)
    && (StopInv(s) ==> StopInv(t))
    && Step(s.local.control, CauseOf(s, Advance(choice)), t.local.control)
  }

  lemma AdmitStepMoves(s: Sys, stage: AdmitStage, choice: Choice)
    requires s.pc == Admitting(stage)
    ensures Moves(s, choice, AdmitStep(s, stage, choice))
  {
  }

  lemma StopStepMoves(s: Sys, after: After, requestsCleared: bool, choice: Choice)
    requires s.pc == Stopping(after, requestsCleared)
    ensures Moves(s, choice, StopStep(s, after, requestsCleared))
  {
  }

  lemma ActStepMoves(s: Sys, stage: ActStage, choice: Choice)
    requires s.pc == Acting(stage) && (stage.Dispatching? ==> EffectAllowed(s.local, choice.effect))
    ensures Moves(s, choice, ActStep(s, stage, choice))
  {
  }

  lemma CheckStepMoves(s: Sys, stage: LateStage, choice: Choice)
    requires s.pc == Checking(stage)
    ensures Moves(s, choice, CheckStep(s, stage))
  {
  }

  lemma CycleStepKeeps(s: Sys, choice: Choice)
    requires AboutToDispatch(s.pc) ==> EffectAllowed(s.local, choice.effect)
    ensures Moves(s, choice, CycleStep(s, choice))
  {
    match s.pc
    case Admitting(stage) => AdmitStepMoves(s, stage, choice);
    case Stopping(after, requestsCleared) => StopStepMoves(s, after, requestsCleared, choice);
    case Acting(stage) => ActStepMoves(s, stage, choice);
    case Checking(stage) => CheckStepMoves(s, stage, choice);
    case Ended =>
  }

  // ---------------------------------------------------------------------------
  // The emergency word
  // ---------------------------------------------------------------------------

  /** A word read when `seen` triggers had taken effect. */
  predicate Stamped(word: nat, seen: nat) {
    word < WORD_MODULUS && Generation(word) == seen % GENERATION_MODULUS
  }

  lemma LatchAdvances(word: nat, seen: nat)
    requires Stamped(word, seen)
    ensures Stamped(Latch(word), seen + 1) && Latched(Latch(word))
  {
  }

  /** The word counts triggers modulo 2^31 beside its latch bit; the latch bit is set
      exactly when a trigger took effect after the last successful reset, also when
      the count wraps; every copy of the word is a latched word read earlier. */
  ghost predicate WordInv(s: Sys) {
    && Stamped(s.word, s.triggers) && s.resetAt <= s.triggers
    && (Latched(s.word) <==> s.resetAt < s.triggers)
    && (s.target != 0 ==> Latched(s.target) && Stamped(s.target, s.targetSeen) && s.targetSeen <= s.triggers)
    && (Comparing(s.pc) ==>
          Latched(s.pc.admit.target) && Stamped(s.pc.admit.target, s.pc.admit.seen) && s.pc.admit.seen <= s.triggers)
    && (forall id :: id in s.callbacks ==>
          && Latched(s.callbacks[id].word) && Stamped(s.callbacks[id].word, s.callbacks[id].seen)
          && s.callbacks[id].seen <= s.triggers)
  }

  lemma TriggerKeepsWordInv(s: Sys)
    requires WordInv(s)
    ensures WordInv(Callback(s, Trigger))
  {
    LatchAdvances(s.word, s.triggers);
  }

  lemma ResetCallbackKeepsWordInv(s: Sys, move: Move)
    requires WordInv(s) && (move.ReadForReset? || move.StoreTarget?)
    ensures WordInv(Callback(s, move))
  {
  }

  lemma OtherCallbackKeepsWordInv(s: Sys, move: Move)
    requires WordInv(s) && !move.Advance? && !move.Trigger? && !move.ReadForReset? && !move.StoreTarget?
    ensures WordInv(Callback(s, move))
  {
  }

  lemma CallbackKeepsWordInv(s: Sys, move: Move)
    requires WordInv(s) && !move.Advance?
    ensures WordInv(Callback(s, move))
  {
    match move
    case Trigger => TriggerKeepsWordInv(s);
    case ReadForReset(_) => ResetCallbackKeepsWordInv(s, move);
    case StoreTarget(_) => ResetCallbackKeepsWordInv(s, move);
    case _ => OtherCallbackKeepsWordInv(s, move);
  }

  lemma FrameKeepsWordInv(s: Sys, t: Sys)
    requires WordInv(s) && WordFrame(s, t)
    ensures WordInv(t)
  {
  }

  lemma NextKeepsWordInv(s: Sys, move: Move, t: Sys)
    requires WordInv(s) && Next(s, move, t)
    ensures WordInv(t)
  {
    if !move.Advance? {
      CallbackKeepsWordInv(s, move);
    } else {
      CycleStepKeeps(s, move.choice);
      FrameKeepsWordInv(s, t);
    }
  }

  lemma {:induction false} RunKeepsWordInv(states: seq<Sys>, moves: seq<Move>, n: nat)
    requires Run(states, moves) && n < |states|
    ensures WordInv(states[n])
  {
    if n > 0 {
      RunKeepsWordInv(states, moves, n - 1);
      NextKeepsWordInv(states[n - 1], moves[n - 1], states[n]);
    }
  }

  /** The reset's compare-exchange succeeds if and only if an emergency is latched
      and the triggers since the reset callback read the word are a whole multiple of
      2^31; with fewer than 2^31 of them, if and only if there were none. */
  lemma ResetSucceedsExactly(states: seq<Sys>, moves: seq<Move>, n: nat)
    requires Run(states, moves) && n < |states| && Comparing(states[n].pc)
    ensures var s := states[n];
      && s.pc.admit.seen <= s.triggers
      && (s.word == s.pc.admit.target <==>
            Latched(s.word) && (s.triggers - s.pc.admit.seen) % GENERATION_MODULUS == 0)
      && (s.triggers - s.pc.admit.seen < GENERATION_MODULUS ==>
            (s.word == s.pc.admit.target <==> Latched(s.word) && s.triggers == s.pc.admit.seen))
  {
    RunKeepsWordInv(states, moves, n);
    var s := states[n];
    SameResidue(s.triggers, s.pc.admit.seen);
  }

  lemma SameResidue(a: nat, b: nat)
    requires b <= a
    ensures a % GENERATION_MODULUS == b % GENERATION_MODULUS <==> (a - b) % GENERATION_MODULUS == 0
  {
  }

  /** The latch bit is set exactly when a trigger has taken effect since the last
      successful reset: repeating the trigger, or wrapping the count, never clears it. */
  lemma LatchedExactlySinceLastReset(states: seq<Sys>, moves: seq<Move>, n: nat)
    requires Run(states, moves) && n < |states|
    ensures Latched(states[n].word) <==> states[n].resetAt < states[n].triggers
  {
    RunKeepsWordInv(states, moves, n);
  }

  // ---------------------------------------------------------------------------
  // Stops dominate the cycle
  // ---------------------------------------------------------------------------

  lemma CallbackKeepsStopInv(s: Sys, move: Move)
    requires StopInv(s) && WordInv(s) && !move.Advance?
    ensures StopInv(Callback(s, move))
  {
    LatchAdvances(s.word, s.triggers);
  }

  lemma {:induction false} RunKeepsStopInv(states: seq<Sys>, moves: seq<Move>, n: nat)
    requires Run(states, moves) && n < |states|
    ensures StopInv(states[n])
  {
    if n > 0 {
      RunKeepsStopInv(states, moves, n - 1);
      RunKeepsWordInv(states, moves, n - 1);
      var s, move := states[n - 1], moves[n - 1];
      assert Next(s, move, states[n]);
      if !move.Advance? { CallbackKeepsStopInv(s, move); }
      else { CycleStepKeeps(s, move.choice); }
    }
  }

  /** A cycle that starts with an emergency latched or a shutdown pending, or during
      which a trigger or a shutdown arrives before its last test of that kind, ends
      in DEFAULT, not started, with the DEFAULT command on every joint: whatever a
      request, the joystick or the mode handler did meanwhile, and whether or not a
      reset cleared the latch in the same cycle. */
  lemma StopDominates(states: seq<Sys>, moves: seq<Move>, n: nat)
    requires Run(states, moves) && n < |states| && states[n].pc.Ended? && states[n].demanded
    ensures Held(states[n].local)
  {
    RunKeepsStopInv(states, moves, n);
  }

  /** Steps `j` to `n` belong to one cycle, which is over at `n`. */
  ghost predicate UntilTheEnd(states: seq<Sys>, moves: seq<Move>, j: nat, n: nat) {
    && Run(states, moves) && j < n < |states| && states[n].pc.Ended?
    && forall m :: j <= m < n ==> !states[m].pc.Ended?
  }

  lemma {:induction false} DemandStays(states: seq<Sys>, moves: seq<Move>, j: nat, n: nat)
    requires Run(states, moves) && j <= n < |states| && states[j].demanded
    requires forall m :: j <= m < n ==> !states[m].pc.Ended?
    ensures states[n].demanded
  {
    if j < n {
      DemandStays(states, moves, j, n - 1);
      assert Next(states[n - 1], moves[n - 1], states[n]);
    }
  }

  /** The tests that a cycle has left behind. */
  predicate EmergencyTested(pc: Pc) {
    || (pc.Checking? && !pc.late.ReloadingEmergency?) || (pc.Stopping? && pc.after.ThenHold?)
  }

  predicate ShutdownTested(pc: Pc) {
    EmergencyTested(pc) && (pc.Checking? ==> !pc.late.ReexchangingShutdown?)
  }

  lemma {:induction false} TestsAreMadeOnce(states: seq<Sys>, moves: seq<Move>, j: nat, k: nat)
    requires Run(states, moves) && j <= k < |states| && forall m :: j <= m <= k ==> !states[m].pc.Ended?
    ensures EmergencyTested(states[j].pc) ==> EmergencyTested(states[k].pc)
    ensures ShutdownTested(states[j].pc) ==> ShutdownTested(states[k].pc)
  {
    if j < k {
      TestsAreMadeOnce(states, moves, j, k - 1);
      assert Next(states[k - 1], moves[k - 1], states[k]);
    }
  }

  /** A trigger that takes effect before the cycle loads the emergency word for the last
      time, or a shutdown requested before its last exchange of the shutdown flag. */
  ghost predicate StopInTime(states: seq<Sys>, moves: seq<Move>, j: nat, k: nat)
    requires j <= k < |states| == |moves| + 1
  {
    && k < |moves| && moves[k].Advance? && states[k].pc.Checking?
    && (|| (moves[j].Trigger? && states[k].pc.late.ReloadingEmergency?)
        || (moves[j].RequestShutdown? && states[k].pc.late.ReexchangingShutdown?))
  }

  /** Such a stop holds the robot at the end of its own cycle. */
  lemma StopsInTimeHold(states: seq<Sys>, moves: seq<Move>, j: nat, k: nat, n: nat)
    requires UntilTheEnd(states, moves, j, n) && j < k < n && StopInTime(states, moves, j, k)
    ensures Held(states[n].local)
  {
    TestsAreMadeOnce(states, moves, j, k);
    assert Next(states[j], moves[j], states[j + 1]);
    DemandStays(states, moves, j + 1, n);
    StopDominates(states, moves, n);
  }

  /** So does a trigger that no reset has undone when a cycle begins, and a shutdown
      that is pending then. */
  lemma StopsBeforeTheCycleHold(states: seq<Sys>, moves: seq<Move>, j: nat, n: nat)
    requires UntilTheEnd(states, moves, j + 1, n) && states[j].pc.Ended? && moves[j].Advance?
    requires states[j].resetAt < states[j].triggers || states[j].shutdown
    ensures Held(states[n].local)
  {
    LatchedExactlySinceLastReset(states, moves, j);
    assert Next(states[j], moves[j], states[j + 1]);
    DemandStays(states, moves, j + 1, n);
    StopDominates(states, moves, n);
  }

  // ---------------------------------------------------------------------------
  // The cycle only makes the mode changes of the state machine
  // ---------------------------------------------------------------------------

  lemma NextIsModeStep(s: Sys, move: Move, t: Sys)
    requires Next(s, move, t)
    ensures Step(s.local.control, CauseOf(s, move), t.local.control)
  {
    if move.Advance? { CycleStepKeeps(s, move.choice); }
  }

  function ModesOf(states: seq<Sys>): (r: seq<Control>)
    ensures |r| == |states| && forall k :: 0 <= k < |r| ==> r[k] == states[k].local.control
  {
    seq(|states|, k requires 0 <= k < |states| => states[k].local.control)
  }

  function CausesOf(states: seq<Sys>, moves: seq<Move>): (r: seq<Cause>)
    requires |states| == |moves| + 1
    ensures |r| == |moves| && forall k :: 0 <= k < |r| ==> r[k] == CauseOf(states[k], moves[k])
  {
    seq(|moves|, k requires 0 <= k < |moves| => CauseOf(states[k], moves[k]))
  }

  lemma RunIsTrace(states: seq<Sys>, moves: seq<Move>)
    requires Run(states, moves)
    ensures Trace(ModesOf(states), CausesOf(states, moves))
  {
    forall k | 0 <= k < |moves|
      ensures Step(ModesOf(states)[k], CausesOf(states, moves)[k], ModesOf(states)[k + 1])
    {
      NextIsModeStep(states[k], moves[k], states[k + 1]);
    }
  }

  lemma StartWasPending(s: Sys, move: Move)
    requires CauseOf(s, move) == ByRequest(RequestStart)
    ensures move.Advance? && s.pc == Admitting(ExchangingRequests) && RequestStart in s.pending
  {
    var choice := move.choice;
    var k := SelectedIsFirstEligible(s.pending, choice.upAllowed, s.local.accepted, choice.nowNs, 0);
  }

  /** So whatever the callbacks do, a run of cycles that is not started at some point
      and moves the robot later has gone through a pending START, LIE, STAND and WALK. */
  lemma CyclesFollowTheStateMachine(states: seq<Sys>, moves: seq<Move>, i: nat, n: nat)
      returns (a: nat, b: nat, c: nat)
    requires Run(states, moves) && i <= n < |states|
    requires !states[i].local.control.started && Locomotion(states[n].local.control.mode)
    ensures i < a < b < c <= n
    ensures states[a - 1].pc == Admitting(ExchangingRequests) && RequestStart in states[a - 1].pending
    ensures states[a].local.control == Control(Lie, true)
    ensures states[b - 1].local.control.mode == Lie && states[b].local.control.mode == Stand
    ensures states[c - 1].local.control.mode == Stand && states[c].local.control.mode == Walk
    ensures forall k :: a <= k <= n ==> states[k].local.control.started
  {
    RunIsTrace(states, moves);
    var trace, causes := ModesOf(states), CausesOf(states, moves);
    TraceKeepsSafe(trace, causes, 0, i);
    a, b, c := LocomotionNeedsStartLieStandWalk(trace, causes, i, n);
    StartWasPending(states[a - 1], moves[a - 1]);
    forall k | a <= k <= n ensures states[k].local.control.started {
      assert trace[k].started;
    }
  }
}

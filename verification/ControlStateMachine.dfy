/**
 The control mode reducers, and what every run of mode changes looks like, whoever
 makes the change: an operator request, a stop, a lost joystick, or a mode handler.
 */
module ControlStateMachine {

  datatype Mode = Lie | Stand | Walk | Dance | Default | Down | Up

  datatype Request =
    | RequestStart | RequestSwitchMode | RequestLieToStand | RequestStandToLie | RequestWalk
    | RequestWalkToStand | RequestDance | RequestDown | RequestUp | RequestPosition | RequestNone

  datatype Event =
    | StartControl | ShutdownControl | StandToLie | LieToStand | StandToWalk | DanceToWalk | DownToWalk
    | UpToWalk | ToStand | WalkToDance | WalkToDown | DownToUp | DefaultToLie | JoystickDisconnected | NoEvent

  datatype Transition = Transition(
    mode: Mode, event: Event, startControl: bool, accepted: bool, resetStandTransition: bool,
    captureCurrentJointAngles: bool, resetObservation: bool, resetDanceTime: bool)

  function Rejected(mode: Mode, startControl: bool): Transition {
    Transition(mode, NoEvent, startControl, false, false, false, false, false)
  }

  function Accepted(to: Mode, startControl: bool, event: Event): Transition {
    Transition(to, event, startControl, true, false, false, false, false)
  }

  /** A transition that restarts the LIE/STAND interpolation from the measured pose. */
  function Interpolating(to: Mode, startControl: bool, event: Event): Transition {
    Accepted(to, startControl, event).(resetStandTransition := true, captureCurrentJointAngles := true)
  }

  function ApplyControlRequest(mode: Mode, startControl: bool, request: Request): Transition {
    match request
    case RequestStart =>
      if !startControl then Interpolating(Lie, true, StartControl)
      else Accepted(Default, false, ShutdownControl)
    case RequestSwitchMode =>
      if startControl && mode == Stand then Interpolating(Lie, true, StandToLie)
      else if startControl && mode == Lie then Interpolating(Stand, true, LieToStand)
      else Rejected(mode, startControl)
    case RequestLieToStand =>
      if startControl && mode == Lie then Interpolating(Stand, true, LieToStand) else Rejected(mode, startControl)
    case RequestStandToLie =>
      if startControl && mode == Stand then Interpolating(Lie, true, StandToLie) else Rejected(mode, startControl)
    case RequestWalk =>
      if mode == Stand then Accepted(Walk, startControl, StandToWalk).(resetObservation := true)
      else if mode == Dance then Accepted(Walk, startControl, DanceToWalk).(resetObservation := true)
      else if mode == Down then Accepted(Walk, startControl, DownToWalk).(resetObservation := true)
      else if mode == Up then Accepted(Walk, startControl, UpToWalk).(resetObservation := true)
      else Rejected(mode, startControl)
    case RequestWalkToStand =>
      if Locomotion(mode) then Accepted(Stand, startControl, ToStand) else Rejected(mode, startControl)
    case RequestPosition =>
      if Locomotion(mode) then Accepted(Stand, startControl, ToStand)
      else if mode == Default then Interpolating(Lie, startControl, DefaultToLie)
      else Rejected(mode, startControl)
    case RequestDance => FromTo(mode, startControl, Walk, Dance, WalkToDance)
    case RequestDown => FromTo(mode, startControl, Walk, Down, WalkToDown)
    case RequestUp => FromTo(mode, startControl, Down, Up, DownToUp)
    case RequestNone => Rejected(mode, startControl)
  }

  function FromTo(mode: Mode, startControl: bool, from: Mode, to: Mode, event: Event): Transition {
    if mode == from then Accepted(to, startControl, event).(resetObservation := true, resetDanceTime := true)
    else Rejected(mode, startControl)
  }

  function JoystickDisconnectFallback(mode: Mode, startControl: bool): Transition {
    if mode == Dance || mode == Down || mode == Up then
      Accepted(Walk, startControl, JoystickDisconnected).(resetObservation := true)
    else if mode != Walk then Accepted(Default, false, JoystickDisconnected)
    else Accepted(Walk, startControl, JoystickDisconnected)
  }

  /** The modes in which a learned policy moves the robot. */
  predicate Locomotion(mode: Mode) {
    mode == Walk || mode == Dance || mode == Down || mode == Up
  }

  // ---------------------------------------------------------------------------
  // Runs of mode changes
  // ---------------------------------------------------------------------------

  datatype Control = Control(mode: Mode, started: bool)

  /** A mode handler may leave its mode for DEFAULT on a fault or a timeout, and a
      finished DANCE or UP goes back to WALK; it never changes `start_control`. */
  predicate HandlerMay(from: Mode, to: Mode) {
    || to == from
    || (Locomotion(from) && to == Default)
    || ((from == Dance || from == Up) && to == Walk)
  }

  function Requested(c: Control, r: Request): Control {
    var t := ApplyControlRequest(c.mode, c.started, r);
    Control(t.mode, t.startControl)
  }

  function FallenBack(c: Control): Control {
    var t := JoystickDisconnectFallback(c.mode, c.started);
    Control(t.mode, t.startControl)
  }

  const STOPPED: Control := Control(Default, false)

  datatype Cause = ByRequest(request: Request) | ByStop | ByJoystick | ByHandler

  ghost predicate Step(c: Control, cause: Cause, d: Control) {
    match cause
    case ByRequest(r) => d == Requested(c, r)
    case ByStop => d == STOPPED
    case ByJoystick => d == FallenBack(c)
    case ByHandler => d.started == c.started && HandlerMay(c.mode, d.mode)
  }

  ghost predicate Trace(trace: seq<Control>, causes: seq<Cause>) {
    && |trace| == |causes| + 1
    && forall k :: 0 <= k < |causes| ==> Step(trace[k], causes[k], trace[k + 1])
  }

  /** Control that has not been started is in DEFAULT or LIE. */
  predicate Safe(c: Control) {
    !c.started ==> c.mode == Default || c.mode == Lie
  }

  lemma StepKeepsSafe(c: Control, cause: Cause, d: Control)
    requires Safe(c) && Step(c, cause, d)
    ensures Safe(d)
  {
  }

  lemma {:induction false} TraceKeepsSafe(trace: seq<Control>, causes: seq<Cause>, i: nat, n: nat)
    requires Trace(trace, causes) && i <= n < |trace| && Safe(trace[i])
    ensures Safe(trace[n])
  {
    if i < n {
      TraceKeepsSafe(trace, causes, i, n - 1);
      StepKeepsSafe(trace[n - 1], causes[n - 1], trace[n]);
    }
  }

  /** Control becomes started only by an accepted START, which leads to LIE. */
  lemma {:induction false} StartedSince(trace: seq<Control>, causes: seq<Cause>, i: nat, n: nat) returns (a: nat)
    requires Trace(trace, causes) && i <= n < |trace| && !trace[i].started && trace[n].started
    ensures i < a <= n && causes[a - 1] == ByRequest(RequestStart)
    ensures !trace[a - 1].started && trace[a] == Control(Lie, true)
    ensures forall k :: a <= k <= n ==> trace[k].started
  {
    if trace[n - 1].started {
      a := StartedSince(trace, causes, i, n - 1);
    } else {
      a := n;
    }
  }

  /** STAND and everything beyond it can only be entered from LIE. */
  predicate Upright(mode: Mode) {
    mode == Stand || Locomotion(mode)
  }

  lemma {:induction false} StoodUpSince(trace: seq<Control>, causes: seq<Cause>, i: nat, n: nat) returns (b: nat)
    requires Trace(trace, causes) && i <= n < |trace| && !Upright(trace[i].mode) && Upright(trace[n].mode)
    ensures i < b <= n && trace[b - 1].mode == Lie && trace[b].mode == Stand
    ensures forall k :: b <= k <= n ==> Upright(trace[k].mode)
  {
    if Upright(trace[n - 1].mode) {
      b := StoodUpSince(trace, causes, i, n - 1);
    } else {
      b := n;
    }
  }

  lemma StepIntoLocomotion(c: Control, cause: Cause, d: Control)
    requires Step(c, cause, d) && !Locomotion(c.mode) && Locomotion(d.mode)
    ensures c.mode == Stand && d.mode == Walk
  {
  }

  /** Locomotion can only be entered from STAND, by way of WALK. */
  lemma {:induction false} WalkedSince(trace: seq<Control>, causes: seq<Cause>, i: nat, n: nat) returns (c: nat)
    requires Trace(trace, causes) && i <= n < |trace| && !Locomotion(trace[i].mode) && Locomotion(trace[n].mode)
    ensures i < c <= n && trace[c - 1].mode == Stand && trace[c].mode == Walk
    ensures forall k :: c <= k <= n ==> Locomotion(trace[k].mode)
  {
    if Locomotion(trace[n - 1].mode) {
      c := WalkedSince(trace, causes, i, n - 1);
    } else {
      assert i < n && Step(trace[n - 1], causes[n - 1], trace[n]);
      StepIntoLocomotion(trace[n - 1], causes[n - 1], trace[n]);
      c := n;
    }
  }

  /** From any state that is not started, however the modes change afterwards, the
      robot reaches WALK, DANCE, DOWN or UP only after an accepted START that put it
      in LIE, then STAND entered from LIE, then WALK entered from STAND, in that
      order, with control started ever since. */
  lemma LocomotionNeedsStartLieStandWalk(trace: seq<Control>, causes: seq<Cause>, i: nat, n: nat)
      returns (a: nat, b: nat, c: nat)
    requires Trace(trace, causes) && i <= n < |trace|
    requires !trace[i].started && Safe(trace[i]) && Locomotion(trace[n].mode)
    ensures i < a < b < c <= n
    ensures causes[a - 1] == ByRequest(RequestStart) && trace[a] == Control(Lie, true)
    ensures trace[b - 1].mode == Lie && trace[b].mode == Stand
    ensures trace[c - 1].mode == Stand && trace[c].mode == Walk
    ensures forall k :: a <= k <= n ==> trace[k].started
    ensures forall k :: c <= k <= n ==> Locomotion(trace[k].mode)
  {
    TraceKeepsSafe(trace, causes, i, n);
    a := StartedSince(trace, causes, i, n);
    c := WalkedSince(trace, causes, a, n);
    b := StoodUpSince(trace, causes, a, c - 1);
  }

  /** "Not started implies DEFAULT" is not an invariant: POSITION leaves DEFAULT for
      LIE without looking at `start_control`.  It is left exactly by that request. */
  lemma StoppedLeavesDefaultOnlyByPosition(cause: Cause, d: Control)
    requires Step(STOPPED, cause, d) && !d.started
    ensures d.mode != Default <==> cause == ByRequest(RequestPosition)
  {
  }

  // ---------------------------------------------------------------------------
  // The edges of the reducers
  // ---------------------------------------------------------------------------

  /** The transition diagram: START starts into LIE and stops from anywhere; between LIE
      and STAND control must have been started; WALK is left for a motion and a completed
      one for WALK; STAND is reached from every locomotion mode; and POSITION also leaves
      DEFAULT for LIE. */
  predicate Edge(c: Control, r: Request, d: Control) {
    || (r == RequestStart && !c.started && d == Control(Lie, true))
    || (r == RequestStart && c.started && d == Control(Default, false))
    || ((r == RequestSwitchMode || r == RequestLieToStand) && c == Control(Lie, true) && d == Control(Stand, true))
    || ((r == RequestSwitchMode || r == RequestStandToLie) && c == Control(Stand, true) && d == Control(Lie, true))
    || (r == RequestWalk && c.mode in {Stand, Dance, Down, Up} && d == Control(Walk, c.started))
    || (r == RequestWalkToStand && c.mode in {Walk, Dance, Down, Up} && d == Control(Stand, c.started))
    || (r == RequestPosition && c.mode in {Walk, Dance, Down, Up} && d == Control(Stand, c.started))
    || (r == RequestPosition && c.mode == Default && d == Control(Lie, c.started))
    || (r == RequestDance && c.mode == Walk && d == Control(Dance, c.started))
    || (r == RequestDown && c.mode == Walk && d == Control(Down, c.started))
    || (r == RequestUp && c.mode == Down && d == Control(Up, c.started))
  }

  /** A request is accepted exactly along an edge, and then follows it; otherwise nothing
      changes. */
  lemma RequestsFollowTheEdges(c: Control, r: Request)
    ensures ApplyControlRequest(c.mode, c.started, r).accepted <==> exists d :: Edge(c, r, d)
    ensures forall d :: Edge(c, r, d) ==> Requested(c, r) == d
    ensures (forall d :: !Edge(c, r, d)) ==> Requested(c, r) == c
  {
    var d := Requested(c, r);
    if ApplyControlRequest(c.mode, c.started, r).accepted { assert Edge(c, r, d); }
  }

  function EventOf(r: Request, from: Mode, to: Mode): Event {
    match to
    case Lie => if r == RequestStart then StartControl else if r == RequestPosition then DefaultToLie else StandToLie
    case Stand => if from == Lie then LieToStand else ToStand
    case Walk => (match from case Dance => DanceToWalk case Down => DownToWalk case Up => UpToWalk case _ => StandToWalk)
    case Dance => WalkToDance
    case Down => WalkToDown
    case Up => DownToUp
    case Default => ShutdownControl
  }

  /** Every accepted request reports the edge it follows. */
  lemma RequestsReportTheirEdge(mode: Mode, started: bool, r: Request)
    ensures var t := ApplyControlRequest(mode, started, r);
      t.event == if t.accepted then EventOf(r, mode, t.mode) else NoEvent
  {
    match r
    case RequestStart =>
    case RequestSwitchMode =>
    case RequestLieToStand =>
    case RequestStandToLie =>
    case RequestWalk =>
    case RequestWalkToStand =>
    case RequestDance =>
    case RequestDown =>
    case RequestUp =>
    case RequestPosition =>
    case RequestNone =>
  }

  /** What an accepted request asks for beside the mode: the interpolation restarts from
      the measured pose on the way into LIE and from LIE into STAND, the observation
      history in every locomotion mode, the motion in DANCE, DOWN and UP. */
  lemma RequestsAskExactly(mode: Mode, started: bool, r: Request)
    ensures var t := ApplyControlRequest(mode, started, r);
      && (t.resetStandTransition <==> t.accepted && (t.mode == Lie || (t.mode == Stand && mode == Lie)))
      && t.captureCurrentJointAngles == t.resetStandTransition
      && (t.resetObservation <==> t.accepted && t.mode in {Walk, Dance, Down, Up})
      && (t.resetDanceTime <==> t.accepted && t.mode in {Dance, Down, Up})
  {
  }

  /** A lost joystick ends a motion in WALK, leaves WALK alone, and stops everything
      else. */
  lemma FallbackExactly(c: Control)
    ensures FallenBack(c) == if c.mode in {Walk, Dance, Down, Up} then Control(Walk, c.started) else Control(Default, false)
    ensures var t := JoystickDisconnectFallback(c.mode, c.started);
      && t.accepted && t.event == JoystickDisconnected && (t.resetObservation <==> c.mode in {Dance, Down, Up})
      && !t.resetStandTransition && !t.captureCurrentJointAngles && !t.resetDanceTime
  {
  }

  /** A rejected request changes nothing and asks for nothing. */
  lemma RejectedHasNoSideEffect(mode: Mode, started: bool, r: Request)
    requires !ApplyControlRequest(mode, started, r).accepted
    ensures ApplyControlRequest(mode, started, r) == Rejected(mode, started)
  {
  }
}

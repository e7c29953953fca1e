/**
 The control thread's own part of `RLControllerBase::update`: stopping, request
 arbitration, the joystick fallback, and the DEFAULT command.

 The functions say what each part does to the thread's private state; the class
 does it in place, with every value it reads from a shared atomic passed in.
 */
module RLControllerBase {
  import opened Common
  import opened ControlStateMachine

  datatype JointCommand = JointCommand(position: Float, velocity: Float, kp: Float, kd: Float, feedforward: Float)

  /** `setCommand(0, 0, 0, 0.1, 0)`. */
  const DEFAULT_COMMAND: JointCommand := JointCommand(ZERO, ZERO, ZERO, Finite(0.1), ZERO)

  function DefaultCommands(n: nat): (r: seq<JointCommand>)
    ensures |r| == n
  {
    seq(n, _ => DEFAULT_COMMAND)
  }

  /** `mode_` and `start_control`, the command of every joint, and the time each
      request was last accepted (absent is the initial zero). */
  datatype Local = Local(control: Control, joints: seq<JointCommand>, accepted: map<Request, int>)

  predicate Stopped(l: Local) {
    l.control == STOPPED
  }

  /** No stiffness, no velocity, no torque, and a little damping. */
  predicate Limp(c: JointCommand) {
    && c.position == Finite(0.0) && c.velocity == Finite(0.0) && c.kp == Finite(0.0) && c.kd == Finite(0.1)
    && c.feedforward == Finite(0.0)
  }

  /** DEFAULT, not started, and every joint limp. */
  predicate Held(l: Local) {
    l.control == Control(Default, false) && forall k :: 0 <= k < |l.joints| ==> Limp(l.joints[k])
  }

  // ---------------------------------------------------------------------------
  // Arbitration of operator requests
  // ---------------------------------------------------------------------------

  datatype Candidate = Candidate(id: Request, debounceNs: int)

  /** Safer requests first. */
  const PRIORITY: seq<Candidate> := [
    Candidate(RequestStart, 500000000), Candidate(RequestStandToLie, 50000000),
    Candidate(RequestWalkToStand, 50000000), Candidate(RequestPosition, 200000000),
    Candidate(RequestSwitchMode, 800000000), Candidate(RequestLieToStand, 50000000),
    Candidate(RequestWalk, 200000000), Candidate(RequestDance, 200000000),
    Candidate(RequestDown, 200000000), Candidate(RequestUp, 200000000)]

  function LastAcceptedNs(accepted: map<Request, int>, r: Request): int {
    if r in accepted then accepted[r] else 0
  }

  /** `acceptControlRequest` says yes. */
  predicate Debounced(accepted: map<Request, int>, c: Candidate, nowNs: int) {
    LastAcceptedNs(accepted, c.id) == 0 || nowNs - LastAcceptedNs(accepted, c.id) > c.debounceNs
  }

  /** Pending, allowed and not within its debounce time; only UP can be disallowed. */
  predicate Eligible(pending: set<Request>, upAllowed: bool, accepted: map<Request, int>, c: Candidate, nowNs: int) {
    c.id in pending && (c.id == RequestUp ==> upAllowed) && Debounced(accepted, c, nowNs)
  }

  /** The request `processControlRequests` selects, `RequestNone` if there is none. */
  function Select(pending: set<Request>, upAllowed: bool, accepted: map<Request, int>, nowNs: int, from: nat): Request
    requires from <= |PRIORITY|
    decreases |PRIORITY| - from
  {
    if from == |PRIORITY| then RequestNone
    else if Eligible(pending, upAllowed, accepted, PRIORITY[from], nowNs) then PRIORITY[from].id
    else Select(pending, upAllowed, accepted, nowNs, from + 1)
  }

  lemma {:induction false} SelectedIsFirstEligible(
      pending: set<Request>, upAllowed: bool, accepted: map<Request, int>, nowNs: int, from: nat)
      returns (k: nat)
    requires from <= |PRIORITY|
    ensures from <= k <= |PRIORITY|
    ensures forall j :: from <= j < k ==> !Eligible(pending, upAllowed, accepted, PRIORITY[j], nowNs)
    ensures k < |PRIORITY| ==>
              && Eligible(pending, upAllowed, accepted, PRIORITY[k], nowNs)
              && Select(pending, upAllowed, accepted, nowNs, from) == PRIORITY[k].id
    ensures k == |PRIORITY| ==> Select(pending, upAllowed, accepted, nowNs, from) == RequestNone
    decreases |PRIORITY| - from
  {
    if from == |PRIORITY| || Eligible(pending, upAllowed, accepted, PRIORITY[from], nowNs) {
      k := from;
    } else {
      k := SelectedIsFirstEligible(pending, upAllowed, accepted, nowNs, from + 1);
    }
  }

  /** The order of safety: what stops or lowers the robot comes before what moves it. */
  function Order(r: Request): nat {
    match r
    case RequestStart => 0
    case RequestStandToLie => 1
    case RequestWalkToStand => 2
    case RequestPosition => 3
    case RequestSwitchMode => 4
    case RequestLieToStand => 5
    case RequestWalk => 6
    case RequestDance => 7
    case RequestDown => 8
    case RequestUp => 9
    case RequestNone => 10
  }

  /** The time two acceptances must be apart: half a second for START, which toggles, and
      0.8 seconds for the switch between LIE and STAND, which does as well. */
  function DebounceMs(r: Request): nat {
    match r
    case RequestStart => 500
    case RequestSwitchMode => 800
    case RequestStandToLie => 50
    case RequestWalkToStand => 50
    case RequestLieToStand => 50
    case _ => 200
  }

  /** Asked for, allowed, and never accepted or not within its debounce time. */
  predicate Due(pending: set<Request>, upAllowed: bool, accepted: map<Request, int>, nowNs: int, r: Request) {
    && r != RequestNone && r in pending && (r == RequestUp ==> upAllowed)
    && (r !in accepted || accepted[r] == 0 || nowNs - accepted[r] > DebounceMs(r) * 1000000)
  }

  lemma CandidatesAreOrdered(k: nat)
    requires k < |PRIORITY|
    ensures |PRIORITY| == 10 && Order(PRIORITY[k].id) == k && PRIORITY[k].id != RequestNone
    ensures PRIORITY[k].debounceNs == DebounceMs(PRIORITY[k].id) * 1000000
  {
  }

  lemma EveryRequestIsACandidate(r: Request)
    requires r != RequestNone
    ensures Order(r) < |PRIORITY| && PRIORITY[Order(r)].id == r
  {
  }

  lemma EligibleIsDue(pending: set<Request>, upAllowed: bool, accepted: map<Request, int>, nowNs: int, r: Request)
    requires r != RequestNone
    ensures Order(r) < |PRIORITY|
    ensures Eligible(pending, upAllowed, accepted, PRIORITY[Order(r)], nowNs) <==> Due(pending, upAllowed, accepted, nowNs, r)
  {
    EveryRequestIsACandidate(r);
    CandidatesAreOrdered(Order(r));
  }

  /** A request is selected exactly when it is due and none of a lower order is; none is
      selected exactly when none is due. */
  lemma SaferRequestsWin(pending: set<Request>, upAllowed: bool, accepted: map<Request, int>, nowNs: int, r: Request)
    ensures var selected := Select(pending, upAllowed, accepted, nowNs, 0);
      if r == RequestNone then selected == r <==> forall q :: !Due(pending, upAllowed, accepted, nowNs, q)
      else selected == r <==>
             && Due(pending, upAllowed, accepted, nowNs, r)
             && forall q :: Order(q) < Order(r) ==> !Due(pending, upAllowed, accepted, nowNs, q)
  {
    var k := SelectedIsFirstEligible(pending, upAllowed, accepted, nowNs, 0);
    forall q | Due(pending, upAllowed, accepted, nowNs, q) ensures k <= Order(q) {
      EligibleIsDue(pending, upAllowed, accepted, nowNs, q);
    }
    if k < |PRIORITY| {
      CandidatesAreOrdered(k);
      EligibleIsDue(pending, upAllowed, accepted, nowNs, PRIORITY[k].id);
    }
    if r != RequestNone { EveryRequestIsACandidate(r); }
  }

  /** `processControlRequests` after its shutdown test, for one mailbox snapshot. */
  function ProcessRequests(l: Local, pending: set<Request>, upAllowed: bool, nowNs: int): Local {
    var selected := Select(pending, upAllowed, l.accepted, nowNs, 0);
    l.(control := Requested(l.control, selected),
       accepted := if selected == RequestNone then l.accepted else l.accepted[selected := nowNs])
  }

  /** One mailbox snapshot with what the arbitration reads beside it. */
  datatype Snapshot = Snapshot(pending: set<Request>, upAllowed: bool, nowNs: int)

  function Chosen(l: Local, s: Snapshot): Request {
    Select(s.pending, s.upAllowed, l.accepted, s.nowNs, 0)
  }

  /** Snapshots processed at positive times that never decrease; between them the
      mode may change in any way. */
  ghost predicate RequestRun(states: seq<Local>, snapshots: seq<Snapshot>) {
    && |states| == |snapshots| + 1
    && (forall k :: 0 <= k < |snapshots| ==> snapshots[k].nowNs > 0)
    && (forall j, k :: 0 <= j < k < |snapshots| ==> snapshots[j].nowNs <= snapshots[k].nowNs)
    && (forall k :: 0 <= k < |snapshots| ==> Remembers(states[k], snapshots[k], states[k + 1]))
  }

  ghost predicate Remembers(l: Local, s: Snapshot, m: Local) {
    m.accepted == ProcessRequests(l, s.pending, s.upAllowed, s.nowNs).accepted
  }

  lemma {:induction false} LastAcceptanceRemembered(
      states: seq<Local>, snapshots: seq<Snapshot>, r: Request, j: nat, k: nat)
    requires RequestRun(states, snapshots) && j < k < |states|
    requires Chosen(states[j], snapshots[j]) == r && r != RequestNone
    ensures LastAcceptedNs(states[k].accepted, r) >= snapshots[j].nowNs
  {
    assert Remembers(states[k - 1], snapshots[k - 1], states[k]);
    if k > j + 1 {
      LastAcceptanceRemembered(states, snapshots, r, j, k - 1);
    }
  }

  /** Two acceptances of one request are further apart than its debounce time. */
  lemma AcceptancesAreDebounced(states: seq<Local>, snapshots: seq<Snapshot>, r: Request, j: nat, k: nat)
    requires RequestRun(states, snapshots) && j < k < |snapshots| && r != RequestNone
    requires Chosen(states[j], snapshots[j]) == r && Chosen(states[k], snapshots[k]) == r
    ensures snapshots[k].nowNs - snapshots[j].nowNs > DebounceMs(r) * 1000000
  {
    LastAcceptanceRemembered(states, snapshots, r, j, k);
    var s := snapshots[k];
    SaferRequestsWin(s.pending, s.upAllowed, states[k].accepted, s.nowNs, r);
  }

  // ---------------------------------------------------------------------------
  // The other parts of a cycle
  // ---------------------------------------------------------------------------

  function Stop(l: Local): Local {
    l.(control := STOPPED)
  }

  function Disconnect(l: Local): Local {
    l.(control := FallenBack(l.control))
  }

  function Hold(l: Local): Local {
    l.(joints := DefaultCommands(|l.joints|))
  }

  /** What the dispatched mode handler leaves behind. */
  datatype Effect = Effect(mode: Mode, joints: seq<JointCommand>)

  /** A handler that goes to DEFAULT, or is the DEFAULT handler, has written the
      DEFAULT command to every joint. */
  ghost predicate EffectAllowed(l: Local, e: Effect) {
    && HandlerMay(l.control.mode, e.mode) && |e.joints| == |l.joints|
    && (e.mode == Default ==> e.joints == DefaultCommands(|l.joints|))
  }

  function Dispatch(l: Local, e: Effect): Local {
    l.(control := l.control.(mode := e.mode), joints := e.joints)
  }

  /** What one `update` reads from the shared atomics, in program order, and the
      effect of the handler it dispatches to. */
  datatype Readings = Readings(
    nowNs: int, latched: bool, shutdown: bool, shutdownAgain: bool, pending: set<Request>, upAllowed: bool,
    disconnected: bool, effect: Effect, latchedLate: bool, shutdownLate: bool, disconnectedLate: bool)

  function AfterRequests(l: Local, r: Readings): Local {
    if r.latched || r.shutdown || r.shutdownAgain then Stop(l)
    else ProcessRequests(l, r.pending, r.upAllowed, r.nowNs)
  }

  function BeforeDispatch(l: Local, r: Readings): Local {
    var m := AfterRequests(l, r);
    if r.disconnected then Disconnect(m) else m
  }

  function Cycle(l: Local, r: Readings): Local {
    var m := Dispatch(BeforeDispatch(l, r), r.effect);
    if r.latchedLate || r.shutdownLate then Hold(Stop(m))
    else if !r.disconnected && r.disconnectedLate then Hold(Disconnect(m))
    else m
  }

  /** A cycle that reads a latched emergency stop, or consumes a shutdown, at any of
      its tests ends stopped with the DEFAULT command on every joint, whatever the
      requests and the handler did. */
  lemma CycleStops(l: Local, r: Readings)
    requires EffectAllowed(BeforeDispatch(l, r), r.effect)
    ensures r.latched || r.shutdown || r.shutdownAgain || r.latchedLate || r.shutdownLate ==> Held(Cycle(l, r))
    ensures |Cycle(l, r).joints| == |l.joints|
  {
  }

  lemma RequestsKeepSafe(l: Local, r: Readings)
    requires Safe(l.control)
    ensures Safe(AfterRequests(l, r).control)
  {
  }

  /** The operator's stop: a START that is due in a started cycle ends it stopped with
      every joint limp, whatever else is pending and whatever the handler and the joystick
      do; in one that is not started it is START that is accepted, into LIE. */
  lemma StartStopsAStartedCycle(l: Local, r: Readings)
    requires EffectAllowed(BeforeDispatch(l, r), r.effect)
    requires Due(r.pending, r.upAllowed, l.accepted, r.nowNs, RequestStart)
    ensures l.control.started ==> Held(Cycle(l, r))
    ensures !l.control.started && !StopsIn(r) && !r.disconnected ==> BeforeDispatch(l, r).control == Control(Lie, true)
  {
    SaferRequestsWin(r.pending, r.upAllowed, l.accepted, r.nowNs, RequestStart);
    RequestsFollowTheEdges(l.control, RequestStart);
    assert Edge(l.control, RequestStart, if l.control.started then Control(Default, false) else Control(Lie, true));
    FallbackExactly(Control(Default, false));
    if l.control.started { assert BeforeDispatch(l, r).control == Control(Default, false); }
  }

  predicate StopsIn(r: Readings) {
    r.latched || r.shutdown || r.shutdownAgain
  }

  /** Every cycle keeps "not started means DEFAULT or LIE". */
  lemma CycleKeepsSafe(l: Local, r: Readings)
    requires EffectAllowed(BeforeDispatch(l, r), r.effect) && Safe(l.control)
    ensures Safe(Cycle(l, r).control)
  {
    RequestsKeepSafe(l, r);
    assert Safe(BeforeDispatch(l, r).control);
  }

  class Controller {
    var mode: Mode
    var startControl: bool
    const joints: array<JointCommand>
    var requestLastAccepted: map<Request, int>

    ghost function Value(): Local
      reads this, joints
    {
      Local(Control(mode, startControl), joints[..], requestLastAccepted)
    }

    constructor (dof: nat)
      ensures fresh(joints) && joints.Length == dof && Held(Value()) && requestLastAccepted == map[]
    {
      mode, startControl, requestLastAccepted := Default, false, map[];
      joints := new JointCommand[dof](_ => DEFAULT_COMMAND);
      new;
      assert joints[..] == DefaultCommands(dof);
    }

    method HandleDefaultMode()
      modifies joints
      ensures Value() == Hold(old(Value()))
    {
      for i := 0 to joints.Length
        invariant forall k :: 0 <= k < i ==> joints[k] == DEFAULT_COMMAND
      {
        joints[i] := DEFAULT_COMMAND;
      }
      assert joints[..] == DefaultCommands(joints.Length);
    }

    method ApplyImmediateStop()
      modifies this
      ensures Value() == Stop(old(Value()))
    {
      startControl, mode := false, Default;
    }

    method ApplyJoystickDisconnect()
      modifies this
      ensures Value() == Disconnect(old(Value()))
    {
      var fallback := JoystickDisconnectFallback(mode, startControl);
      mode, startControl := fallback.mode, fallback.startControl;
    }

    method ProcessControlRequests(pending: set<Request>, upAllowed: bool, nowNs: int)
      modifies this
      ensures Value() == ProcessRequests(old(Value()), pending, upAllowed, nowNs)
    {
      var selected := RequestNone;
      var i := 0;
      while i < |PRIORITY| && selected == RequestNone
        invariant i <= |PRIORITY|
        invariant mode == old(mode) && startControl == old(startControl)
        invariant selected == RequestNone ==>
                    && requestLastAccepted == old(requestLastAccepted)
                    && Select(pending, upAllowed, old(requestLastAccepted), nowNs, 0)
                       == Select(pending, upAllowed, old(requestLastAccepted), nowNs, i)
        invariant selected != RequestNone ==>
                    && requestLastAccepted == old(requestLastAccepted)[selected := nowNs]
                    && Select(pending, upAllowed, old(requestLastAccepted), nowNs, 0) == selected
      {
        var candidate := PRIORITY[i];
        if Eligible(pending, upAllowed, requestLastAccepted, candidate, nowNs) {
          requestLastAccepted := requestLastAccepted[candidate.id := nowNs];
          selected := candidate.id;
        }
        i := i + 1;
      }
      var transition := ApplyControlRequest(mode, startControl, selected);
      if transition.accepted {
        startControl, mode := transition.startControl, transition.mode;
      }
    }

    /** The dispatched handler, known by its effect. */
    method RunHandler(effect: Effect)
      requires |effect.joints| == joints.Length
      modifies this, joints
      ensures Value() == Dispatch(old(Value()), effect)
    {
      mode := effect.mode;
      for i := 0 to joints.Length
        invariant mode == effect.mode && startControl == old(startControl)
        invariant requestLastAccepted == old(requestLastAccepted)
        invariant forall k :: 0 <= k < i ==> joints[k] == effect.joints[k]
      {
        joints[i] := effect.joints[i];
      }
      assert joints[..] == effect.joints;
    }

    method Update(r: Readings)
      requires |r.effect.joints| == joints.Length
      requires EffectAllowed(BeforeDispatch(Value(), r), r.effect)
      modifies this, joints
      ensures Value() == Cycle(old(Value()), r)
      ensures r.latched || r.shutdown || r.shutdownAgain || r.latchedLate || r.shutdownLate ==> Held(Value())
    {
      CycleStops(Value(), r);
      if r.latched {
        ApplyImmediateStop();
      } else if r.shutdown {
        ApplyImmediateStop();
      } else if r.shutdownAgain {
        ApplyImmediateStop();
      } else {
        ProcessControlRequests(r.pending, r.upAllowed, r.nowNs);
      }
      if r.disconnected { ApplyJoystickDisconnect(); }
      RunHandler(r.effect);
      if r.latchedLate || r.shutdownLate {
        ApplyImmediateStop();
        HandleDefaultMode();
      } else if !r.disconnected && r.disconnectedLate {
        ApplyJoystickDisconnect();
        HandleDefaultMode();
      }
    }
  }
}

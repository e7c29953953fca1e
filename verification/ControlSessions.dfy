/**
 Whole control cycles: the cycle of `RLControllerBase::update` with the mode handlers
 of `AcController` in it, the session they share, and the stops that end it; and what
 holds over every run of them.
 */
module ControlSessions {
  import opened Common
  import opened PolicySession
  import opened ControlStateMachine
  import opened RLControllerBase
  import opened PolicyHandlers
  import opened PolicyHandlersSafety
  import opened PolicyTransitions

  datatype Whole = Whole(policy: State, started: bool, accepted: map<Request, int>)

  /** What one cycle reads at its tests, what its handler reads, and the posture of a
      LIE or STAND handler. */
  datatype Tests = Tests(
    nowNs: int, latched: bool, shutdown: bool, shutdownAgain: bool, pending: set<Request>, disconnected: bool,
    latchedLate: bool, shutdownLate: bool, disconnectedLate: bool, inputs: Inputs, posture: seq<JointCommand>)

  function LocalOf(w: Whole): Local {
    Local(Control(w.policy.mode, w.started), w.policy.joints, w.accepted)
  }

  /** The readings of the cycle: UP is allowed exactly in a DOWN that only holds. */
  function ReadingsOf(w: Whole, t: Tests, e: Effect): Readings {
    Readings(t.nowNs, t.latched, t.shutdown, t.shutdownAgain, t.pending, Holding(w.policy), t.disconnected, e,
             t.latchedLate, t.shutdownLate, t.disconnectedLate)
  }

  function WithControl(w: Whole, c: Control): Whole {
    w.(policy := w.policy.(mode := c.mode), started := c.started)
  }

  /** Up to the dispatch. */
  function BeforeHandler(w: Whole, t: Tests): Whole {
    var l := BeforeDispatch(LocalOf(w), ReadingsOf(w, t, Effect(w.policy.mode, w.policy.joints)));
    WithControl(w, l.control).(accepted := l.accepted)
  }

  function Handled(p: Policies, w: Whole, t: Tests): (State, Outcome)
    requires p.Valid() && Sized(p.walk, w.policy)
  {
    Dispatched(p, BeforeHandler(w, t).policy, t.inputs, t.posture)
  }

  predicate LateStop(t: Tests) {
    t.latchedLate || t.shutdownLate
  }

  predicate LateDisconnect(t: Tests) {
    !LateStop(t) && !t.disconnected && t.disconnectedLate
  }

  /** One `update`; the late tests run the DEFAULT handler, which leaves the policy. */
  function WholeCycle(p: Policies, w: Whole, t: Tests): Whole
    requires p.Valid() && Sized(p.walk, w.policy)
  {
    var b := BeforeHandler(w, t).(policy := Handled(p, w, t).0);
    if LateStop(t) then
      var s := WithControl(b, STOPPED);
      s.(policy := DefaultCycle(s.policy))
    else if LateDisconnect(t) then
      var s := WithControl(b, FallenBack(Control(b.policy.mode, b.started)));
      s.(policy := DefaultCycle(s.policy))
    else b
  }

  /** `stopping` followed by `starting`; the times of accepted requests stay as well. */
  function Restarted(w: Whole): Whole {
    w.(policy := Started(StoppedRunning(w.policy)), started := false)
  }

  /** Nothing that ran before the restart keeps running: no policy, no damping, and a
      later epoch than every answer still under way. */
  lemma RestartsBeginAnew(w: Whole)
    ensures var v := Restarted(w);
      && !v.started && v.policy.mode == Default && v.accepted == w.accepted
      && v.policy.session.activePolicy == NONE && v.policy.session.epoch > w.policy.session.epoch
  {
  }

  datatype Move = Update(tests: Tests) | Restart

  function After(p: Policies, w: Whole, e: Move): Whole
    requires p.Valid() && Sized(p.walk, w.policy)
  {
    match e
    case Update(t) => WholeCycle(p, w, t)
    case Restart => Restarted(w)
  }

  /** The first `starting`. */
  ghost predicate Initial(p: Policies, w: Whole)
    requires p.Valid()
  {
    && Sized(p.walk, w.policy) && w.policy.mode == Default && !w.started
    && w.policy.session.activePolicy == NONE && !w.policy.damping
  }

  ghost predicate Fits(p: Policies, e: Move) {
    e.Update? ==> |e.tests.posture| == p.Dof()
  }

  ghost predicate Link(p: Policies, ws: seq<Whole>, es: seq<Move>, k: nat)
    requires p.Valid() && k < |es| && k + 1 < |ws|
  {
    Sized(p.walk, ws[k].policy) && Fits(p, es[k]) && ws[k + 1] == After(p, ws[k], es[k])
  }

  ghost predicate Run(p: Policies, ws: seq<Whole>, es: seq<Move>) {
    && p.Valid() && |ws| == |es| + 1 && Initial(p, ws[0])
    && forall k :: 0 <= k < |es| ==> Link(p, ws, es, k)
  }

  // ---------------------------------------------------------------------------
  // The cycle of the base class
  // ---------------------------------------------------------------------------

  lemma BeforeHandlerIsLocal(w: Whole, t: Tests, e: Effect)
    ensures LocalOf(BeforeHandler(w, t)) == BeforeDispatch(LocalOf(w), ReadingsOf(w, t, e))
    ensures BeforeHandler(w, t).policy == w.policy.(mode := BeforeHandler(w, t).policy.mode)
  {
  }

  /** A whole cycle is the cycle of the base class on the same readings, with the
      handler's effect and its answer about UP filled in; and that effect is one the
      theorems about the base cycle allow. */
  lemma WholeCycleIsCycle(p: Policies, w: Whole, t: Tests)
    requires p.Valid() && Sized(p.walk, w.policy) && |t.posture| == p.Dof()
    ensures var s := Handled(p, w, t).0;
      var r := ReadingsOf(w, t, Effect(s.mode, s.joints));
      EffectAllowed(BeforeDispatch(LocalOf(w), r), r.effect) && LocalOf(WholeCycle(p, w, t)) == Cycle(LocalOf(w), r)
  {
    var b, s := BeforeHandler(w, t), Handled(p, w, t).0;
    BeforeHandlerIsLocal(w, t, Effect(s.mode, s.joints));
    HandlersKeepTheContract(p, b.policy, t.inputs, t.posture, b.started, b.accepted);
  }

  // ---------------------------------------------------------------------------
  // The invariant between cycles
  // ---------------------------------------------------------------------------

  /** Which policy may be active in which mode. */
  predicate Matches(s: State) {
    match s.mode
    case Walk => s.session.activePolicy == NONE || s.session.activePolicy == WALK
    case Dance => s.session.activePolicy == DANCE
    case Down => s.session.activePolicy == DOWN || (s.session.activePolicy == NONE && s.damping)
    case Up => s.session.activePolicy == UP
    case _ => s.session.activePolicy == NONE
  }

  ghost predicate Between(p: Policies, w: Whole)
    requires p.Valid()
  {
    Sized(p.walk, w.policy) && Matches(w.policy) && (w.policy.session.activePolicy == DOWN ==> !w.policy.damping)
  }

  /** What the dispatch of a whole cycle does. */
  lemma CycleHandler(p: Policies, w: Whole, t: Tests)
    requires p.Valid() && Sized(p.walk, w.policy) && |t.posture| == p.Dof()
    ensures var b := BeforeHandler(w, t).policy; b == w.policy.(mode := b.mode) && Sized(p.walk, b)
    ensures DispatchEnds(BeforeHandler(w, t).policy, Handled(p, w, t).0, Handled(p, w, t).1)
  {
    BeforeHandlerIsLocal(w, t, Effect(w.policy.mode, w.policy.joints));
    HandlersEnd(p, BeforeHandler(w, t).policy, t.inputs, t.posture);
  }

  lemma EndsMatch(s: State, t: State, outcome: Outcome)
    requires DispatchEnds(s, t, outcome) && (s.session.activePolicy == DOWN ==> !s.damping)
    ensures Matches(t) && (t.session.activePolicy == DOWN ==> !t.damping)
  {
  }

  lemma CycleKeepsBetween(p: Policies, w: Whole, t: Tests)
    requires p.Valid() && Between(p, w) && |t.posture| == p.Dof()
    ensures Between(p, WholeCycle(p, w, t))
  {
    CycleHandler(p, w, t);
    EndsMatch(BeforeHandler(w, t).policy, Handled(p, w, t).0, Handled(p, w, t).1);
    if LateStop(t) || LateDisconnect(t) {
      LateEndKeepsBetween(p, w, t);
    } else {
      assert WholeCycle(p, w, t).policy == Handled(p, w, t).0;
    }
  }

  lemma LateEndKeepsBetween(p: Policies, w: Whole, t: Tests)
    requires p.Valid() && Sized(p.walk, w.policy) && (LateStop(t) || LateDisconnect(t))
    requires Sized(p.walk, Handled(p, w, t).0)
    ensures Between(p, WholeCycle(p, w, t))
  {
    var s, v := Handled(p, w, t).0, WholeCycle(p, w, t).policy;
    assert v.session == Leave(s.session) && v.session.activePolicy == NONE;
    assert v.mode == Walk || v.mode == Default;
  }

  lemma MoveKeepsBetween(p: Policies, w: Whole, e: Move)
    requires p.Valid() && Between(p, w) && Fits(p, e)
    ensures Between(p, After(p, w, e))
  {
    if e.Update? { CycleKeepsBetween(p, w, e.tests); }
  }

  lemma InitialIsBetween(p: Policies, w: Whole)
    requires p.Valid() && Initial(p, w)
    ensures Between(p, w)
  {
  }

  lemma {:induction false} RunKeepsBetween(p: Policies, ws: seq<Whole>, es: seq<Move>, n: nat)
    requires Run(p, ws, es) && n < |ws|
    ensures Between(p, ws[n])
  {
    if n == 0 {
      InitialIsBetween(p, ws[0]);
    } else {
      RunKeepsBetween(p, ws, es, n - 1);
      assert Link(p, ws, es, n - 1);
      MoveKeepsBetween(p, ws[n - 1], es[n - 1]);
    }
  }
}

/**
 What holds over every run of whole control cycles: where WALK may be without a policy,
 when a DOWN request does not run DOWN's policy, what UP presupposes, and why an answer
 never outlives the policy it was computed for.
 */
module ControlSessionRuns {
  import opened Common
  import opened PolicySession
  import opened ControlStateMachine
  import opened RLControllerBase
  import opened PolicyHandlers
  import opened PolicyHandlersSafety
  import opened PolicyTransitions
  import opened ControlSessions

  /** Event `k` is a cycle whose handler completes a motion. */
  predicate Completed(p: Policies, ws: seq<Whole>, es: seq<Move>, k: nat)
    requires p.Valid() && k < |es| && k < |ws|
  {
    es[k].Update? && Sized(p.walk, ws[k].policy) && Handled(p, ws[k], es[k].tests).1 == Completes
  }

  /** The motion of DANCE or UP, which hands over to WALK. */
  predicate CompletedIntoWalk(p: Policies, ws: seq<Whole>, es: seq<Move>, k: nat)
    requires p.Valid() && k < |es| && k < |ws|
  {
    Completed(p, ws, es, k) && BeforeHandler(ws[k], es[k].tests).policy.mode != Down
  }

  predicate DownCompleted(p: Policies, ws: seq<Whole>, es: seq<Move>, k: nat)
    requires p.Valid() && k < |es| && k < |ws|
  {
    Completed(p, ws, es, k) && BeforeHandler(ws[k], es[k].tests).policy.mode == Down
  }

  /** Event `k` is a cycle whose handler enters DOWN's policy. */
  predicate DownEntered(ws: seq<Whole>, es: seq<Move>, k: nat)
    requires k < |es| && k < |ws|
  {
    && es[k].Update?
    && var s := BeforeHandler(ws[k], es[k].tests).policy;
    && s.mode == Down && s.session.activePolicy != DOWN && !Holding(s)
  }

  predicate Disconnects(es: seq<Move>, k: nat)
    requires k < |es|
  {
    es[k].Update? && LateDisconnect(es[k].tests)
  }

  /** One event of a run. */
  lemma RunStep(p: Policies, ws: seq<Whole>, es: seq<Move>, n: nat)
    requires Run(p, ws, es) && n < |es|
    ensures Between(p, ws[n]) && Fits(p, es[n]) && ws[n + 1] == After(p, ws[n], es[n])
  {
    RunKeepsBetween(p, ws, es, n);
    assert Link(p, ws, es, n);
  }

  // ---------------------------------------------------------------------------
  // WALK without a policy
  // ---------------------------------------------------------------------------

  lemma WalkAfterCycle(p: Policies, w: Whole, t: Tests)
    requires p.Valid() && Between(p, w) && |t.posture| == p.Dof()
    requires WholeCycle(p, w, t).policy.mode == Walk
    ensures WholeCycle(p, w, t).policy.session.activePolicy == NONE <==>
      (Handled(p, w, t).1 == Completes && BeforeHandler(w, t).policy.mode != Down) || LateDisconnect(t)
  {
    CycleHandler(p, w, t);
  }

  /** Event `k` leaves WALK, if it leaves the mode there, without a policy. */
  predicate LeavesNoPolicy(p: Policies, ws: seq<Whole>, es: seq<Move>, k: nat)
    requires p.Valid() && k < |es| && k < |ws|
  {
    CompletedIntoWalk(p, ws, es, k) || Disconnects(es, k)
  }

  lemma WalkAfterMove(p: Policies, ws: seq<Whole>, es: seq<Move>, k: nat)
    requires p.Valid() && k < |es| && k < |ws| && Between(p, ws[k]) && Fits(p, es[k])
    requires After(p, ws[k], es[k]).policy.mode == Walk
    ensures After(p, ws[k], es[k]).policy.session.activePolicy == NONE <==> LeavesNoPolicy(p, ws, es, k)
  {
    if es[k].Update? { WalkAfterCycle(p, ws[k], es[k].tests); }
  }

  lemma WalkStep(p: Policies, ws: seq<Whole>, es: seq<Move>, n: nat)
    requires Run(p, ws, es) && n < |es| && ws[n + 1].policy.mode == Walk
    ensures ws[n + 1].policy.session.activePolicy == NONE <==> LeavesNoPolicy(p, ws, es, n)
  {
    RunStep(p, ws, es, n);
    WalkAfterMove(p, ws, es, n);
  }

  /** Over every run, WALK finds no policy active at the request test of a cycle exactly
      when the event before it was a cycle that completed DANCE or UP, or that lost the
      joystick after its handler: the DEFAULT command of that late test leaves the
      policy, while the fallback keeps or chooses WALK. */
  lemma WalkWithoutPolicyExactly(p: Policies, ws: seq<Whole>, es: seq<Move>, n: nat)
    requires Run(p, ws, es) && n < |ws| && ws[n].policy.mode == Walk
    ensures 0 < n && (ws[n].policy.session.activePolicy == NONE <==> LeavesNoPolicy(p, ws, es, n - 1))
  {
    if n > 0 { WalkStep(p, ws, es, n - 1); }
  }

  // ---------------------------------------------------------------------------
  // DOWN's mark
  // ---------------------------------------------------------------------------

  lemma MarkAfterCycle(p: Policies, w: Whole, t: Tests)
    requires p.Valid() && Between(p, w) && |t.posture| == p.Dof()
    ensures var s := BeforeHandler(w, t).policy;
      WholeCycle(p, w, t).policy.damping <==>
        || (Handled(p, w, t).1 == Completes && s.mode == Down)
        || (w.policy.damping && !(s.mode == Down && s.session.activePolicy != DOWN && !Holding(s)))
  {
    CycleHandler(p, w, t);
  }

  lemma MarkStep(p: Policies, ws: seq<Whole>, es: seq<Move>, n: nat)
    requires p.Valid() && n < |es| && n < |ws| && Between(p, ws[n]) && Fits(p, es[n])
    ensures After(p, ws[n], es[n]).policy.damping <==>
      DownCompleted(p, ws, es, n) || (ws[n].policy.damping && !DownEntered(ws, es, n))
  {
    if es[n].Update? { MarkAfterCycle(p, ws[n], es[n].tests); }
  }

  /** Which events complete DOWN, and which enter it. */
  function DownCompletions(p: Policies, ws: seq<Whole>, es: seq<Move>): (r: seq<bool>)
    requires p.Valid() && |ws| == |es| + 1
    ensures |r| == |es|
  {
    seq(|es|, k requires 0 <= k < |es| => DownCompleted(p, ws, es, k))
  }

  function DownEntries(ws: seq<Whole>, es: seq<Move>): (r: seq<bool>)
    requires |ws| == |es| + 1
    ensures |r| == |es|
  {
    seq(|es|, k requires 0 <= k < |es| => DownEntered(ws, es, k))
  }

  /** Event `j` completed and none since has entered, before `n`. */
  predicate RestsSince(completed: seq<bool>, entered: seq<bool>, j: nat, n: nat)
    requires n <= |completed| == |entered|
  {
    j < n && completed[j] && forall k :: j < k < n ==> !entered[k]
  }

  ghost predicate Rests(completed: seq<bool>, entered: seq<bool>, n: nat)
    requires n <= |completed| == |entered|
  {
    exists j: nat :: RestsSince(completed, entered, j, n)
  }

  /** An earlier DOWN has completed, and DOWN has not been entered again since. */
  ghost predicate DownRests(p: Policies, ws: seq<Whole>, es: seq<Move>, n: nat)
    requires p.Valid() && n <= |es| && |ws| == |es| + 1
  {
    Rests(DownCompletions(p, ws, es), DownEntries(ws, es), n)
  }

  lemma RestStep(completed: seq<bool>, entered: seq<bool>, n: nat)
    requires n < |completed| == |entered|
    ensures Rests(completed, entered, n + 1) <==> completed[n] || (Rests(completed, entered, n) && !entered[n])
  {
    if completed[n] {
      assert RestsSince(completed, entered, n, n + 1);
    } else {
      if Rests(completed, entered, n) && !entered[n] {
        var j: nat :| RestsSince(completed, entered, j, n);
        assert RestsSince(completed, entered, j, n + 1);
      }
      if Rests(completed, entered, n + 1) {
        var j: nat :| RestsSince(completed, entered, j, n + 1);
        assert RestsSince(completed, entered, j, n);
      }
    }
  }

  lemma InitialMark(p: Policies, ws: seq<Whole>, es: seq<Move>)
    requires Run(p, ws, es)
    ensures !ws[0].policy.damping && !DownRests(p, ws, es, 0)
  {
  }

  lemma MarkKeepsHistory(p: Policies, ws: seq<Whole>, es: seq<Move>, n: nat)
    requires Run(p, ws, es) && n < |es| && (ws[n].policy.damping <==> DownRests(p, ws, es, n))
    ensures ws[n + 1].policy.damping <==> DownRests(p, ws, es, n + 1)
  {
    RunStep(p, ws, es, n);
    MarkStep(p, ws, es, n);
    var completed, entered := DownCompletions(p, ws, es), DownEntries(ws, es);
    assert completed[n] == DownCompleted(p, ws, es, n) && entered[n] == DownEntered(ws, es, n);
    RestStep(completed, entered, n);
  }

  /** The mark is a function of the history: it is set exactly while an earlier DOWN has
      completed and has not been entered again, whatever has happened in between. */
  lemma {:induction false} MarkIsHistory(p: Policies, ws: seq<Whole>, es: seq<Move>, n: nat)
    requires Run(p, ws, es) && n <= |es|
    ensures ws[n].policy.damping <==> DownRests(p, ws, es, n)
  {
    if n == 0 {
      InitialMark(p, ws, es);
    } else {
      MarkIsHistory(p, ws, es, n - 1);
      MarkKeepsHistory(p, ws, es, n - 1);
    }
  }

  /** A comment in `DownMode.cpp` says that a DOWN request finds WALK's policy active,
      and so always runs DOWN's. A request accepted in WALK instead only holds, and
      starts no policy, exactly when both marks of the history are there: the cycle
      before left WALK without a policy, and an earlier DOWN completed and has not been
      entered since. */
  lemma DownRequestHoldsExactly(p: Policies, ws: seq<Whole>, es: seq<Move>, n: nat)
    requires Run(p, ws, es) && n < |es| && es[n].Update?
    requires ws[n].policy.mode == Walk && BeforeHandler(ws[n], es[n].tests).policy.mode == Down
    ensures 0 < n && Sized(p.walk, ws[n].policy)
    ensures Handled(p, ws[n], es[n].tests).1 == Holds <==>
      LeavesNoPolicy(p, ws, es, n - 1) && DownRests(p, ws, es, n)
    ensures if Handled(p, ws[n], es[n].tests).1 == Holds
            then Handled(p, ws[n], es[n].tests).0.session == ws[n].policy.session
            else DownEntered(ws, es, n)
  {
    WalkWithoutPolicyExactly(p, ws, es, n);
    MarkIsHistory(p, ws, es, n);
    RunStep(p, ws, es, n);
    DownFromWalk(p, ws[n], es[n].tests);
  }

  lemma DownFromWalk(p: Policies, w: Whole, t: Tests)
    requires p.Valid() && Between(p, w) && |t.posture| == p.Dof()
    requires w.policy.mode == Walk && BeforeHandler(w, t).policy.mode == Down
    ensures var s := BeforeHandler(w, t).policy;
      && (Handled(p, w, t).1 == Holds <==> w.policy.session.activePolicy == NONE && w.policy.damping)
      && (Handled(p, w, t).1 == Holds ==> Handled(p, w, t).0.session == w.policy.session)
      && (Handled(p, w, t).1 != Holds ==> s.session.activePolicy != DOWN && !Holding(s))
  {
    CycleHandler(p, w, t);
  }

  // ---------------------------------------------------------------------------
  // UP presupposes a completed DOWN
  // ---------------------------------------------------------------------------

  lemma OnlyUpLeadsToUp(c: Control, r: Request)
    requires c.mode != Up
    ensures (Requested(c, r).mode == Up ==> r == RequestUp) && FallenBack(c).mode != Up
  {
  }

  lemma SelectedUpIsAllowed(pending: set<Request>, upAllowed: bool, accepted: map<Request, int>, nowNs: int)
    requires Select(pending, upAllowed, accepted, nowNs, 0) == RequestUp
    ensures upAllowed && RequestUp in pending
  {
    var k := SelectedIsFirstEligible(pending, upAllowed, accepted, nowNs, 0);
  }

  lemma UpWasAllowed(l: Local, r: Readings)
    requires BeforeDispatch(l, r).control.mode == Up && l.control.mode != Up
    ensures r.upAllowed && RequestUp in r.pending
  {
    var selected := Select(r.pending, r.upAllowed, l.accepted, r.nowNs, 0);
    OnlyUpLeadsToUp(l.control, selected);
    var m := AfterRequests(l, r);
    if m.control.mode != Up {
      OnlyUpLeadsToUp(m.control, selected);
    } else {
      assert m.control == Requested(l.control, selected);
      SelectedUpIsAllowed(r.pending, r.upAllowed, l.accepted, r.nowNs);
    }
  }

  lemma UpAfterCycle(p: Policies, w: Whole, t: Tests)
    requires p.Valid() && Between(p, w) && |t.posture| == p.Dof()
    requires WholeCycle(p, w, t).policy.mode == Up && w.policy.mode != Up
    ensures Holding(w.policy) && RequestUp in t.pending
  {
    CycleHandler(p, w, t);
    assert BeforeHandler(w, t).policy.mode == Up;
    UpWasAllowed(LocalOf(w), ReadingsOf(w, t, Effect(w.policy.mode, w.policy.joints)));
  }

  /** UP is entered only from a DOWN that holds after its completion: the cycle that
      enters it finds DOWN resting, so a run into UP has completed a DOWN before. */
  lemma UpNeedsACompletedDown(p: Policies, ws: seq<Whole>, es: seq<Move>, n: nat)
    requires Run(p, ws, es) && n < |es| && ws[n + 1].policy.mode == Up && ws[n].policy.mode != Up
    ensures Holding(ws[n].policy) && DownRests(p, ws, es, n)
  {
    RunStep(p, ws, es, n);
    MarkIsHistory(p, ws, es, n);
    if es[n].Update? { UpAfterCycle(p, ws[n], es[n].tests); }
  }

  // ---------------------------------------------------------------------------
  // No answer outlives its policy
  // ---------------------------------------------------------------------------

  /** The epoch never goes back, and a change of the active policy moves it on. */
  lemma EpochAfterMove(p: Policies, w: Whole, e: Move)
    requires p.Valid() && Between(p, w) && Fits(p, e)
    ensures var v := After(p, w, e);
      && v.policy.session.epoch >= w.policy.session.epoch
      && (v.policy.session.activePolicy != w.policy.session.activePolicy ==> v.policy.session.epoch > w.policy.session.epoch)
  {
    if e.Update? { CycleHandler(p, w, e.tests); }
  }

  lemma {:induction false} EpochsGrow(p: Policies, ws: seq<Whole>, es: seq<Move>, m: nat, n: nat)
    requires Run(p, ws, es) && m <= n < |ws|
    ensures ws[m].policy.session.epoch <= ws[n].policy.session.epoch
    ensures ws[m].policy.session.activePolicy != ws[n].policy.session.activePolicy ==>
      ws[m].policy.session.epoch < ws[n].policy.session.epoch
    decreases n
  {
    if m < n {
      EpochsGrow(p, ws, es, m, n - 1);
      RunStep(p, ws, es, n - 1);
      EpochAfterMove(p, ws[n - 1], es[n - 1]);
    }
  }

  /** A cycle that ends in DEFAULT, LIE or STAND, by a stop, a fault, a request or a lost
      joystick, and a restart as well, ends with no policy active; and if one was active
      at any time before, the epoch has moved on since. */
  lemma StopsLeaveThePolicy(p: Policies, ws: seq<Whole>, es: seq<Move>, m: nat, n: nat)
    requires Run(p, ws, es) && m <= n < |ws| && !Locomotion(ws[n].policy.mode)
    ensures ws[n].policy.session.activePolicy == NONE
    ensures ws[m].policy.session.activePolicy != NONE ==> ws[m].policy.session.epoch < ws[n].policy.session.epoch
  {
    RunKeepsBetween(p, ws, es, n);
    EpochsGrow(p, ws, es, m, n);
  }

  /** The session in which the handler of cycle `t` looks at an answer for `kind`. */
  function SessionAtAnswer(p: Policies, w: Whole, t: Tests, kind: PolicyKind): Session
    requires kind != NONE
  {
    AtAnswer(ConfigOf(p, kind), BeforeHandler(w, t).policy, t.inputs).session
  }

  lemma AnswerEpoch(p: Policies, w: Whole, t: Tests, kind: PolicyKind)
    requires kind != NONE && p.Valid()
    ensures var c := SessionAtAnswer(p, w, t, kind);
      && c.epoch >= w.policy.session.epoch
      && (w.policy.session.activePolicy != kind ==> c.epoch > w.policy.session.epoch)
  {
    BeforeHandlerIsLocal(w, t, Effect(w.policy.mode, w.policy.joints));
  }

  /** So nothing computed for an observation of any epoch up to a stop, whenever its
      answer arrives, is accepted by any handler after it, restarts included. */
  lemma NoAnswerSurvivesAStop(p: Policies, ws: seq<Whole>, es: seq<Move>, m: nat, n: nat, kind: PolicyKind,
                              r: ActionPacket, consumedNs: int, timeoutMs: int, destination: Option<seq<Float>>)
    requires Run(p, ws, es) && m <= n < |es| && es[n].Update? && !Locomotion(ws[m].policy.mode)
    requires kind != NONE && r.epoch <= ws[m].policy.session.epoch
    ensures !Accepts(SessionAtAnswer(p, ws[n], es[n].tests, kind), r, kind, consumedNs, timeoutMs, destination)
  {
    RunKeepsBetween(p, ws, es, m);
    EpochsGrow(p, ws, es, m, n);
    AnswerEpoch(p, ws[n], es[n].tests, kind);
  }
}

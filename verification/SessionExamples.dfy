/**
 Concrete runs: an episode that completes, and the two ways in which a second DOWN only
 holds its damping, each from the first start of the controller.
 */
module SessionExamples {
  import opened Common
  import opened PolicySession
  import opened PolicyPlaybackClock
  import opened ControlStateMachine
  import opened RLControllerBase
  import opened PolicyHandlers
  import opened PolicyHandlersSafety
  import opened PolicyTransitions
  import opened ControlSessions
  import opened ControlSessionRuns

  const PERIOD_NS: int := 20000000
  const SECOND_NS: int := 1000000000

  /** One joint, one frame, inferred synchronously and without a timeout. */
  function OneFrame(kind: PolicyKind): (cfg: Config)
    requires kind != NONE
    ensures cfg.Valid() && cfg.kind == kind && cfg.Dof() == 1
  {
    Config(kind, false, 0, PERIOD_NS, 1, 50.0, 1.0, [1.0], [0.0], [1.0], [1.0], [0.0], 0, 0, 0)
  }

  function Robot(): (p: Policies)
    ensures p.Valid() && p.Dof() == 1
  {
    Policies(OneFrame(WALK), OneFrame(DANCE), OneFrame(DOWN), OneFrame(UP))
  }

  function Instant(nowNs: int, packet: Option<ActionPacket>): Inputs {
    Inputs(nowNs, nowNs, nowNs, nowNs, nowNs, nowNs, nowNs, true, packet, [0.0])
  }

  /** The answer to the observation that the entry into `kind` from `s` submits. */
  function AnswerTo(kind: PolicyKind, s: State, nowNs: int): ActionPacket {
    ActionPacket(kind, s.session.epoch + 1, s.session.observationSequence + 1, nowNs, 1, true, [ZERO])
  }

  // ---------------------------------------------------------------------------
  // Calls
  // ---------------------------------------------------------------------------

  /** A motion of one frame that is entered, answered at once, and now only waits. */
  predicate Ending(s: State, kind: PolicyKind, dueNs: int) {
    && s.session.activePolicy == kind && s.playback.endPending && s.playback.finalSequence > 0
    && s.playback.completionNotBeforeNs == dueNs && s.session.lastAppliedSequence == s.playback.finalSequence
  }

  lemma EnterMotion(kind: PolicyKind, s: State, nowNs: int) returns (t: State)
    requires kind == DANCE || kind == DOWN
    requires |s.actions| == |s.joints| == 1 && s.session.activePolicy != kind && 0 < nowNs <= INT64_MAX - PERIOD_NS
    ensures MotionCycle(OneFrame(kind), s, Instant(nowNs, Some(AnswerTo(kind, s, nowNs)))) == (t, Continues)
    ensures Ending(t, kind, nowNs + PERIOD_NS) && |t.actions| == |t.joints| == 1
    ensures EndsMotion(OneFrame(kind), s, Instant(nowNs, Some(AnswerTo(kind, s, nowNs))), t.playback.finalSequence)
    ensures t.damping == (s.damping && kind != DOWN)
  {
    var cfg, i := OneFrame(kind), Instant(nowNs, Some(AnswerTo(kind, s, nowNs)));
    var (fires, u) := Ticked(cfg, EnterMode(cfg, s, i), i);
    TickAtEntry(nowNs);
    assert fires && u.playback.clock.last == 0;
    var v := Observed(cfg, u, i);
    assert v.session.lastAppliedSequence == s.session.observationSequence + 1 && v.actions == [ZERO];
    assert MotionTick(cfg, fires, u, i) == EndSeen(cfg, v, nowNs);
    t := MotionCycle(cfg, s, i).0;
  }

  lemma TickAtEntry(nowNs: int)
    requires 0 < nowNs
    ensures Take(Reset(nowNs), PERIOD_NS, nowNs).0 && Take(Reset(nowNs), PERIOD_NS, nowNs).1.last == 0
  {
  }

  lemma EnterWalk(s: State, nowNs: int) returns (t: State)
    requires |s.actions| == |s.joints| == 1 && s.session.activePolicy != WALK && 0 < nowNs
    ensures WalkCycle(OneFrame(WALK), s, Instant(nowNs, None)) == (t, Continues)
    ensures t.session.activePolicy == WALK && |t.actions| == |t.joints| == 1 && t.damping == s.damping && t.mode == s.mode
  {
    t := WalkCycle(OneFrame(WALK), s, Instant(nowNs, None)).0;
  }

  lemma FinishMotion(kind: PolicyKind, s: State, nowNs: int, dueNs: int)
    requires kind == DANCE || kind == DOWN
    requires |s.actions| == |s.joints| == 1 && Ending(s, kind, dueNs) && nowNs >= dueNs
    ensures MotionCycle(OneFrame(kind), s, Instant(nowNs, None)).1 == Completes
  {
  }

  /** The guarantees about episodes are about something: a motion of one frame is
      entered, ends, is answered, and completes one period later. */
  lemma AnEpisodeCompletes() returns (ss: seq<State>, ii: seq<Inputs>, i: Inputs)
    ensures Episode(OneFrame(DANCE), 0, ss, ii) && Follows(OneFrame(DANCE), Last(ss), i, HorizonAt(0, ii, |ii|))
    ensures |ii| == 1 && EndsMotion(OneFrame(DANCE), ss[0], ii[0], 1)
    ensures PolicyCycle(OneFrame(DANCE), Last(ss), i).1 == Completes
  {
    var s := State(Session(NONE, 0, 0, 0, 0, 0), Rewound(0), None, None, None, Dance, false, [ZERO],
                   [DEFAULT_COMMAND], map[], 0);
    var t := EnterMotion(DANCE, s, 1);
    ss, ii, i := [s, t], [Instant(1, Some(AnswerTo(DANCE, s, 1)))], Instant(1 + PERIOD_NS, None);
    FinishMotion(DANCE, t, 1 + PERIOD_NS, 1 + PERIOD_NS);
    AnswerIsAdmissible(s);
    assert Joined(OneFrame(DANCE), 0, ss, ii, 0);
  }

  lemma AnswerIsAdmissible(s: State)
    requires s.session.activePolicy == NONE
    ensures Admissible(OneFrame(DANCE), s, Instant(1, Some(AnswerTo(DANCE, s, 1))))
  {
    TickAtEntry(1);
  }

  // ---------------------------------------------------------------------------
  // Cycles
  // ---------------------------------------------------------------------------

  /** A cycle `n` seconds after the start in which only `pending` is asked for and only
      `late` may go wrong. */
  function Second(n: nat, pending: set<Request>, late: bool, packet: Option<ActionPacket>): Tests {
    Tests(n * SECOND_NS, false, false, false, pending, false, false, false, late,
          Instant(n * SECOND_NS, packet), [DEFAULT_COMMAND])
  }

  /** After `n` seconds: one joint, started, and no request accepted in the future. */
  predicate Running(w: Whole, n: nat, mode: Mode) {
    && Sized(OneFrame(WALK), w.policy) && w.policy.mode == mode && (mode != Default ==> w.started)
    && forall r :: r in w.accepted ==> w.accepted[r] <= n * SECOND_NS
  }

  lemma OnlyOneAsked(accepted: map<Request, int>, n: nat, k: nat, upAllowed: bool)
    requires k < |PRIORITY| && PRIORITY[k].id != RequestUp
    requires forall r :: r in accepted ==> accepted[r] <= n * SECOND_NS
    ensures Select({PRIORITY[k].id}, upAllowed, accepted, (n + 1) * SECOND_NS, 0) == PRIORITY[k].id
  {
    var pending, nowNs := {PRIORITY[k].id}, (n + 1) * SECOND_NS;
    assert Debounced(accepted, PRIORITY[k], nowNs);
    assert Eligible(pending, upAllowed, accepted, PRIORITY[k], nowNs);
    var j := SelectedIsFirstEligible(pending, upAllowed, accepted, nowNs, 0);
  }

  lemma NothingAsked(accepted: map<Request, int>, nowNs: int, upAllowed: bool)
    ensures Select({}, upAllowed, accepted, nowNs, 0) == RequestNone
  {
    var j := SelectedIsFirstEligible({}, upAllowed, accepted, nowNs, 0);
  }

  /** Up to the handler, a cycle with one pending request applies it. */
  lemma Asked(w: Whole, n: nat, mode: Mode, k: nat, late: bool, packet: Option<ActionPacket>)
    requires Running(w, n, mode) && k < |PRIORITY| && PRIORITY[k].id != RequestUp
    ensures var b := BeforeHandler(w, Second(n + 1, {PRIORITY[k].id}, late, packet));
      var c := Requested(Control(mode, w.started), PRIORITY[k].id);
      b.policy == w.policy.(mode := c.mode) && b.started == c.started && b.accepted == w.accepted[PRIORITY[k].id := (n + 1) * SECOND_NS]
  {
    OnlyOneAsked(w.accepted, n, k, Holding(w.policy));
  }

  lemma Unasked(w: Whole, n: nat, mode: Mode, late: bool)
    requires Running(w, n, mode)
    ensures BeforeHandler(w, Second(n + 1, {}, late, None)) == w
  {
    NothingAsked(w.accepted, (n + 1) * SECOND_NS, Holding(w.policy));
  }

  /** Running in WALK, `policy` active or none, DOWN's mark set or not. */
  predicate Standing(w: Whole, n: nat, mode: Mode, policy: PolicyKind, mark: bool) {
    Running(w, n, mode) && w.policy.session.activePolicy == policy && w.policy.damping == mark
  }

  /** START into LIE, then LIE into STAND. */
  lemma Rise(w: Whole, n: nat, mode: Mode, k: nat, mark: bool) returns (t: Tests)
    requires Standing(w, n, mode, NONE, mark) && ((mode == Default && !w.started && k == 0) || (mode == Lie && k == 5))
    ensures t == Second(n + 1, {PRIORITY[k].id}, false, None)
    ensures Standing(WholeCycle(Robot(), w, t), n + 1, if k == 0 then Lie else Stand, NONE, mark)
  {
    t := Second(n + 1, {PRIORITY[k].id}, false, None);
    Asked(w, n, mode, k, false, None);
  }

  lemma WalkHandled(w: Whole, n: nat, mode: Mode, late: bool) returns (s: State)
    requires Running(w, n, mode) && w.policy.session.activePolicy == NONE && (mode == Stand || mode == Down)
    ensures var t := Second(n + 1, {RequestWalk}, late, None);
      && Handled(Robot(), w, t) == (s, Continues) && BeforeHandler(w, t).started
      && forall r :: r in BeforeHandler(w, t).accepted ==> BeforeHandler(w, t).accepted[r] <= (n + 1) * SECOND_NS
    ensures s.session.activePolicy == WALK && s.mode == Walk && |s.actions| == |s.joints| == 1
    ensures s.damping == w.policy.damping
  {
    Asked(w, n, mode, 6, late, None);
    s := EnterWalk(BeforeHandler(w, Second(n + 1, {RequestWalk}, late, None)).policy, (n + 1) * SECOND_NS);
  }

  /** Into WALK, keeping the joystick or losing it after the handler. */
  lemma StartWalking(w: Whole, n: nat, mode: Mode, mark: bool, late: bool) returns (t: Tests)
    requires Standing(w, n, mode, NONE, mark) && (mode == Stand || mode == Down)
    ensures t == Second(n + 1, {RequestWalk}, late, None)
    ensures Standing(WholeCycle(Robot(), w, t), n + 1, Walk, if late then NONE else WALK, mark)
    ensures Handled(Robot(), w, t).1 == Continues
  {
    t := Second(n + 1, {RequestWalk}, late, None);
    var s := WalkHandled(w, n, mode, late);
  }

  /** A second in which `kind` is asked for in WALK, and its first observation answered. */
  function AskedFor(w: Whole, n: nat, kind: PolicyKind): Tests {
    Second(n + 1, {if kind == DANCE then RequestDance else RequestDown}, false,
           Some(AnswerTo(kind, w.policy, (n + 1) * SECOND_NS)))
  }

  lemma MotionAsked(w: Whole, n: nat, kind: PolicyKind)
    requires (kind == DANCE || kind == DOWN) && Running(w, n, Walk)
    ensures var b := BeforeHandler(w, AskedFor(w, n, kind));
      && b.policy == w.policy.(mode := ModeOf(kind)) && b.started
      && forall r :: r in b.accepted ==> b.accepted[r] <= (n + 1) * SECOND_NS
  {
    Asked(w, n, Walk, if kind == DANCE then 7 else 8, false, Some(AnswerTo(kind, w.policy, (n + 1) * SECOND_NS)));
  }

  lemma MotionHandled(w: Whole, n: nat, kind: PolicyKind) returns (s: State)
    requires (kind == DANCE || kind == DOWN) && n < 10 && Running(w, n, Walk)
    requires w.policy.session.activePolicy == WALK
    ensures Handled(Robot(), w, AskedFor(w, n, kind)) == (s, Continues)
    ensures Ending(s, kind, (n + 1) * SECOND_NS + PERIOD_NS) && |s.actions| == |s.joints| == 1
    ensures s.damping == (w.policy.damping && kind != DOWN) && s.mode == ModeOf(kind)
  {
    MotionAsked(w, n, kind);
    var b, nowNs := BeforeHandler(w, AskedFor(w, n, kind)).policy, (n + 1) * SECOND_NS;
    assert AnswerTo(kind, b, nowNs) == AnswerTo(kind, w.policy, nowNs);
    s := EnterMotion(kind, b, nowNs);
    MotionStays(kind, b, nowNs);
  }

  lemma StartMotion(w: Whole, n: nat, kind: PolicyKind, mark: bool)
    requires (kind == DANCE || kind == DOWN) && n < 10
    requires Standing(w, n, Walk, WALK, mark)
    ensures var v := WholeCycle(Robot(), w, AskedFor(w, n, kind));
      && Standing(v, n + 1, ModeOf(kind), kind, mark && kind != DOWN)
      && Ending(v.policy, kind, (n + 1) * SECOND_NS + PERIOD_NS)
  {
    MotionAsked(w, n, kind);
    var s := MotionHandled(w, n, kind);
    assert WholeCycle(Robot(), w, AskedFor(w, n, kind)) == BeforeHandler(w, AskedFor(w, n, kind)).(policy := s);
  }

  lemma MotionStays(kind: PolicyKind, s: State, nowNs: int)
    requires kind == DANCE || kind == DOWN
    requires |s.actions| == |s.joints| == 1 && s.mode == ModeOf(kind)
    ensures var (t, outcome) := MotionCycle(OneFrame(kind), s, Instant(nowNs, Some(AnswerTo(kind, s, nowNs))));
      outcome == Continues ==> t.mode == s.mode
  {
    LeavingAbandonsTheEpoch(OneFrame(kind), s, Instant(nowNs, Some(AnswerTo(kind, s, nowNs))));
  }

  lemma Finish(w: Whole, n: nat, kind: PolicyKind, mark: bool) returns (t: Tests)
    requires kind == DANCE || kind == DOWN
    requires Standing(w, n, ModeOf(kind), kind, mark) && Ending(w.policy, kind, n * SECOND_NS + PERIOD_NS)
    ensures t == Second(n + 1, {}, false, None)
    ensures Handled(Robot(), w, t).1 == Completes && BeforeHandler(w, t).policy.mode == ModeOf(kind)
    ensures Standing(WholeCycle(Robot(), w, t), n + 1, if kind == DOWN then Down else Walk, NONE, mark || kind == DOWN)
  {
    t := Second(n + 1, {}, false, None);
    Unasked(w, n, ModeOf(kind), false);
    FinishMotion(kind, w.policy, (n + 1) * SECOND_NS, n * SECOND_NS + PERIOD_NS);
    CycleHandler(Robot(), w, t);
  }

  /** DOWN asked for in WALK without a policy, with the mark set. */
  lemma AskAgain(w: Whole, n: nat) returns (t: Tests)
    requires Standing(w, n, Walk, NONE, true)
    ensures t == Second(n + 1, {RequestDown}, false, None)
    ensures BeforeHandler(w, t).policy.mode == Down && Handled(Robot(), w, t).1 == Holds
  {
    t := Second(n + 1, {RequestDown}, false, None);
    Asked(w, n, Walk, 8, false, None);
  }

  // ---------------------------------------------------------------------------
  // Runs
  // ---------------------------------------------------------------------------

  function Begun(): Whole {
    Whole(State(Session(NONE, 0, 0, 0, 0, 0), Rewound(0), None, None, None, Default, false, [ZERO],
                [DEFAULT_COMMAND], map[], 0), false, map[])
  }

  /** A run of `n` cycles, one a second, that has got where `Standing` says. */
  ghost predicate RunTo(ws: seq<Whole>, es: seq<Move>, n: nat, mode: Mode, policy: PolicyKind, mark: bool) {
    Run(Robot(), ws, es) && |es| == n && Standing(Last(ws), n, mode, policy, mark)
  }

  predicate Extends(ws: seq<Whole>, es: seq<Move>, vs: seq<Whole>, ds: seq<Move>, t: Tests) {
    |vs| == |ws| + 1 && |ds| == |es| + 1 && vs[..|ws|] == ws && ds == es + [Update(t)]
  }

  lemma Advance(ws: seq<Whole>, es: seq<Move>, t: Tests) returns (vs: seq<Whole>, ds: seq<Move>)
    requires Run(Robot(), ws, es) && |t.posture| == 1 && Sized(OneFrame(WALK), Last(ws).policy)
    ensures Run(Robot(), vs, ds) && Extends(ws, es, vs, ds, t) && Last(vs) == WholeCycle(Robot(), Last(ws), t)
  {
    var w := WholeCycle(Robot(), Last(ws), t);
    vs, ds := ws + [w], es + [Update(t)];
    forall k: nat | k < |ds| ensures Link(Robot(), vs, ds, k) {
      LinkKept(ws, es, vs, ds, t, k);
    }
  }

  lemma LinkKept(ws: seq<Whole>, es: seq<Move>, vs: seq<Whole>, ds: seq<Move>, t: Tests, k: nat)
    requires Run(Robot(), ws, es) && Extends(ws, es, vs, ds, t) && k < |ds|
    requires |t.posture| == 1 && Sized(OneFrame(WALK), Last(ws).policy) && Last(vs) == WholeCycle(Robot(), Last(ws), t)
    ensures Link(Robot(), vs, ds, k)
  {
    if k < |es| {
      assert Link(Robot(), ws, es, k);
      assert vs[k] == ws[k] && vs[k + 1] == ws[k + 1];
    } else {
      assert vs[k] == vs[..|ws|][k];
    }
  }

  /** START, STAND, WALK. */
  lemma ToWalk() returns (ws: seq<Whole>, es: seq<Move>)
    ensures RunTo(ws, es, 3, Walk, WALK, false)
  {
    ws, es := [Begun()], [];
    var t := Rise(Last(ws), 0, Default, 0, false);
    ws, es := Advance(ws, es, t);
    t := Rise(Last(ws), 1, Lie, 5, false);
    ws, es := Advance(ws, es, t);
    t := StartWalking(Last(ws), 2, Stand, false, false);
    ws, es := Advance(ws, es, t);
  }

  lemma BeginMotion(ws: seq<Whole>, es: seq<Move>, n: nat, kind: PolicyKind, mark: bool)
      returns (vs: seq<Whole>, ds: seq<Move>)
    requires (kind == DANCE || kind == DOWN) && n < 10 && RunTo(ws, es, n, Walk, WALK, mark)
    ensures RunTo(vs, ds, n + 1, ModeOf(kind), kind, mark && kind != DOWN)
    ensures Ending(Last(vs).policy, kind, (n + 1) * SECOND_NS + PERIOD_NS)
    ensures vs[..|ws|] == ws && ds[..|es|] == es
  {
    StartMotion(Last(ws), n, kind, mark);
    vs, ds := Advance(ws, es, AskedFor(Last(ws), n, kind));
  }

  lemma EndMotion(ws: seq<Whole>, es: seq<Move>, n: nat, kind: PolicyKind, mark: bool)
      returns (vs: seq<Whole>, ds: seq<Move>)
    requires (kind == DANCE || kind == DOWN) && RunTo(ws, es, n, ModeOf(kind), kind, mark)
    requires Ending(Last(ws).policy, kind, n * SECOND_NS + PERIOD_NS)
    ensures RunTo(vs, ds, n + 1, if kind == DOWN then Down else Walk, NONE, mark || kind == DOWN)
    ensures if kind == DOWN then DownCompleted(Robot(), vs, ds, n) else CompletedIntoWalk(Robot(), vs, ds, n)
    ensures vs[..|ws|] == ws && ds[..|es|] == es
  {
    var t := Finish(Last(ws), n, kind, mark);
    vs, ds := Advance(ws, es, t);
    assert vs[n] == vs[..|ws|][n] == Last(ws);
  }

  /** A motion from WALK: its entry and its completion. */
  lemma Perform(ws: seq<Whole>, es: seq<Move>, n: nat, kind: PolicyKind, mark: bool)
      returns (vs: seq<Whole>, ds: seq<Move>)
    requires (kind == DANCE || kind == DOWN) && n < 10 && RunTo(ws, es, n, Walk, WALK, mark)
    ensures RunTo(vs, ds, n + 2, if kind == DOWN then Down else Walk, NONE, mark || kind == DOWN)
    ensures vs[..|ws|] == ws && ds[..|es|] == es
    ensures if kind == DOWN then DownCompleted(Robot(), vs, ds, n + 1) else CompletedIntoWalk(Robot(), vs, ds, n + 1)
  {
    var us, cs := BeginMotion(ws, es, n, kind, mark);
    vs, ds := EndMotion(us, cs, n + 1, kind, mark && kind != DOWN);
    assert vs[..|ws|] == us[..|ws|] && ds[..|es|] == cs[..|es|];
  }

  /** From the first start, by START, STAND and WALK, to a DOWN that has completed. */
  lemma ToACompletedDown() returns (ws: seq<Whole>, es: seq<Move>)
    ensures RunTo(ws, es, 5, Down, NONE, true) && DownCompleted(Robot(), ws, es, 4)
  {
    ws, es := ToWalk();
    ws, es := Perform(ws, es, 3, DOWN, false);
  }

  lemma ToWalkAgain(late: bool) returns (ws: seq<Whole>, es: seq<Move>)
    ensures RunTo(ws, es, 6, Walk, if late then NONE else WALK, true) && DownCompleted(Robot(), ws, es, 4)
    ensures es[5].Update? && es[5].tests == Second(6, {RequestWalk}, late, None) && !Completed(Robot(), ws, es, 5)
  {
    var us, cs := ToACompletedDown();
    var t := StartWalking(Last(us), 5, Down, true, late);
    ws, es := Advance(us, cs, t);
    assert ws[4] == ws[..|us|][4] && ws[5] == ws[..|us|][5];
  }

  /** The last cycle of `ws` asks for DOWN in WALK, and only holds. */
  predicate EndsHolding(ws: seq<Whole>, es: seq<Move>) {
    && |es| > 0 && |ws| == |es| + 1 && Last(es).Update?
    && var w, t := ws[|es| - 1], Last(es).tests;
    && Sized(OneFrame(WALK), w.policy) && w.policy.mode == Walk && t.pending == {RequestDown}
    && BeforeHandler(w, t).policy.mode == Down && Handled(Robot(), w, t).1 == Holds
  }

  lemma AskForDown(ws: seq<Whole>, es: seq<Move>, n: nat) returns (vs: seq<Whole>, ds: seq<Move>)
    requires RunTo(ws, es, n, Walk, NONE, true)
    ensures Run(Robot(), vs, ds) && |ds| == n + 1 && EndsHolding(vs, ds) && vs[..|ws|] == ws && ds[..|es|] == es
  {
    var t := AskAgain(Last(ws), n);
    vs, ds := Advance(ws, es, t);
    assert vs[n] == vs[..|ws|][n];
  }

  /** A longer run has the same events as the run it goes on from. */
  lemma CompletionKept(us: seq<Whole>, cs: seq<Move>, ws: seq<Whole>, es: seq<Move>, k: nat)
    requires k < |cs| < |us| <= |ws| && |cs| <= |es| && ws[..|us|] == us && es[..|cs|] == cs
    ensures es[k] == cs[k] && Robot().Valid()
    ensures Completed(Robot(), ws, es, k) == Completed(Robot(), us, cs, k)
    ensures DownCompleted(Robot(), ws, es, k) == DownCompleted(Robot(), us, cs, k)
    ensures CompletedIntoWalk(Robot(), ws, es, k) == CompletedIntoWalk(Robot(), us, cs, k)
  {
    assert ws[k] == ws[..|us|][k] && es[k] == es[..|cs|][k];
  }

  /** First input: after a DOWN has completed, WALK and DANCE are run, DANCE completes,
      and DOWN is asked for in the next cycle. */
  lemma SecondDownHoldsAfterAMotion() returns (ws: seq<Whole>, es: seq<Move>)
    ensures Run(Robot(), ws, es) && |es| == 9 && EndsHolding(ws, es)
    ensures DownCompleted(Robot(), ws, es, 4) && CompletedIntoWalk(Robot(), ws, es, 7)
  {
    var us, cs := ToWalkAgain(false);
    var vs, ds := Perform(us, cs, 6, DANCE, true);
    CompletionKept(us, cs, vs, ds, 4);
    ws, es := AskForDown(vs, ds, 8);
    CompletionKept(vs, ds, ws, es, 4);
    CompletionKept(vs, ds, ws, es, 7);
  }

  /** Second input: after a DOWN has completed, WALK is entered, the joystick is lost
      after its handler and is back at once, and DOWN is asked for; nothing has completed
      into WALK. */
  lemma SecondDownHoldsAfterALostJoystick() returns (ws: seq<Whole>, es: seq<Move>)
    ensures Run(Robot(), ws, es) && |es| == 7 && EndsHolding(ws, es)
    ensures DownCompleted(Robot(), ws, es, 4) && Disconnects(es, 5) && !Completed(Robot(), ws, es, 5)
  {
    var us, cs := ToWalkAgain(true);
    ws, es := AskForDown(us, cs, 6);
    CompletionKept(us, cs, ws, es, 4);
    CompletionKept(us, cs, ws, es, 5);
  }
}

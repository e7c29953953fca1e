/**
 The reset target over runs of interleaved cycles: which callback stored it, and how long
 it may be used.
 */
module EmergencyResets {
  import opened Common
  import opened ControlStateMachine
  import opened RLControllerBase
  import opened ControlCycle

  /** The operations that take or drop the target. */
  predicate Drops(s: Sys, move: Move) {
    && move.Advance?
    && (match s.pc
        case Admitting(stage) => stage.ExchangingTarget? || stage.DroppingTarget?
        case Ended => move.choice.restart
        case _ => false)
  }

  /** The second half of a reset callback that saw a latched word. */
  predicate Stores(s: Sys, move: Move) {
    move.StoreTarget? && move.callback in s.callbacks
  }

  /** What one step does to the target and to the callbacks under way. */
  ghost predicate TargetAfter(s: Sys, move: Move, t: Sys) {
    && t.target == (if Stores(s, move) then s.callbacks[move.callback].word
                    else if Drops(s, move) then 0 else s.target)
    && t.callbacks == (if Stores(s, move) then s.callbacks - {move.callback}
                       else if move.ReadForReset? && Latched(s.word)
                       then s.callbacks[move.callback := ResetRead(s.word, s.triggers)] else s.callbacks)
    && (Comparing(t.pc) ==>
          if move.Advance? then s.pc == Admitting(ExchangingTarget) && t.pc.admit.target == s.target
          else t.pc == s.pc)
  }

  lemma AdmitStepTarget(s: Sys, stage: AdmitStage, choice: Choice)
    requires s.pc == Admitting(stage)
    ensures TargetAfter(s, Advance(choice), AdmitStep(s, stage, choice))
  {
  }

  lemma CheckStepTarget(s: Sys, stage: LateStage, choice: Choice)
    requires s.pc == Checking(stage)
    ensures TargetAfter(s, Advance(choice), CheckStep(s, stage))
  {
  }

  lemma CycleStepTarget(s: Sys, choice: Choice)
    ensures TargetAfter(s, Advance(choice), CycleStep(s, choice))
  {
    match s.pc
    case Admitting(stage) => AdmitStepTarget(s, stage, choice);
    case Checking(stage) => CheckStepTarget(s, stage, choice);
    case Stopping(_, _) =>
    case Acting(_) =>
    case Ended =>
  }

  ghost predicate Facts(states: seq<Sys>, moves: seq<Move>) {
    && |states| == |moves| + 1 && states[0].target == 0 && states[0].callbacks == map[] && states[0].pc.Ended?
    && forall k {:trigger moves[k]} :: 0 <= k < |moves| ==> TargetAfter(states[k], moves[k], states[k + 1])
  }

  lemma RunHasFacts(states: seq<Sys>, moves: seq<Move>)
    requires Run(states, moves)
    ensures Facts(states, moves)
  {
    forall k | 0 <= k < |moves| ensures TargetAfter(states[k], moves[k], states[k + 1]) {
      assert Next(states[k], moves[k], states[k + 1]);
      if moves[k].Advance? { CycleStepTarget(states[k], moves[k].choice); }
    }
  }

  /** `w` was stored at step `b` and neither dropped nor replaced since. */
  ghost predicate StandsSince(states: seq<Sys>, moves: seq<Move>, b: nat, n: nat, w: nat)
    requires b < n < |states| == |moves| + 1
  {
    && Stores(states[b], moves[b]) && states[b].callbacks[moves[b].callback].word == w
    && forall k :: b < k < n ==> !Stores(states[k], moves[k]) && !Drops(states[k], moves[k])
  }

  lemma {:induction false} FactsStoreTarget(states: seq<Sys>, moves: seq<Move>, n: nat) returns (b: nat)
    requires Facts(states, moves) && n < |states| && states[n].target != 0
    ensures b < n && StandsSince(states, moves, b, n, states[n].target)
  {
    var m := n - 1;
    assert TargetAfter(states[m], moves[m], states[n]);
    if Stores(states[m], moves[m]) {
      b := m;
    } else {
      b := FactsStoreTarget(states, moves, m);
    }
  }

  /** Back from a compare-exchange to the exchange that took its target. */
  lemma {:induction false} TargetWasTaken(states: seq<Sys>, moves: seq<Move>, n: nat) returns (e: nat)
    requires Facts(states, moves) && n < |states| && Comparing(states[n].pc)
    ensures e < n && states[e].pc == Admitting(ExchangingTarget) && states[e].target == states[n].pc.admit.target
    ensures forall k :: e < k <= n ==> Comparing(states[k].pc)
  {
    var m := n - 1;
    assert TargetAfter(states[m], moves[m], states[n]);
    if moves[m].Advance? {
      e := m;
    } else {
      e := TargetWasTaken(states, moves, m);
    }
  }

  /** A reset that could clear an emergency was stored by a callback after every earlier
      cycle that took or dropped a target: none is carried forward to a later emergency.
      And what it stored is a word it had read latched. */
  lemma ResetsAreFresh(states: seq<Sys>, moves: seq<Move>, d: nat, m: nat, n: nat) returns (b: nat)
    requires Run(states, moves) && d < m < n < |states| && Drops(states[d], moves[d]) && states[m].pc.Ended?
    requires Comparing(states[n].pc)
    ensures d < b < n && Stores(states[b], moves[b])
    ensures states[b].callbacks[moves[b].callback].word == states[n].pc.admit.target
    ensures Latched(states[n].pc.admit.target)
  {
    RunHasFacts(states, moves);
    RunKeepsWordInv(states, moves, n);
    var e := TargetWasTaken(states, moves, n);
    b := FactsStoreTarget(states, moves, e);
  }

  /** A callback has read a latched word and not stored it since. */
  ghost predicate ReadLast(states: seq<Sys>, moves: seq<Move>, n: nat, id: nat, w: nat)
    requires n < |states| == |moves| + 1
  {
    exists a :: 0 <= a < n && moves[a] == ReadForReset(id) && Latched(states[a].word) && states[a].word == w
                && forall k :: a < k < n ==> !Touches(states[k], moves[k], id)
  }

  predicate Touches(s: Sys, move: Move, id: nat) {
    move == StoreTarget(id) || (move == ReadForReset(id) && Latched(s.word))
  }

  lemma ReadLastGoesOn(states: seq<Sys>, moves: seq<Move>, n: nat, id: nat, w: nat)
    requires n < |moves| && |states| == |moves| + 1
    ensures ReadLast(states, moves, n + 1, id, w) <==>
      if Touches(states[n], moves[n], id) then moves[n].ReadForReset? && states[n].word == w
      else ReadLast(states, moves, n, id, w)
  {
    if Touches(states[n], moves[n], id) {
    } else if ReadLast(states, moves, n, id, w) {
      var a :| 0 <= a < n && moves[a] == ReadForReset(id) && Latched(states[a].word) && states[a].word == w
               && forall k :: a < k < n ==> !Touches(states[k], moves[k], id);
      assert forall k :: a < k < n + 1 ==> !Touches(states[k], moves[k], id);
    }
  }

  lemma CallbackStep(states: seq<Sys>, moves: seq<Move>, n: nat, id: nat, w: nat)
    requires Facts(states, moves) && n < |moves|
    ensures id in states[n + 1].callbacks && states[n + 1].callbacks[id].word == w <==>
      if Touches(states[n], moves[n], id) then moves[n].ReadForReset? && states[n].word == w
      else id in states[n].callbacks && states[n].callbacks[id].word == w
  {
    assert TargetAfter(states[n], moves[n], states[n + 1]);
  }

  lemma {:induction false} FactsKeepReads(states: seq<Sys>, moves: seq<Move>, n: nat, id: nat, w: nat)
    requires Facts(states, moves) && n < |states|
    ensures id in states[n].callbacks && states[n].callbacks[id].word == w <==> ReadLast(states, moves, n, id, w)
  {
    if n > 0 {
      var m := n - 1;
      FactsKeepReads(states, moves, m, id, w);
      ReadLastGoesOn(states, moves, m, id, w);
      CallbackStep(states, moves, m, id, w);
    }
  }

  /** A reset callback is about to store `w` if and only if it read `w` latched and has
      not stored it: what one reading gives is stored at most once. */
  lemma ReadsAreStoredOnce(states: seq<Sys>, moves: seq<Move>, n: nat, id: nat, w: nat)
    requires Run(states, moves) && n < |states|
    ensures id in states[n].callbacks && states[n].callbacks[id].word == w <==> ReadLast(states, moves, n, id, w)
  {
    RunHasFacts(states, moves);
    FactsKeepReads(states, moves, n, id, w);
  }
}

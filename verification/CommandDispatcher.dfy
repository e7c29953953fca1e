/**
 Teleoperation commands: continuous ones run while their buttons are held, discrete
 ones on the press of a chord; and the tick that feeds the dispatcher only valid input.
 */
module CommandDispatcher {
  import opened Common

  /** A configured command; `required` is its button list, with any indices. */
  datatype Command = Command(name: string, required: seq<int>, allowMultiple: bool, continuous: bool)

  /** Names are the keys of a dictionary. */
  ghost predicate Distinct(commands: seq<Command>) {
    forall i, j :: 0 <= i < j < |commands| ==> commands[i].name != commands[j].name
  }

  function Sum(buttons: seq<int>): int {
    if buttons == [] then 0 else Sum(Front(buttons)) + Last(buttons)
  }

  predicate Pressed(buttons: seq<int>, b: int) {
    0 <= b < |buttons| && buttons[b] == 1
  }

  predicate AllPressed(required: seq<int>, buttons: seq<int>) {
    forall k :: 0 <= k < |required| ==> Pressed(buttons, required[k])
  }

  /** `matches`. */
  predicate Matches(c: Command, buttons: seq<int>) {
    AllPressed(c.required, buttons)
    && if c.allowMultiple then Sum(buttons) >= |c.required| else Sum(buttons) == |c.required|
  }

  function ButtonAt(buttons: seq<int>, b: int): int {
    if 0 <= b < |buttons| then buttons[b] else 0
  }

  /** Some required button is in the set of changed indices. */
  predicate Touched(c: Command, before: seq<int>, after: seq<int>) {
    exists k :: 0 <= k < |c.required| && Differs(before, after, c.required[k])
  }

  predicate Differs(before: seq<int>, after: seq<int>, b: int) {
    (0 <= b < |before| || 0 <= b < |after|) && ButtonAt(before, b) != ButtonAt(after, b)
  }

  /** `_initialized`, `_matched` and `_last_buttons`. */
  datatype Dispatcher = Dispatcher(initialized: bool, matched: map<string, bool>, lastButtons: seq<int>)

  const NEW_DISPATCHER: Dispatcher := Dispatcher(false, map[], [])

  function WasMatched(d: Dispatcher, name: string): bool {
    name in d.matched && d.matched[name]
  }

  function MatchedAll(commands: seq<Command>, buttons: seq<int>): map<string, bool> {
    if commands == [] then map[]
    else MatchedAll(Front(commands), buttons)[Last(commands).name := Matches(Last(commands), buttons)]
  }

  function Synchronized(commands: seq<Command>, buttons: seq<int>): Dispatcher {
    Dispatcher(true, MatchedAll(commands, buttons), buttons)
  }

  /** What the loop of `commands_to_run` does for one command. */
  function Visit(c: Command, matched: map<string, bool>, before: seq<int>, after: seq<int>): (map<string, bool>, bool) {
    if c.continuous then (matched[c.name := Matches(c, after)], Matches(c, after))
    else if c.required == [] || !Touched(c, before, after) then (matched, false)
    else (matched[c.name := Matches(c, after)], Matches(c, after) && !(c.name in matched && matched[c.name]))
  }

  function Visited(commands: seq<Command>, matched: map<string, bool>, before: seq<int>, after: seq<int>)
    : (map<string, bool>, seq<string>)
  {
    if commands == [] then (matched, [])
    else
      var (m, names) := Visited(Front(commands), matched, before, after);
      var (n, selected) := Visit(Last(commands), m, before, after);
      (n, if selected then names + [Last(commands).name] else names)
  }

  /** `commands_to_run`. */
  function Run(commands: seq<Command>, d: Dispatcher, buttons: seq<int>): (Dispatcher, seq<string>) {
    if !d.initialized then (Synchronized(commands, buttons), [])
    else
      var (matched, names) := Visited(commands, d.matched, d.lastButtons, buttons);
      (Dispatcher(true, matched, buttons), names)
  }

  // ---------------------------------------------------------------------------
  // One call, command by command
  // ---------------------------------------------------------------------------

  lemma {:induction false} SynchronizeRecords(commands: seq<Command>, buttons: seq<int>, k: nat)
    requires Distinct(commands) && k < |commands|
    ensures commands[k].name in MatchedAll(commands, buttons)
    ensures MatchedAll(commands, buttons)[commands[k].name] == Matches(commands[k], buttons)
  {
    if k < |commands| - 1 {
      SynchronizeRecords(Front(commands), buttons, k);
      assert commands[k].name != Last(commands).name;
    }
  }

  lemma {:induction false} VisitsOwnName(commands: seq<Command>, matched: map<string, bool>, before: seq<int>,
                                         after: seq<int>, name: string)
    requires forall i :: 0 <= i < |commands| ==> commands[i].name != name
    ensures var (m, names) := Visited(commands, matched, before, after);
      && (name in m <==> name in matched) && (name in matched ==> m[name] == matched[name]) && name !in names
  {
    if commands != [] {
      VisitsOwnName(Front(commands), matched, before, after, name);
      assert Last(commands).name != name;
    }
  }

  /** A call treats every command by its own record alone. */
  lemma {:induction false} VisitedOne(commands: seq<Command>, matched: map<string, bool>, before: seq<int>,
                                      after: seq<int>, k: nat)
    requires Distinct(commands) && k < |commands|
    ensures var (m, names) := Visited(commands, matched, before, after);
      var c := commands[k];
      var (n, selected) := Visit(c, matched, before, after);
      && (c.name in names <==> selected)
      && (c.name in m <==> c.name in n) && (c.name in n ==> m[c.name] == n[c.name])
  {
    var c, prefix := commands[k], Front(commands);
    if k == |commands| - 1 {
      VisitsOwnName(prefix, matched, before, after, c.name);
    } else {
      VisitedOne(prefix, matched, before, after, k);
      assert Last(commands).name != c.name;
    }
  }

  // ---------------------------------------------------------------------------
  // Runs of calls since a synchronization
  // ---------------------------------------------------------------------------

  /** The dispatcher synchronized with `inputs[0]` and then called with the rest. */
  function After(commands: seq<Command>, inputs: seq<seq<int>>): Dispatcher
    requires inputs != []
  {
    if |inputs| == 1 then Synchronized(commands, inputs[0])
    else Run(commands, After(commands, Front(inputs)), Last(inputs)).0
  }

  /** What the last call returns. */
  function Selected(commands: seq<Command>, inputs: seq<seq<int>>): seq<string>
    requires |inputs| >= 2
  {
    Run(commands, After(commands, Front(inputs)), Last(inputs)).1
  }

  /** The last input at which a required button of `c` had changed, or the first. */
  function LastTouch(c: Command, inputs: seq<seq<int>>): (r: nat)
    requires inputs != []
    ensures r < |inputs|
  {
    if |inputs| == 1 || Touched(c, inputs[|inputs| - 2], Last(inputs)) then |inputs| - 1 else LastTouch(c, Front(inputs))
  }

  ghost predicate Discrete(c: Command) {
    !c.continuous && c.required != []
  }

  lemma {:induction false} RecordIsLastTouch(commands: seq<Command>, inputs: seq<seq<int>>, k: nat)
    requires Distinct(commands) && k < |commands| && inputs != [] && Discrete(commands[k])
    ensures var d := After(commands, inputs);
      && d.initialized && d.lastButtons == Last(inputs)
      && WasMatched(d, commands[k].name) == Matches(commands[k], inputs[LastTouch(commands[k], inputs)])
  {
    if |inputs| == 1 {
      SynchronizeRecords(commands, inputs[0], k);
    } else {
      var prefix := Front(inputs);
      var d := After(commands, prefix);
      RecordIsLastTouch(commands, prefix, k);
      VisitedOne(commands, d.matched, d.lastButtons, Last(inputs), k);
    }
  }

  /** A discrete command is selected exactly when one of its buttons has just changed,
      it matches now, and it did not match when one of them last changed. */
  lemma DiscreteExactly(commands: seq<Command>, inputs: seq<seq<int>>, k: nat)
    requires Distinct(commands) && k < |commands| && |inputs| >= 2 && Discrete(commands[k])
    ensures var c := commands[k];
      c.name in Selected(commands, inputs) <==>
        && Touched(c, inputs[|inputs| - 2], Last(inputs)) && Matches(c, Last(inputs))
        && !Matches(c, inputs[LastTouch(c, Front(inputs))])
  {
    RecordIsLastTouch(commands, Front(inputs), k);
    var d := After(commands, Front(inputs));
    VisitedOne(commands, d.matched, d.lastButtons, Last(inputs), k);
  }

  /** Continuous commands run whenever they match, and a discrete command without
      buttons never runs. */
  lemma OthersExactly(commands: seq<Command>, inputs: seq<seq<int>>, k: nat)
    requires Distinct(commands) && k < |commands| && |inputs| >= 2 && !Discrete(commands[k])
    ensures commands[k].name in Selected(commands, inputs) <==> commands[k].continuous && Matches(commands[k], Last(inputs))
  {
    var d := After(commands, Front(inputs));
    AfterIsInitialized(commands, Front(inputs));
    VisitedOne(commands, d.matched, d.lastButtons, Last(inputs), k);
  }

  lemma AfterIsInitialized(commands: seq<Command>, inputs: seq<seq<int>>)
    requires inputs != []
    ensures After(commands, inputs).initialized
  {
  }

  // ---------------------------------------------------------------------------
  // Commands whose chord alone decides
  // ---------------------------------------------------------------------------

  predicate NonNegative(buttons: seq<int>) {
    forall k :: 0 <= k < |buttons| ==> buttons[k] >= 0
  }

  /** Other buttons may be held, and no button is required twice. */
  ghost predicate ChordDecides(c: Command) {
    Discrete(c) && c.allowMultiple && forall i, j :: 0 <= i < j < |c.required| ==> c.required[i] != c.required[j]
  }

  /** Indices of the pressed buttons. */
  ghost function Held(buttons: seq<int>): set<int> {
    set b | 0 <= b < |buttons| && Pressed(buttons, b)
  }

  lemma {:induction false} SumCountsHeld(buttons: seq<int>)
    requires NonNegative(buttons)
    ensures Sum(buttons) >= |Held(buttons)|
  {
    if buttons == [] {
      assert Held(buttons) == {};
    } else {
      var last := |buttons| - 1;
      SumCountsHeld(Front(buttons));
      assert Held(buttons) == Held(Front(buttons)) + (if Pressed(buttons, last) then {last} else {}) by {
        forall b ensures b in Held(buttons) <==> b in Held(Front(buttons)) || (b == last && Pressed(buttons, last)) {
        }
      }
    }
  }

  lemma SubsetIsNoLarger(s: set<int>, t: set<int>)
    requires s <= t
    ensures |s| <= |t|
  {
    assert t == s + (t - s);
  }

  lemma {:induction false} SetOfDistinct(required: seq<int>)
    requires forall i, j :: 0 <= i < j < |required| ==> required[i] != required[j]
    ensures |set k | 0 <= k < |required| :: required[k]| == |required|
  {
    if required != [] {
      SetOfDistinct(Front(required));
      var s, t := set k | 0 <= k < |required| :: required[k], set k | 0 <= k < |Front(required)| :: Front(required)[k];
      assert s == t + {Last(required)};
    }
  }

  /** Such a command matches exactly when its own buttons are pressed. */
  lemma ChordMatches(c: Command, buttons: seq<int>)
    requires ChordDecides(c) && NonNegative(buttons)
    ensures Matches(c, buttons) <==> AllPressed(c.required, buttons)
  {
    if AllPressed(c.required, buttons) {
      SetOfDistinct(c.required);
      SumCountsHeld(buttons);
      SubsetIsNoLarger(set k | 0 <= k < |c.required| :: c.required[k], Held(buttons));
    }
  }

  /** Untouched buttons leave the match as it is. */
  lemma UntouchedKeepsMatch(c: Command, before: seq<int>, after: seq<int>)
    requires ChordDecides(c) && NonNegative(before) && NonNegative(after) && !Touched(c, before, after)
    ensures Matches(c, before) == Matches(c, after)
  {
    ChordMatches(c, before);
    ChordMatches(c, after);
    forall k | 0 <= k < |c.required|
      ensures Pressed(before, c.required[k]) == Pressed(after, c.required[k])
    {
      assert !Differs(before, after, c.required[k]);
    }
  }

  lemma {:induction false} LastTouchMatches(c: Command, inputs: seq<seq<int>>)
    requires ChordDecides(c) && inputs != [] && forall k :: 0 <= k < |inputs| ==> NonNegative(inputs[k])
    ensures Matches(c, inputs[LastTouch(c, inputs)]) == Matches(c, Last(inputs))
  {
    if |inputs| > 1 && !Touched(c, inputs[|inputs| - 2], Last(inputs)) {
      LastTouchMatches(c, Front(inputs));
      UntouchedKeepsMatch(c, inputs[|inputs| - 2], Last(inputs));
    }
  }

  /** For those commands skipping untouched buttons is invisible: they run exactly when
      they match now and did not at the call before. */
  lemma RisingEdgeExactly(commands: seq<Command>, inputs: seq<seq<int>>, k: nat)
    requires Distinct(commands) && k < |commands| && |inputs| >= 2 && ChordDecides(commands[k])
    requires forall n :: 0 <= n < |inputs| ==> NonNegative(inputs[n])
    ensures commands[k].name in Selected(commands, inputs) <==>
      Matches(commands[k], Last(inputs)) && !Matches(commands[k], inputs[|inputs| - 2])
  {
    var c := commands[k];
    DiscreteExactly(commands, inputs, k);
    LastTouchMatches(c, Front(inputs));
    if !Touched(c, inputs[|inputs| - 2], Last(inputs)) {
      UntouchedKeepsMatch(c, inputs[|inputs| - 2], Last(inputs));
    }
  }

  /** A command that must be pressed alone is no plain rising edge: releasing another
      button makes it match, and it does not run. */
  lemma AloneIsNoRisingEdge(c: Command) returns (inputs: seq<seq<int>>)
    requires c == Command(c.name, [0], false, false)
    ensures |inputs| == 2 && Matches(c, inputs[1]) && !Matches(c, inputs[0])
    ensures c.name !in Selected([c], inputs)
  {
    inputs := [[1, 1], [1, 0]];
    var both, one := [1, 1], [1, 0];
    assert Front(both) == [1] && Front(one) == [1] && Front([1]) == [];
    assert Sum([1]) == 1 && Sum(both) == 2 && Sum(one) == 1;
    assert Pressed(one, 0) && AllPressed(c.required, one);
    assert !Differs(both, one, 0);
    DiscreteExactly([c], inputs, 0);
  }

  // ---------------------------------------------------------------------------
  // Ticks
  // ---------------------------------------------------------------------------

  datatype Input = Input(valid: bool, buttons: seq<int>)

  /** `_input_initialized` and `_input_valid` beside the dispatcher. */
  datatype Teleop = Teleop(dispatcher: Dispatcher, initialized: bool, inputValid: bool)

  const NEW_TELEOP: Teleop := Teleop(NEW_DISPATCHER, false, false)

  /** The continuous commands that are not in `names`: they are sent zero. */
  function Zeroed(commands: seq<Command>, names: seq<string>): set<string> {
    set k | 0 <= k < |commands| && commands[k].continuous && commands[k].name !in names :: commands[k].name
  }

  /** `_tick`: the new state, the commands run and the ones sent zero. */
  function Tick(commands: seq<Command>, t: Teleop, i: Input): (Teleop, seq<string>, set<string>) {
    if !i.valid then (t.(inputValid := false), [], Zeroed(commands, []))
    else if !t.initialized || !t.inputValid then (Teleop(Synchronized(commands, i.buttons), true, true), [], {})
    else
      var (d, names) := Run(commands, t.dispatcher, i.buttons);
      (t.(dispatcher := d), names, Zeroed(commands, names))
  }

  function AfterTicks(commands: seq<Command>, ins: seq<Input>): Teleop {
    if ins == [] then NEW_TELEOP else Tick(commands, AfterTicks(commands, Front(ins)), Last(ins)).0
  }

  function RunAt(commands: seq<Command>, ins: seq<Input>): seq<string>
    requires ins != []
  {
    Tick(commands, AfterTicks(commands, Front(ins)), Last(ins)).1
  }

  function ZeroedAt(commands: seq<Command>, ins: seq<Input>): set<string>
    requires ins != []
  {
    Tick(commands, AfterTicks(commands, Front(ins)), Last(ins)).2
  }

  /** The buttons of the valid ticks since the last invalid one. */
  function Streak(ins: seq<Input>): seq<seq<int>> {
    if ins == [] || !Last(ins).valid then [] else Streak(Front(ins)) + [Last(ins).buttons]
  }

  lemma {:induction false} TicksFollowStreaks(commands: seq<Command>, ins: seq<Input>)
    ensures var t, streak := AfterTicks(commands, ins), Streak(ins);
      && (t.inputValid <==> streak != [])
      && (streak != [] ==> t.initialized && t.dispatcher == After(commands, streak))
  {
    if ins != [] {
      TicksFollowStreaks(commands, Front(ins));
      if Last(ins).valid && Streak(Front(ins)) != [] {
        assert Front(Streak(ins)) == Streak(Front(ins)) && Last(Streak(ins)) == Last(ins).buttons;
        AfterIsInitialized(commands, Streak(Front(ins)));
      }
    }
  }

  /** Only a tick of a standing signal runs anything, and then what the dispatcher
      selects at the end of the streak. */
  lemma StandingTick(commands: seq<Command>, ins: seq<Input>)
    requires ins != []
    ensures var standing := |ins| >= 2 && Last(ins).valid && ins[|ins| - 2].valid;
      && (!standing ==> RunAt(commands, ins) == [])
      && (standing ==>
            && |Streak(ins)| >= 2 && RunAt(commands, ins) == Selected(commands, Streak(ins))
            && ZeroedAt(commands, ins) == Zeroed(commands, RunAt(commands, ins))
            && Last(Streak(ins)) == Last(ins).buttons && Streak(ins)[|Streak(ins)| - 2] == ins[|ins| - 2].buttons)
  {
    TicksFollowStreaks(commands, Front(ins));
    if |ins| >= 2 && Last(ins).valid && ins[|ins| - 2].valid {
      assert Front(Streak(ins)) == Streak(Front(ins));
      AfterIsInitialized(commands, Streak(Front(ins)));
    }
  }

  /** A discrete command whose chord decides runs in a tick exactly when this and the
      previous tick are valid, and it matches in this one and did not in that one: a
      switch held at start-up or at recovery, or moved while the signal was lost, never
      runs anything. */
  lemma TicksRunEdgesOnly(commands: seq<Command>, ins: seq<Input>, k: nat)
    requires Distinct(commands) && k < |commands| && ChordDecides(commands[k]) && ins != []
    requires forall n :: 0 <= n < |ins| ==> NonNegative(ins[n].buttons)
    ensures commands[k].name in RunAt(commands, ins) <==>
      && |ins| >= 2 && Last(ins).valid && ins[|ins| - 2].valid
      && Matches(commands[k], Last(ins).buttons) && !Matches(commands[k], ins[|ins| - 2].buttons)
  {
    StandingTick(commands, ins);
    if |ins| >= 2 && Last(ins).valid && ins[|ins| - 2].valid {
      StreakIsNonNegative(ins);
      RisingEdgeExactly(commands, Streak(ins), k);
    }
  }

  lemma {:induction false} StreakIsNonNegative(ins: seq<Input>)
    requires forall n :: 0 <= n < |ins| ==> NonNegative(ins[n].buttons)
    ensures forall n :: 0 <= n < |Streak(ins)| ==> NonNegative(Streak(ins)[n])
  {
    if ins != [] && Last(ins).valid {
      StreakIsNonNegative(Front(ins));
    }
  }

  /** A continuous command is sent zero in every tick without a signal; in every tick of
      a standing signal it either runs, when it matches, or is sent zero. */
  lemma ContinuousRunsOrIsZeroed(commands: seq<Command>, ins: seq<Input>, k: nat)
    requires Distinct(commands) && k < |commands| && commands[k].continuous && ins != []
    ensures var c := commands[k];
      && (!Last(ins).valid ==> c.name in ZeroedAt(commands, ins) && c.name !in RunAt(commands, ins))
      && (|ins| >= 2 && Last(ins).valid && ins[|ins| - 2].valid ==>
            && (c.name in RunAt(commands, ins) <==> Matches(c, Last(ins).buttons))
            && (c.name in ZeroedAt(commands, ins) <==> !Matches(c, Last(ins).buttons)))
  {
    var c := commands[k];
    StandingTick(commands, ins);
    if |ins| >= 2 && Last(ins).valid && ins[|ins| - 2].valid {
      OthersExactly(commands, Streak(ins), k);
    }
    ZeroedOne(commands, RunAt(commands, ins), k);
  }

  lemma ZeroedOne(commands: seq<Command>, names: seq<string>, k: nat)
    requires Distinct(commands) && k < |commands| && commands[k].continuous
    ensures commands[k].name in Zeroed(commands, names) <==> commands[k].name !in names
  {
  }

  // ---------------------------------------------------------------------------
  // The objects
  // ---------------------------------------------------------------------------

  class TeleopNode {
    const commands: seq<Command>
    var initialized: bool
    var matched: map<string, bool>
    var lastButtons: seq<int>
    var inputInitialized: bool
    var inputValid: bool

    ghost function DispatcherValue(): Dispatcher
      reads this
    {
      Dispatcher(initialized, matched, lastButtons)
    }

    ghost function Value(): Teleop
      reads this
    {
      Teleop(DispatcherValue(), inputInitialized, inputValid)
    }

    constructor (commands: seq<Command>)
      ensures this.commands == commands && Value() == NEW_TELEOP
    {
      this.commands := commands;
      initialized, matched, lastButtons := false, map[], [];
      inputInitialized, inputValid := false, false;
    }

    method Synchronize(buttons: seq<int>)
      modifies this`initialized, this`matched, this`lastButtons
      ensures DispatcherValue() == Synchronized(commands, buttons)
    {
      matched := map[];
      for k := 0 to |commands|
        invariant matched == MatchedAll(commands[..k], buttons)
      {
        assert Front(commands[..k + 1]) == commands[..k];
        matched := matched[commands[k].name := Matches(commands[k], buttons)];
      }
      assert commands[..|commands|] == commands;
      lastButtons, initialized := buttons, true;
    }

    method CommandsToRun(buttons: seq<int>) returns (selected: seq<string>)
      modifies this`initialized, this`matched, this`lastButtons
      ensures (DispatcherValue(), selected) == Run(commands, old(DispatcherValue()), buttons)
    {
      selected := [];
      if !initialized {
        Synchronize(buttons);
        return;
      }
      for k := 0 to |commands|
        invariant initialized && lastButtons == old(lastButtons)
        invariant (matched, selected) == Visited(commands[..k], old(matched), lastButtons, buttons)
      {
        assert Front(commands[..k + 1]) == commands[..k];
        var c := commands[k];
        var matches := Matches(c, buttons);
        if c.continuous {
          if matches { selected := selected + [c.name]; }
          matched := matched[c.name := matches];
          continue;
        }
        if c.required == [] { continue; }
        if !Touched(c, lastButtons, buttons) { continue; }
        if matches && !(c.name in matched && matched[c.name]) { selected := selected + [c.name]; }
        matched := matched[c.name := matches];
      }
      assert commands[..|commands|] == commands;
      lastButtons := buttons;
    }

    method OnTick(i: Input) returns (ran: seq<string>, zeroed: set<string>)
      modifies this
      ensures (Value(), ran, zeroed) == Tick(commands, old(Value()), i)
    {
      ran, zeroed := [], {};
      if !i.valid {
        inputValid := false;
        zeroed := Zeroed(commands, []);
        return;
      }
      if !inputInitialized {
        Synchronize(i.buttons);
        inputInitialized, inputValid := true, true;
        return;
      }
      if !inputValid {
        Synchronize(i.buttons);
        inputValid := true;
        return;
      }
      ran := CommandsToRun(i.buttons);
      zeroed := Zeroed(commands, ran);
    }
  }
}

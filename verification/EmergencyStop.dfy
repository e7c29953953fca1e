/**
 The emergency word and the reset target as the callbacks and the control thread
 change them, with the bit operations of the code; `ControlCycle` interleaves these
 operations.
 */
module EmergencyStop {
  import opened Digits
  import opened ControlCycle

  lemma OrOne(x: nat)
    ensures BitOr(x, 1) == if x % 2 == 0 then x + 1 else x
  {
    if x > 0 {
      assert BitOr(x / 2, 0) == x / 2;
    }
  }

  lemma AndOne(x: nat)
    ensures BitAnd(x, 1) != 0 <==> Latched(x)
  {
    AndOfBit(x, 0);
  }

  /** The latch bit survives the wrap of the 32-bit addition, and the generation moves
      on by one modulo 2^31 whether or not the word was latched before. */
  lemma LatchingKeepsLatched(word: nat)
    requires word < WORD_MODULUS
    ensures Latch(word) < WORD_MODULUS && Latched(Latch(word))
    ensures Generation(Latch(word)) == (Generation(word) + 1) % GENERATION_MODULUS
  {
  }

  class EmergencyWord {
    var state: nat
    var resetTarget: nat

    ghost predicate Valid()
      reads this
    {
      state < WORD_MODULUS && resetTarget < WORD_MODULUS
    }

    constructor ()
      ensures Valid() && state == resetTarget == 0
    {
      state, resetTarget := 0, 0;
    }

    /** `latchEmergencyStop`; `failures` is how often the weak compare-exchange fails. */
    method LatchEmergencyStop(failures: nat)
      requires Valid()
      modifies this`state
      ensures Valid() && state == Latch(old(state)) && Latched(state)
    {
      var observed := state;
      var left := failures;
      while true
        invariant Valid() && state == observed == old(state)
        decreases left
      {
        LatchingKeepsLatched(observed);
        OrOne((observed + 2) % WORD_MODULUS);
        var desired := BitOr((observed + 2) % WORD_MODULUS, 1);
        if left == 0 {
          state := desired;
          return;
        }
        left := left - 1;
        observed := state;
      }
    }

    /** The reset callback: the target is the exact word it has seen latched. */
    method RequestReset()
      requires Valid()
      modifies this`resetTarget
      ensures Valid() && resetTarget == if Latched(state) then state else old(resetTarget)
    {
      var observed := state;
      AndOne(observed);
      if BitAnd(observed, 1) != 0 { resetTarget := observed; }
    }

    /** `resetEmergencyStopIfRequested`: the target is used up; it clears the latch and
        nothing but the latch, exactly when the word is still the one it was taken from. */
    method ResetIfRequested() returns (cleared: bool)
      requires Valid()
      modifies this
      ensures Valid() && resetTarget == 0
      ensures cleared <==> Latched(old(resetTarget)) && old(state) == old(resetTarget)
      ensures if cleared then !Latched(state) && Generation(state) == Generation(old(state)) else state == old(state)
    {
      var target := resetTarget;
      resetTarget := 0;
      AndOne(target);
      if BitAnd(target, 1) == 0 { return false; }
      var desired := target - target % 2;
      cleared := state == target;
      if cleared { state := desired; }
    }
  }
}

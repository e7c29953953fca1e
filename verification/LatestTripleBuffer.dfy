/**
 The latest-value mailbox between one producer and one consumer.

 `Mailbox` is the value of the three slots, of the 32-bit word that hands the
 third slot over, and of the two private indices, together with the history the
 properties speak about.  `TripleBuffer` is the mutable object; its methods are
 proved to move `Mailbox` values exactly as the functions here do.
 */
module LatestTripleBuffer {
  import opened Common

  type Word = w: nat | w < 0x1_0000_0000

  const DIRTY_BIT: nat := 0x8000_0000

  /** `word & kDirtyBit` is non-zero. */
  predicate Dirty(word: Word) {
    DIRTY_BIT <= word
  }

  /** `word & kIndexMask`. */
  function IndexOf(word: Word): nat {
    word % 4
  }

  /** What the three indices hold, and, as history, every value published, the
      positions of the consumed ones, and how often `publish` reported that it
      replaced a pending value. */
  datatype Mailbox<T> = Mailbox(
    slots: seq<T>, middle: Word, back: nat, front: nat,
    published: seq<T>, taken: seq<int>, overwritten: nat)
  {
    /** The three indices are a permutation of 0, 1, 2. */
    ghost predicate Owned() {
      && |slots| == 3
      && back < 3 && front < 3 && IndexOf(middle) < 3
      && (middle == IndexOf(middle) || middle == IndexOf(middle) + DIRTY_BIT)
      && back != front && back != IndexOf(middle) && front != IndexOf(middle)
    }

    /** The value handed over but not yet consumed is the last one published; the
        consumer's slot still holds what it consumed last; and no publication
        disappears without being counted. */
    ghost predicate Inv() {
      && Owned()
      && (Dirty(middle) ==> published != [] && slots[IndexOf(middle)] == Last(published))
      && StrictlyIncreasing(taken)
      && (forall i :: 0 <= i < |taken| ==> 0 <= taken[i] < |published|)
      && (taken != [] ==> slots[front] == published[Last(taken)])
      && (Dirty(middle) && taken != [] ==> Last(taken) < |published| - 1)
      && (!Dirty(middle) && published != [] ==> taken != [] && Last(taken) == |published| - 1)
      && |published| == |taken| + overwritten + (if Dirty(middle) then 1 else 0)
    }

    /** The producer stores into the slot it owns; a store of part of a packet is
        a `WriteBack` of the packet with that part changed. */
    function WriteBack(v: T): Mailbox<T>
      requires Owned()
    {
      this.(slots := slots[back := v])
    }

    function Publish(): Mailbox<T>
      requires Owned()
    {
      this.(middle := back + DIRTY_BIT, back := IndexOf(middle),
            published := published + [slots[back]],
            overwritten := overwritten + if Dirty(middle) then 1 else 0)
    }

    /** The successful compare-exchange of `consumeLatest`. */
    function Take(): Mailbox<T>
      requires Owned()
    {
      this.(middle := front, front := IndexOf(middle), taken := taken + [|published| - 1])
    }
  }

  lemma WriteBackKeepsInv<T>(m: Mailbox<T>, v: T)
    requires m.Inv()
    ensures m.WriteBack(v).Inv()
    ensures m.WriteBack(v).slots[m.front] == m.slots[m.front]
  {
  }

  lemma PublishKeepsInv<T>(m: Mailbox<T>)
    requires m.Inv()
    ensures m.Publish().Inv()
    ensures m.Publish().slots[m.front] == m.slots[m.front]
  {
    var p := m.Publish();
    assert forall i :: 0 <= i < |m.taken| ==> p.published[m.taken[i]] == m.published[m.taken[i]];
  }

  lemma TakeKeepsInv<T>(m: Mailbox<T>)
    requires m.Inv() && Dirty(m.middle)
    ensures m.Take().Inv()
    ensures m.Take().slots[m.Take().front] == Last(m.published)
  {
  }

  // ---------------------------------------------------------------------------
  // The object
  // ---------------------------------------------------------------------------

  class TripleBuffer<T> {
    const slots: array<T>
    var middleState: Word
    var backIndex: nat
    var frontIndex: nat
    ghost var published: seq<T>
    ghost var taken: seq<int>
    ghost var overwritten: nat

    ghost function Value(): Mailbox<T>
      reads this, slots
    {
      Mailbox(slots[..], middleState, backIndex, frontIndex, published, taken, overwritten)
    }

    ghost predicate Valid()
      reads this, slots
    {
      Value().Inv()
    }

    constructor (initial: T)
      ensures Valid() && fresh(slots)
      ensures Value() == Mailbox([initial, initial, initial], 1, 2, 0, [], [], 0)
    {
      slots := new T[3](_ => initial);
      middleState, backIndex, frontIndex := 1, 2, 0;
      published, taken, overwritten := [], [], 0;
    }

    /** `producerBuffer()` followed by a store through the reference. */
    method Store(v: T)
      requires Valid()
      modifies slots
      ensures Valid() && Value() == old(Value()).WriteBack(v)
    {
      slots[backIndex] := v;
      assert Value() == old(Value()).WriteBack(v);
      WriteBackKeepsInv(old(Value()), v);
    }

    method Publish() returns (replaced: bool)
      requires Valid()
      modifies this
      ensures Valid() && Value() == old(Value()).Publish()
      ensures replaced <==> old(Value()).overwritten < Value().overwritten
    {
      var previous := middleState;
      middleState := backIndex + DIRTY_BIT;
      published := published + [slots[backIndex]];
      overwritten := overwritten + if Dirty(previous) then 1 else 0;
      backIndex := IndexOf(previous);
      replaced := Dirty(previous);
      PublishKeepsInv(old(Value()));
    }

    /** `failures` is how often the weak compare-exchange fails for no reason. */
    method ConsumeLatest(failures: nat) returns (r: Option<T>)
      requires Valid()
      modifies this
      ensures Valid()
      ensures Dirty(old(middleState)) ==>
                Value() == old(Value()).Take() && r == Some(Last(published)) && slots[frontIndex] == r.value
      ensures !Dirty(old(middleState)) ==> Value() == old(Value()) && r == None
    {
      var state := middleState;
      var left := failures;
      while Dirty(state)
        invariant state == middleState && Value() == old(Value())
        decreases left
      {
        var desired := frontIndex;
        if left == 0 {
          middleState := desired;
          frontIndex := IndexOf(state);
          taken := taken + [|published| - 1];
          TakeKeepsInv(old(Value()));
          return Some(slots[frontIndex]);
        }
        left := left - 1;
        state := middleState;
      }
      return None;
    }
  }
}

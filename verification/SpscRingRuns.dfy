/**
 Every interleaving of the producer and the consumer of the ring: one step for each
 access to an index, and any number of steps while a slot is being written.
 */
module SpscRingRuns {
  import opened SpscRingBuffer

  /** Where the producer is inside `push`; `head` and `next` are its local copies. */
  datatype ProducerPc<T> =
    | Away
    | Loaded(value: T, head: nat)
    | Writing(value: T, head: nat)
    | Wrote(value: T, head: nat)

  datatype ConsumerPc<T> =
    | Outside
    | TailLoaded(tail: nat)
    | Copying(tail: nat)
    | Copied(tail: nat, value: T)

  /** `accepted` are the values whose `push` has taken effect, `popped` those `pop` has
      returned, both in order. */
  datatype State<T> = State(
    slots: seq<T>, head: nat, tail: nat, producer: ProducerPc<T>, consumer: ConsumerPc<T>,
    accepted: seq<T>, popped: seq<T>)

  datatype Step<T> =
    | CallPush(value: T) | LoadTail | Scribble(garbage: T) | FinishWrite | StoreHead
    | CallPop | LoadHead | FinishCopy | StoreTail

  ghost predicate Initial<T>(s: State<T>) {
    && |s.slots| >= 2 && s.head == s.tail == 0 && s.producer == Away && s.consumer == Outside
    && s.accepted == [] && s.popped == []
  }

  /** A step that is not enabled leaves the state as it is. */
  function ProducerStep<T>(s: State<T>, step: Step<T>): State<T>
    requires s.head < |s.slots|
  {
    match (s.producer, step)
    case (Away, CallPush(value)) => s.(producer := Loaded(value, s.head))
    case (Loaded(value, head), LoadTail) =>
      if head < |s.slots| && Increment(head, |s.slots|) == s.tail then s.(producer := Away)
      else s.(producer := Writing(value, head))
    case (Writing(value, head), Scribble(garbage)) =>
      if head < |s.slots| then s.(slots := s.slots[head := garbage]) else s
    case (Writing(value, head), FinishWrite) =>
      if head < |s.slots| then s.(slots := s.slots[head := value], producer := Wrote(value, head)) else s
    case (Wrote(value, head), StoreHead) =>
      if head < |s.slots|
      then s.(head := Increment(head, |s.slots|), producer := Away, accepted := s.accepted + [value]) else s
    case (_, _) => s
  }

  function ConsumerStep<T>(s: State<T>, step: Step<T>): State<T>
    requires s.tail < |s.slots|
  {
    match (s.consumer, step)
    case (Outside, CallPop) => s.(consumer := TailLoaded(s.tail))
    case (TailLoaded(tail), LoadHead) =>
      if tail == s.head then s.(consumer := Outside) else s.(consumer := Copying(tail))
    case (Copying(tail), FinishCopy) =>
      if tail < |s.slots| then s.(consumer := Copied(tail, s.slots[tail])) else s
    case (Copied(tail, value), StoreTail) =>
      if tail < |s.slots|
      then s.(tail := Increment(tail, |s.slots|), consumer := Outside, popped := s.popped + [value]) else s
    case (_, _) => s
  }

  predicate ByProducer<T>(step: Step<T>) {
    step.CallPush? || step.LoadTail? || step.Scribble? || step.FinishWrite? || step.StoreHead?
  }

  function Do<T>(s: State<T>, step: Step<T>): State<T>
    requires s.head < |s.slots| && s.tail < |s.slots|
  {
    if ByProducer(step) then ProducerStep(s, step) else ConsumerStep(s, step)
  }

  // ---------------------------------------------------------------------------
  // The invariant
  // ---------------------------------------------------------------------------

  ghost predicate ProducerOk<T>(s: State<T>)
    requires s.head < |s.slots| && s.tail < |s.slots|
  {
    match s.producer
    case Away => true
    case Loaded(value, head) => head == s.head
    case Writing(value, head) => head == s.head && Increment(head, |s.slots|) != s.tail
    case Wrote(value, head) => head == s.head && Increment(head, |s.slots|) != s.tail && s.slots[head] == value
  }

  ghost predicate ConsumerOk<T>(s: State<T>)
    requires s.head < |s.slots| && s.tail < |s.slots|
  {
    match s.consumer
    case Outside => true
    case TailLoaded(tail) => tail == s.tail
    case Copying(tail) => tail == s.tail != s.head
    case Copied(tail, value) => tail == s.tail != s.head && s.slots[tail] == value
  }

  ghost predicate Inv<T>(s: State<T>) {
    && |s.slots| >= 2 && s.head < |s.slots| && s.tail < |s.slots|
    && ProducerOk(s) && ConsumerOk(s)
    && s.accepted == s.popped + Queued(s.slots, s.tail, s.head)
  }

  lemma ProducerKeepsInv<T>(s: State<T>, step: Step<T>)
    requires Inv(s) && ByProducer(step)
    ensures Inv(ProducerStep(s, step))
  {
    FullExactly(s.tail, s.head, |s.slots|);
    match (s.producer, step) {
      case (Writing(value, head), Scribble(garbage)) => WriteIsOutside(s.slots, s.tail, s.head, garbage);
      case (Writing(value, head), FinishWrite) => WriteIsOutside(s.slots, s.tail, s.head, value);
      case (Wrote(value, head), StoreHead) => StoreHeadKeepsInv(s, value);
      case (_, _) =>
    }
  }

  lemma StoreHeadKeepsInv<T>(s: State<T>, value: T)
    requires Inv(s) && s.producer == Wrote(value, s.head)
    ensures Inv(ProducerStep(s, StoreHead))
  {
    PushAppends(s.slots, s.tail, s.head);
    IncrementWraps(s.head, |s.slots|);
    var queued := Queued(s.slots, s.tail, s.head);
    assert s.popped + (queued + [value]) == s.popped + queued + [value];
  }

  lemma ConsumerKeepsInv<T>(s: State<T>, step: Step<T>)
    requires Inv(s) && !ByProducer(step)
    ensures Inv(ConsumerStep(s, step))
  {
    if s.consumer.Copied? && step.StoreTail? {
      PopRemoves(s.slots, s.tail, s.head);
      FullExactly(s.tail, s.head, |s.slots|);
      IncrementWraps(s.tail, |s.slots|);
      IncrementWraps(s.head, |s.slots|);
      var rest := Queued(s.slots, Increment(s.tail, |s.slots|), s.head);
      assert s.popped + ([s.slots[s.tail]] + rest) == s.popped + [s.slots[s.tail]] + rest;
    }
  }

  ghost predicate Moved<T>(states: seq<State<T>>, steps: seq<Step<T>>, k: nat)
    requires k < |steps| && k + 1 < |states|
  {
    states[k].head < |states[k].slots| && states[k].tail < |states[k].slots| && states[k + 1] == Do(states[k], steps[k])
  }

  /** States of a run: each after the first is one step from the one before it. */
  ghost predicate Run<T>(states: seq<State<T>>, steps: seq<Step<T>>) {
    && |states| == |steps| + 1 && Initial(states[0])
    && forall k :: 0 <= k < |steps| ==> Moved(states, steps, k)
  }

  lemma {:induction false} RunKeepsInv<T>(states: seq<State<T>>, steps: seq<Step<T>>, n: nat)
    requires Run(states, steps) && n < |states|
    ensures Inv(states[n])
  {
    if n > 0 {
      RunKeepsInv(states, steps, n - 1);
      assert Moved(states, steps, n - 1);
      if ByProducer(steps[n - 1]) {
        ProducerKeepsInv(states[n - 1], steps[n - 1]);
      } else {
        ConsumerKeepsInv(states[n - 1], steps[n - 1]);
      }
    }
  }

  // ---------------------------------------------------------------------------
  // Theorems
  // ---------------------------------------------------------------------------

  /** First in, first out, in every interleaving: what has been accepted is what has
      been popped followed by what is queued, which never fills the last slot. */
  lemma AcceptedIsPoppedThenQueued<T>(states: seq<State<T>>, steps: seq<Step<T>>, n: nat)
    requires Run(states, steps) && n < |states|
    ensures var s := states[n];
      && s.head < |s.slots| && s.tail < |s.slots|
      && s.accepted == s.popped + Queued(s.slots, s.tail, s.head)
      && |s.accepted| - |s.popped| <= |s.slots| - 1
  {
    RunKeepsInv(states, steps, n);
  }

  /** The slot the producer is writing is not readable, and the slot the consumer is
      copying is and is not the one being written: no value is torn. */
  lemma SlotsSeparate<T>(states: seq<State<T>>, steps: seq<Step<T>>, n: nat)
    requires Run(states, steps) && n < |states|
    ensures var s := states[n];
      && s.head < |s.slots| && s.tail < |s.slots|
      && (s.producer.Writing? ==>
            && s.producer.head < |s.slots|
            && forall k :: 0 <= k < Count(s.tail, s.head, |s.slots|) ==> SlotAt(s.tail, k, |s.slots|) != s.producer.head)
      && (s.consumer.Copying? ==>
            && |Queued(s.slots, s.tail, s.head)| > 0 && s.consumer.tail == SlotAt(s.tail, 0, |s.slots|)
            && (s.producer.Writing? ==> s.producer.head != s.consumer.tail))
  {
    RunKeepsInv(states, steps, n);
    var s := states[n];
    FullExactly(s.tail, s.head, |s.slots|);
    if s.producer.Writing? { WriteIsOutside(s.slots, s.tail, s.head, s.producer.value); }
  }

  /** A `push` is refused only when the ring is full at the moment it looks at the tail,
      and a `pop` finds nothing only when it is empty at the moment it looks at the head,
      though either may have changed by the time the call returns. */
  lemma RefusalsAreExact<T>(states: seq<State<T>>, steps: seq<Step<T>>, n: nat)
    requires Run(states, steps) && n < |steps|
    ensures var s, t := states[n], states[n + 1];
      && s.head < |s.slots| && s.tail < |s.slots|
      && (s.producer.Loaded? && steps[n] == LoadTail ==>
            (t.producer == Away <==> |Queued(s.slots, s.tail, s.head)| == |s.slots| - 1))
      && (s.consumer.TailLoaded? && steps[n] == LoadHead ==>
            (t.consumer == Outside <==> Queued(s.slots, s.tail, s.head) == []))
  {
    RunKeepsInv(states, steps, n);
    assert Moved(states, steps, n);
    FullExactly(states[n].tail, states[n].head, |states[n].slots|);
  }

  // ---------------------------------------------------------------------------
  // Whole calls
  // ---------------------------------------------------------------------------

  /** The step a thread makes next; a scribble is part of a write that goes on. */
  predicate ProducerNext<T>(s: State<T>, step: Step<T>) {
    match s.producer
    case Away => step.CallPush?
    case Loaded(_, _) => step == LoadTail
    case Writing(_, _) => step == FinishWrite
    case Wrote(_, _) => step == StoreHead
  }

  predicate ConsumerNext<T>(s: State<T>, step: Step<T>) {
    match s.consumer
    case Outside => step == CallPop
    case TailLoaded(_) => step == LoadHead
    case Copying(_) => step == FinishCopy
    case Copied(_, _) => step == StoreTail
  }

  function ProducerRank<T>(pc: ProducerPc<T>): nat {
    match pc
    case Away => 0
    case Loaded(_, _) => 3
    case Writing(_, _) => 2
    case Wrote(_, _) => 1
  }

  function ConsumerRank<T>(pc: ConsumerPc<T>): nat {
    match pc
    case Outside => 0
    case TailLoaded(_) => 3
    case Copying(_) => 2
    case Copied(_, _) => 1
  }

  /** Neither call waits for the other thread: each of its own steps brings it nearer to
      its return, and no step of the other thread takes it back. */
  lemma CallsAreWaitFree<T>(s: State<T>, step: Step<T>)
    requires Inv(s)
    ensures var t := Do(s, step);
      && (s.producer != Away && ProducerNext(s, step) ==> ProducerRank(t.producer) < ProducerRank(s.producer))
      && (s.consumer != Outside && ConsumerNext(s, step) ==> ConsumerRank(t.consumer) < ConsumerRank(s.consumer))
      && (!ByProducer(step) ==> t.producer == s.producer) && (ByProducer(step) ==> t.consumer == s.consumer)
      && (s.producer == Away && step.CallPush? ==> t.producer == Loaded(step.value, s.head))
      && (s.consumer == Outside && step == CallPop ==> t.consumer == TailLoaded(s.tail))
  {
  }

  /** What a push of `value` that began with `before` accepted has done so far. */
  ghost predicate Pushing<T>(value: T, before: seq<T>, s: State<T>) {
    match s.producer
    case Away => false
    case Loaded(v, _) => v == value && s.accepted == before
    case Writing(v, _) => v == value && s.accepted == before
    case Wrote(v, _) => v == value && s.accepted == before
  }

  /** Step `m` found the ring full. */
  ghost predicate FullAt<T>(states: seq<State<T>>, steps: seq<Step<T>>, m: nat)
    requires m < |steps| && m < |states|
  {
    var s := states[m];
    && s.head < |s.slots| && s.tail < |s.slots| && steps[m] == LoadTail
    && |Queued(s.slots, s.tail, s.head)| == |s.slots| - 1
  }

  ghost predicate Pushes<T>(states: seq<State<T>>, steps: seq<Step<T>>, value: T, a: nat, b: nat) {
    && |states| == |steps| + 1 && a < b < |states| && states[a].producer == Away && steps[a] == CallPush(value)
    && forall k :: a < k < b ==> states[k].producer != Away
  }

  lemma PushStep<T>(value: T, before: seq<T>, s: State<T>, step: Step<T>)
    requires Inv(s) && Pushing(value, before, s)
    ensures var t := Do(s, step);
      || Pushing(value, before, t)
      || (t.producer == Away && t.accepted == before && step == LoadTail
          && |Queued(s.slots, s.tail, s.head)| == |s.slots| - 1)
      || (t.producer == Away && t.accepted == before + [value])
  {
    FullExactly(s.tail, s.head, |s.slots|);
  }

  lemma RunStep<T>(states: seq<State<T>>, steps: seq<Step<T>>, n: nat)
    requires Run(states, steps) && n < |steps|
    ensures Inv(states[n]) && states[n + 1] == Do(states[n], steps[n])
  {
    RunKeepsInv(states, steps, n);
    assert Moved(states, steps, n);
  }

  lemma {:induction false} PushGoesOn<T>(states: seq<State<T>>, steps: seq<Step<T>>, value: T, a: nat, b: nat)
    requires Run(states, steps) && Pushes(states, steps, value, a, b) && states[b].producer != Away
    ensures Pushing(value, states[a].accepted, states[b])
    decreases b
  {
    RunStep(states, steps, b - 1);
    if b > a + 1 {
      PushGoesOn(states, steps, value, a, b - 1);
      PushStep(value, states[a].accepted, states[b - 1], steps[b - 1]);
    }
  }

  /** A push that has returned has appended its value, or was refused by a ring that was
      full when it looked; whatever the consumer did meanwhile. */
  lemma PushesAppendOrAreRefused<T>(states: seq<State<T>>, steps: seq<Step<T>>, value: T, a: nat, b: nat)
    requires Run(states, steps) && Pushes(states, steps, value, a, b) && states[b].producer == Away
    ensures || states[b].accepted == states[a].accepted + [value]
            || (states[b].accepted == states[a].accepted && FullAt(states, steps, b - 1))
  {
    RunStep(states, steps, b - 1);
    if b > a + 1 {
      PushGoesOn(states, steps, value, a, b - 1);
      PushStep(value, states[a].accepted, states[b - 1], steps[b - 1]);
    }
  }

  /** What a pop that began with `before` popped has done so far. */
  ghost predicate Popping<T>(before: seq<T>, s: State<T>) {
    s.consumer != Outside && s.popped == before
  }

  ghost predicate EmptyAt<T>(states: seq<State<T>>, steps: seq<Step<T>>, m: nat)
    requires m < |steps| && m < |states|
  {
    var s := states[m];
    s.head < |s.slots| && s.tail < |s.slots| && steps[m] == LoadHead && Queued(s.slots, s.tail, s.head) == []
  }

  ghost predicate Pops<T>(states: seq<State<T>>, steps: seq<Step<T>>, a: nat, b: nat) {
    && |states| == |steps| + 1 && a < b < |states| && states[a].consumer == Outside && steps[a] == CallPop
    && forall k :: a < k < b ==> states[k].consumer != Outside
  }

  lemma PopStep<T>(before: seq<T>, s: State<T>, step: Step<T>)
    requires Inv(s) && Popping(before, s)
    ensures var t := Do(s, step);
      || Popping(before, t)
      || (t.consumer == Outside && t.popped == before && step == LoadHead && Queued(s.slots, s.tail, s.head) == [])
      || (t.consumer == Outside && Queued(s.slots, s.tail, s.head) != []
          && t.popped == before + [Queued(s.slots, s.tail, s.head)[0]])
  {
    FullExactly(s.tail, s.head, |s.slots|);
    if s.consumer.Copied? && step == StoreTail { PopRemoves(s.slots, s.tail, s.head); }
  }

  lemma {:induction false} PopGoesOn<T>(states: seq<State<T>>, steps: seq<Step<T>>, a: nat, b: nat)
    requires Run(states, steps) && Pops(states, steps, a, b) && states[b].consumer != Outside
    ensures Popping(states[a].popped, states[b])
    decreases b
  {
    RunStep(states, steps, b - 1);
    if b > a + 1 {
      PopGoesOn(states, steps, a, b - 1);
      PopStep(states[a].popped, states[b - 1], steps[b - 1]);
    }
  }

  /** A pop that has returned has taken the oldest value of the ring, or the ring was empty
      when it looked. */
  lemma PopsTakeTheOldestOrNothing<T>(states: seq<State<T>>, steps: seq<Step<T>>, a: nat, b: nat)
    requires Run(states, steps) && Pops(states, steps, a, b) && states[b].consumer == Outside
    ensures || (|states[b].popped| == |states[a].popped| + 1 && states[a].popped <= states[b].popped)
            || (states[b].popped == states[a].popped && EmptyAt(states, steps, b - 1))
  {
    RunStep(states, steps, b - 1);
    if b > a + 1 {
      PopGoesOn(states, steps, a, b - 1);
      PopStep(states[a].popped, states[b - 1], steps[b - 1]);
    }
  }
}

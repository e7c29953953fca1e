/**
 Motor feedback: the control thread decimates its samples but queues every change of
 validity; the publisher coalesces what it drains but publishes every such change.
 */
module MotorFeedback {
  import opened Common
  import opened SpscRingBuffer

  /** `cycle` stands for the rest of the payload. */
  datatype Sample = Sample(cycle: nat, dataValid: bool, transition: bool)

  // ---------------------------------------------------------------------------
  // The producer
  // ---------------------------------------------------------------------------

  /** `queued_feedback_validity_initialized_` with `last_queued_feedback_valid_`,
      `read_publish_counter_` and `motorFeedbackDropped_`. */
  datatype Producer = Producer(lastQueued: Option<bool>, counter: nat, dropped: nat)

  const NEW_PRODUCER: Producer := Producer(None, 0, 0)

  /** One call: the cycle's number and validity, and whether the ring has room. */
  datatype Call = Call(cycle: nat, dataValid: bool, room: bool)

  predicate Changed(p: Producer, c: Call) {
    p.lastQueued != Some(c.dataValid)
  }

  predicate Wanted(decimation: nat, p: Producer, c: Call)
    requires decimation >= 1
  {
    p.counter % decimation == 0 || Changed(p, c)
  }

  /** `enqueueMotorFeedbackSample`: the new state, and the sample if it was queued. */
  function Enqueue(decimation: nat, p: Producer, c: Call): (Producer, seq<Sample>)
    requires decimation >= 1
  {
    var q := p.(counter := p.counter + 1);
    if !Wanted(decimation, p, c) then (q, [])
    else if c.room then (q.(lastQueued := Some(c.dataValid)), [Sample(c.cycle, c.dataValid, Changed(p, c))])
    else (q.(dropped := p.dropped + 1), [])
  }

  function ProducerAfter(decimation: nat, calls: seq<Call>): Producer
    requires decimation >= 1
  {
    if calls == [] then NEW_PRODUCER
    else Enqueue(decimation, ProducerAfter(decimation, Front(calls)), Last(calls)).0
  }

  /** Everything queued by a run of calls. */
  function Accepted(decimation: nat, calls: seq<Call>): seq<Sample>
    requires decimation >= 1
  {
    if calls == [] then []
    else
      Accepted(decimation, Front(calls))
      + Enqueue(decimation, ProducerAfter(decimation, Front(calls)), Last(calls)).1
  }

  // ---------------------------------------------------------------------------
  // The publisher
  // ---------------------------------------------------------------------------

  /** What one drain publishes of the samples it pops, `pending` being the latest
      regular sample so far. */
  function Coalesce(batch: seq<Sample>, pending: Option<Sample>): seq<Sample> {
    if batch == [] then (if pending.Some? then [pending.value] else [])
    else if batch[0].transition then [batch[0]] + Coalesce(batch[1..], None)
    else Coalesce(batch[1..], Some(batch[0]))
  }

  function Concat(batches: seq<seq<Sample>>): seq<Sample> {
    if batches == [] then [] else batches[0] + Concat(batches[1..])
  }

  function Published(drains: seq<seq<Sample>>): seq<Sample> {
    if drains == [] then [] else Coalesce(drains[0], None) + Published(drains[1..])
  }

  // ---------------------------------------------------------------------------
  // Streams of validity
  // ---------------------------------------------------------------------------

  function Validity(s: seq<Sample>): seq<bool> {
    seq(|s|, k requires 0 <= k < |s| => s[k].dataValid)
  }

  /** The values of `vs` with immediate repetitions removed, `before` coming first. */
  function Destutter(before: Option<bool>, vs: seq<bool>): seq<bool>
    decreases |vs|
  {
    if vs == [] then []
    else if before == Some(vs[0]) then Destutter(before, vs[1..])
    else [vs[0]] + Destutter(Some(vs[0]), vs[1..])
  }

  function Transitions(s: seq<Sample>): seq<Sample> {
    if s == [] then []
    else if s[0].transition then [s[0]] + Transitions(s[1..])
    else Transitions(s[1..])
  }

  /** The validity before position `k`. */
  function Before(before: Option<bool>, s: seq<Sample>, k: nat): Option<bool>
    requires k <= |s|
  {
    if k == 0 then before else Some(s[k - 1].dataValid)
  }

  /** Exactly the samples that change the validity are marked as transitions. */
  ghost predicate Marked(before: Option<bool>, s: seq<Sample>) {
    forall k :: 0 <= k < |s| ==> (s[k].transition <==> Before(before, s, k) != Some(s[k].dataValid))
  }

  // ---------------------------------------------------------------------------
  // Theorems about the producer
  // ---------------------------------------------------------------------------

  /** The queued stream marks exactly its own changes of validity, also when samples
      were dropped in between; the producer remembers the last one queued. */
  lemma {:induction false} AcceptedIsMarked(decimation: nat, calls: seq<Call>)
    requires decimation >= 1
    ensures var s := Accepted(decimation, calls);
      && Marked(None, s)
      && ProducerAfter(decimation, calls).lastQueued == Before(None, s, |s|)
      && ProducerAfter(decimation, calls).counter == |calls|
  {
    if calls != [] {
      AcceptedIsMarked(decimation, Front(calls));
      var s := Accepted(decimation, Front(calls));
      var t := Accepted(decimation, calls);
      forall k | 0 <= k < |t| ensures t[k].transition <==> Before(None, t, k) != Some(t[k].dataValid) {
        if k < |s| { assert t[k] == s[k] && Before(None, t, k) == Before(None, s, k); }
      }
    }
  }

  /** The calls whose sample has to be queued: every `decimation`-th, from the first on, and
      those whose validity is not that of the sample queued last. */
  function Due(decimation: nat, calls: seq<Call>): (n: nat)
    requires decimation >= 1
    ensures n <= |calls|
  {
    if calls == [] then 0
    else
      var queued := Accepted(decimation, Front(calls));
      var edge := queued == [] || Last(queued).dataValid != Last(calls).dataValid;
      Due(decimation, Front(calls)) + if (|calls| - 1) % decimation == 0 || edge then 1 else 0
  }

  /** None of them is lost without being counted, and no other is queued. */
  lemma {:induction false} DueAreQueuedOrCounted(decimation: nat, calls: seq<Call>)
    requires decimation >= 1
    ensures |Accepted(decimation, calls)| + ProducerAfter(decimation, calls).dropped == Due(decimation, calls)
  {
    if calls != [] {
      DueAreQueuedOrCounted(decimation, Front(calls));
      AcceptedIsMarked(decimation, Front(calls));
    }
  }

  /** After every call the queue either ends with this cycle's validity, or has counted
      a dropped sample; so an edge that found no room is tried again. Every
      `decimation`-th call queues its sample or counts it as dropped. */
  lemma EdgesAreNotLost(decimation: nat, calls: seq<Call>)
    requires decimation >= 1 && calls != []
    ensures var p, q := ProducerAfter(decimation, Front(calls)), ProducerAfter(decimation, calls);
      var s, t := Accepted(decimation, Front(calls)), Accepted(decimation, calls);
      && (q.dropped == p.dropped ==> t != [] && Last(t).dataValid == Last(calls).dataValid)
      && (Last(calls).room ==> q.dropped == p.dropped)
      && (q.dropped > p.dropped ==> t == s)
      && ((|calls| - 1) % decimation == 0 ==>
            t == s + [Sample(Last(calls).cycle, Last(calls).dataValid, Changed(p, Last(calls)))] || q.dropped == p.dropped + 1)
  {
    AcceptedIsMarked(decimation, Front(calls));
    AcceptedIsMarked(decimation, calls);
  }

  // ---------------------------------------------------------------------------
  // Theorems about the publisher
  // ---------------------------------------------------------------------------

  lemma MarkedRest(before: Option<bool>, s: seq<Sample>)
    requires Marked(before, s) && s != []
    ensures Marked(Some(s[0].dataValid), s[1..])
    ensures s[0].transition <==> before != Some(s[0].dataValid)
  {
    forall k | 0 <= k < |s| - 1
      ensures s[1..][k].transition <==> Before(Some(s[0].dataValid), s[1..], k) != Some(s[1..][k].dataValid)
    {
      assert s[1..][k] == s[k + 1];
      assert Before(Some(s[0].dataValid), s[1..], k) == Before(before, s, k + 1);
    }
  }

  lemma ValidityRest(s: seq<Sample>)
    requires s != []
    ensures Validity(s)[1..] == Validity(s[1..]) && Validity(s)[0] == s[0].dataValid
  {
  }

  lemma {:induction false} CoalesceKeepsValidity(before: Option<bool>, pending: Option<Sample>, batch: seq<Sample>)
    requires Marked(before, batch)
    requires pending.Some? ==> before == Some(pending.value.dataValid)
    ensures Destutter(before, Validity(Coalesce(batch, pending))) == Destutter(before, Validity(batch))
    decreases |batch|
  {
    if batch != [] {
      MarkedRest(before, batch);
      ValidityRest(batch);
      if batch[0].transition {
        ValidityRest(Coalesce(batch, pending));
        CoalesceKeepsValidity(Some(batch[0].dataValid), None, batch[1..]);
        assert Coalesce(batch, pending)[1..] == Coalesce(batch[1..], None);
      } else {
        CoalesceKeepsValidity(before, Some(batch[0]), batch[1..]);
      }
    }
  }

  /** A drain that pops anything ends by publishing the last sample it popped, and what
      it publishes before that are transitions. */
  lemma {:induction false} DrainEndsWithTheLatest(batch: seq<Sample>, pending: Option<Sample>)
    ensures var p := Coalesce(batch, pending);
      && (batch != [] ==> p != [] && Last(p) == Last(batch))
      && forall k :: 0 <= k < |p| - 1 ==> p[k].transition
    decreases |batch|
  {
    if batch != [] {
      if batch[0].transition {
        DrainEndsWithTheLatest(batch[1..], None);
      } else {
        DrainEndsWithTheLatest(batch[1..], Some(batch[0]));
      }
    }
  }

  lemma {:induction false} CoalesceKeepsTransitions(batch: seq<Sample>, pending: Option<Sample>)
    requires pending.Some? ==> !pending.value.transition
    ensures Transitions(Coalesce(batch, pending)) == Transitions(batch)
    decreases |batch|
  {
    if batch != [] {
      if batch[0].transition {
        CoalesceKeepsTransitions(batch[1..], None);
        assert Coalesce(batch, pending)[1..] == Coalesce(batch[1..], None);
      } else {
        CoalesceKeepsTransitions(batch[1..], Some(batch[0]));
      }
    }
  }

  lemma {:induction false} TransitionsAppend(a: seq<Sample>, b: seq<Sample>)
    ensures Transitions(a + b) == Transitions(a) + Transitions(b)
    decreases |a|
  {
    if a == [] {
      assert a + b == b;
    } else {
      TransitionsAppend(a[1..], b);
      assert (a + b)[1..] == a[1..] + b;
    }
  }

  lemma {:induction false} DestutterAppend(before: Option<bool>, a: seq<Sample>, b: seq<Sample>)
    ensures Destutter(before, Validity(a + b))
      == Destutter(before, Validity(a)) + Destutter(Before(before, a, |a|), Validity(b))
    decreases |a|
  {
    if a == [] {
      assert a + b == b;
    } else {
      ValidityRest(a);
      ValidityRest(a + b);
      assert (a + b)[1..] == a[1..] + b;
      DestutterAppend(Some(a[0].dataValid), a[1..], b);
      assert Before(Some(a[0].dataValid), a[1..], |a| - 1) == Before(before, a, |a|);
    }
  }

  lemma MarkedParts(before: Option<bool>, a: seq<Sample>, b: seq<Sample>)
    requires Marked(before, a + b)
    ensures Marked(before, a) && Marked(Before(before, a, |a|), b)
  {
    forall k | 0 <= k < |a| ensures a[k].transition <==> Before(before, a, k) != Some(a[k].dataValid) {
      assert (a + b)[k] == a[k] && Before(before, a + b, k) == Before(before, a, k);
    }
    forall k | 0 <= k < |b|
      ensures b[k].transition <==> Before(Before(before, a, |a|), b, k) != Some(b[k].dataValid)
    {
      assert (a + b)[|a| + k] == b[k];
      assert Before(before, a + b, |a| + k) == Before(Before(before, a, |a|), b, k);
    }
  }

  lemma {:induction false} DrainsKeepValidity(before: Option<bool>, drains: seq<seq<Sample>>)
    requires Marked(before, Concat(drains))
    ensures Destutter(before, Validity(Published(drains))) == Destutter(before, Validity(Concat(drains)))
    ensures Transitions(Published(drains)) == Transitions(Concat(drains))
    decreases |drains|
  {
    if drains != [] {
      var batch, rest := drains[0], drains[1..];
      MarkedParts(before, batch, Concat(rest));
      CoalesceKeepsValidity(before, None, batch);
      CoalesceKeepsTransitions(batch, None);
      DrainEndsWithTheLatest(batch, None);
      DrainsKeepValidity(Before(before, batch, |batch|), rest);
      DestutterAppend(before, batch, Concat(rest));
      DestutterAppend(before, Coalesce(batch, None), Published(rest));
      TransitionsAppend(batch, Concat(rest));
      TransitionsAppend(Coalesce(batch, None), Published(rest));
    }
  }

  /** However the drains cut up the queued stream, the published validity is stutter
      equivalent to the queued one, and every transition is published, in order. */
  lemma PublicationIsStutterEquivalent(decimation: nat, calls: seq<Call>, drains: seq<seq<Sample>>)
    requires decimation >= 1 && Concat(drains) == Accepted(decimation, calls)
    ensures Destutter(None, Validity(Published(drains))) == Destutter(None, Validity(Accepted(decimation, calls)))
    ensures Transitions(Published(drains)) == Transitions(Accepted(decimation, calls))
  {
    AcceptedIsMarked(decimation, calls);
    DrainsKeepValidity(None, drains);
  }

  /** The transitions alone already spell the validity of the whole queued stream. */
  lemma {:induction false} TransitionsSpellValidity(before: Option<bool>, s: seq<Sample>)
    requires Marked(before, s)
    ensures Validity(Transitions(s)) == Destutter(before, Validity(s))
    decreases |s|
  {
    if s != [] {
      MarkedRest(before, s);
      ValidityRest(s);
      TransitionsSpellValidity(Some(s[0].dataValid), s[1..]);
      if s[0].transition {
        ValidityRest(Transitions(s));
        assert Transitions(s)[1..] == Transitions(s[1..]);
        assert Validity(Transitions(s)) == [s[0].dataValid] + Validity(Transitions(s[1..]));
      }
    }
  }

  // ---------------------------------------------------------------------------
  // The objects
  // ---------------------------------------------------------------------------

  class FeedbackQueue {
    const decimation: nat
    const ring: Ring<Sample>
    var validityInitialized: bool
    var lastQueuedValid: bool
    var publishCounter: nat
    var dropped: nat

    ghost predicate Valid()
      reads this, ring
    {
      decimation >= 1 && ring.Valid()
    }

    ghost function Value(): Producer
      reads this
    {
      Producer(if validityInitialized then Some(lastQueuedValid) else None, publishCounter, dropped)
    }

    constructor (decimation: nat)
      requires decimation >= 1
      ensures Valid() && this.decimation == decimation && Value() == NEW_PRODUCER
      ensures fresh(ring) && fresh(ring.slots) && ring.Contents() == [] && ring.slots.Length == 256
    {
      this.decimation := decimation;
      ring := new Ring<Sample>(256);
      validityInitialized, lastQueuedValid, publishCounter, dropped := false, false, 0, 0;
    }

    method EnqueueSample(cycle: nat, dataValid: bool)
      requires Valid()
      modifies this, ring, ring.slots
      ensures Valid()
      ensures var call := Call(cycle, dataValid, |old(ring.Contents())| < ring.slots.Length - 1);
        && Value() == Enqueue(decimation, old(Value()), call).0
        && ring.Contents() == old(ring.Contents()) + Enqueue(decimation, old(Value()), call).1
    {
      var validityChanged := !validityInitialized || dataValid != lastQueuedValid;
      var periodic := publishCounter % decimation == 0;
      publishCounter := publishCounter + 1;
      if !periodic && !validityChanged { return; }
      var accepted := ring.Push(Sample(cycle, dataValid, validityChanged));
      if accepted {
        validityInitialized, lastQueuedValid := true, dataValid;
      } else {
        dropped := dropped + 1;
      }
    }

    /** One drain, with nothing queued meanwhile. */
    method Drain() returns (published: seq<Sample>)
      requires Valid()
      modifies ring
      ensures Valid() && ring.Contents() == [] && published == Coalesce(old(ring.Contents()), None)
    {
      published := [];
      var none := Sample(0, false, false);
      var latest: Option<Sample> := None;
      var some, sample := ring.Pop(none);
      while some
        invariant Valid()
        invariant some ==>
          published + Coalesce([sample] + ring.Contents(), latest) == Coalesce(old(ring.Contents()), None)
        invariant !some ==> ring.Contents() == [] && published + Coalesce([], latest) == Coalesce(old(ring.Contents()), None)
        decreases |ring.Contents()| + if some then 1 else 0
      {
        if sample.transition {
          latest := None;
          published := published + [sample];
        } else {
          latest := Some(sample);
        }
        some, sample := ring.Pop(none);
      }
      if latest.Some? { published := published + [latest.value]; }
    }
  }
}

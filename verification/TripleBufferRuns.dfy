/**
 Every interleaving of one producer and one consumer of the latest-value mailbox,
 one atomic operation or one partial store at a time.
 */
module TripleBufferRuns {
  import opened Common
  import opened LatestTripleBuffer

  /** Where the consumer stands in `consumeLatest`; `seen` is the word it loaded,
      which the producer may have replaced since. */
  datatype Consumer = Outside | Looping(seen: Word)

  datatype System<T> = System(box: Mailbox<T>, consumer: Consumer)

  datatype Step<T> =
    | Store(value: T)            // producer: one store into producerBuffer()
    | Exchange                   // producer: publish()
    | Load                       // consumer: the acquire load
    | Swap                       // consumer: the compare-exchange succeeds
    | Refuse                     // consumer: it fails, spuriously or not, and reloads
    | GiveUp                     // consumer: the word is clean, return nullptr

  ghost predicate Enabled<T>(s: System<T>, step: Step<T>) {
    match step
    case Store(_) => true
    case Exchange => true
    case Load => s.consumer.Outside?
    case Swap => s.consumer.Looping? && Dirty(s.consumer.seen) && s.box.middle == s.consumer.seen
    case Refuse => s.consumer.Looping? && Dirty(s.consumer.seen)
    case GiveUp => s.consumer.Looping? && !Dirty(s.consumer.seen)
  }

  function Do<T>(s: System<T>, step: Step<T>): System<T>
    requires s.box.Owned()
  {
    match step
    case Store(v) => s.(box := s.box.WriteBack(v))
    case Exchange => s.(box := s.box.Publish())
    case Load => s.(consumer := Looping(s.box.middle))
    case Swap => System(s.box.Take(), Outside)
    case Refuse => s.(consumer := Looping(s.box.middle))
    case GiveUp => s.(consumer := Outside)
  }

  /** The premise leaves nothing out: every state of a run is `Owned`. */
  ghost predicate Next<T>(s: System<T>, step: Step<T>, t: System<T>) {
    s.box.Owned() ==> Enabled(s, step) && t == Do(s, step)
  }

  /** A run from the state the constructor and `initialize` leave. */
  ghost predicate Run<T>(states: seq<System<T>>, steps: seq<Step<T>>) {
    && |states| == |steps| + 1
    && (var b := states[0].box;
        && |b.slots| == 3 && b.middle == 1 && b.back == 2 && b.front == 0
        && b.published == [] && b.taken == [] && b.overwritten == 0)
    && states[0].consumer == Outside
    && (forall i {:trigger steps[i]} :: 0 <= i < |steps| ==> Next(states[i], steps[i], states[i + 1]))
  }

  lemma {:induction false} RunKeepsInv<T>(states: seq<System<T>>, steps: seq<Step<T>>, n: nat)
    requires Run(states, steps) && n < |states|
    ensures states[n].box.Inv()
  {
    if n > 0 {
      RunKeepsInv(states, steps, n - 1);
      var s := states[n - 1];
      match steps[n - 1]
      case Store(v) => WriteBackKeepsInv(s.box, v);
      case Exchange => PublishKeepsInv(s.box);
      case Swap => TakeKeepsInv(s.box);
      case _ =>
    }
  }

  lemma OnlySwapMovesTheFront<T>(s: System<T>, step: Step<T>)
    requires s.box.Inv() && Enabled(s, step) && step != Swap
    ensures var t := Do(s, step);
      && t.box.taken == s.box.taken && t.box.front == s.box.front
      && |t.box.slots| == 3 && t.box.slots[t.box.front] == s.box.slots[s.box.front]
  {
  }

  /** In every interleaving: a consumption returns the value published last at the
      moment of its compare-exchange, that value is newer than every one consumed
      before, and until the next consumption no producer step touches it. */
  lemma {:induction false} ConsumptionIsLatestAndStable<T>(
      states: seq<System<T>>, steps: seq<Step<T>>, n: nat, m: nat)
    requires Run(states, steps) && n < m < |states| && steps[n] == Swap
    requires forall i :: n < i < m ==> steps[i] != Swap
    ensures states[n].box.published != []
    ensures states[m].box.Inv() && states[m].box.taken != []
    ensures states[m].box.slots[states[m].box.front] == Last(states[n].box.published)
    ensures Last(states[m].box.taken) == |states[n].box.published| - 1
    ensures forall i :: 0 <= i < |states[n].box.taken| ==>
              states[n].box.taken[i] < |states[n].box.published| - 1
  {
    RunKeepsInv(states, steps, m);
    RunKeepsInv(states, steps, m - 1);
    if m == n + 1 {
      TakeKeepsInv(states[n].box);
    } else {
      ConsumptionIsLatestAndStable(states, steps, n, m - 1);
      OnlySwapMovesTheFront(states[m - 1], steps[m - 1]);
    }
  }

  /** The slot the producer is storing into, the slot in transit and the slot the
      consumer reads are three different slots at every step, and every publication
      was consumed, reported as overwritten, or is still pending. */
  lemma SlotsSeparateAndPublicationsConserved<T>(states: seq<System<T>>, steps: seq<Step<T>>, n: nat)
    requires Run(states, steps) && n < |states|
    ensures var b := states[n].box;
      && {b.back, IndexOf(b.middle), b.front} == {0, 1, 2}
      && |b.published| == |b.taken| + b.overwritten + (if Dirty(b.middle) then 1 else 0)
  {
    RunKeepsInv(states, steps, n);
  }
}

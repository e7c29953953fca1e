/**
 The hardware control cycle as a fail-closed chain: feedback is read and the CAN
 counters are watched, the controller commands, `write` builds the command image
 behind its gate, and the bus exchanges it.
 */
module FailClosed {
  import opened Common
  import opened E2JointMap
  import opened CanErrorDetector
  import opened CanFaultChain
  import EthercatWkc

  /** The parts of `E2MotorData` that `write` uses. */
  datatype Joint = Joint(pos: Float, posDes: Float, velDes: Float, kp: Float, kd: Float, ff: Float)

  /** The five values of one motor in `control_fsm_data`. */
  datatype Pvt = Pvt(kp: Float, kd: Float, pos: Float, vel: Float, tor: Float)

  const ZERO_COMMAND: Pvt := Pvt(ZERO, ZERO, ZERO, ZERO, ZERO)
  const DAMPING: Float := Finite(3.1415)

  /** Rounding to single precision overflows from here on: the largest finite value
      plus half a unit in its last place. */
  const FLOAT_OVERFLOW: real := 340282356779733661637539395458142568448.0

  /** `std::isfinite(static_cast<float>(x))`. */
  predicate FloatFinite(x: Float) {
    x.Finite? && -FLOAT_OVERFLOW < x.value < FLOAT_OVERFLOW
  }

  /** `SanitizePvtCommandValues` accepts. */
  predicate Encodable(p: Pvt) {
    FloatFinite(p.kp) && FloatFinite(p.kd) && FloatFinite(p.pos) && FloatFinite(p.vel) && FloatFinite(p.tor)
  }

  function Minus(x: Float, bias: real): Float {
    if x.Finite? then Finite(x.value - bias) else NonFinite
  }

  /** What the four latches and the last cycle say when `write` looks at them. */
  datatype Gate = Gate(lastCycleValid: bool, busFaulted: bool, canFaulted: bool, nonFiniteLatched: bool)

  predicate Closed(g: Gate) {
    !g.lastCycleValid || g.busFaulted || g.canFaulted || g.nonFiniteLatched
  }

  function Damped(j: Joint): Joint {
    Joint(j.pos, j.pos, ZERO, ZERO, DAMPING, ZERO)
  }

  /** The parallel solvers replace the feedforward of the joints they drive, whatever
      `solved` they compute. */
  function Solved(j: Joint, channel: Channel, solved: Float): Joint {
    if channel.directPd then j else j.(ff := solved)
  }

  function Mapped(j: Joint, channel: Channel, bias: real): Pvt {
    Pvt(if channel.directPd then j.kp else ZERO, if channel.directPd then j.kd else ZERO,
        Minus(j.posDes, bias), j.velDes, j.ff)
  }

  /** What `write` is given: the joints as the read and the controller left them, the
      solvers' results, and the position offsets. */
  datatype Commands = Commands(joints: seq<Joint>, solved: seq<Float>, bias: seq<real>)
  {
    predicate Valid() { |joints| == |solved| == |bias| == JOINT_COUNT }
  }

  function Gated(g: Gate, j: Joint): Joint {
    if Closed(g) then Damped(j) else j
  }

  /** The image before the finite check, by joint. */
  function Drafted(g: Gate, c: Commands): (r: seq<Pvt>)
    requires c.Valid()
    ensures |r| == JOINT_COUNT
  {
    seq(JOINT_COUNT, k requires 0 <= k < JOINT_COUNT =>
      Mapped(Solved(Gated(g, c.joints[k]), CHANNELS[k], c.solved[k]), CHANNELS[k], c.bias[k]))
  }

  predicate AllEncodable(image: seq<Pvt>) {
    forall k :: 0 <= k < |image| ==> Encodable(image[k])
  }

  /** `location`, the number under which a motor is reported, is the first, in the order of the groups, that does not encode. */
  ghost predicate FirstSpoiled(image: seq<Pvt>, location: int)
    requires |image| == JOINT_COUNT
  {
    exists k :: 0 <= k < JOINT_COUNT && CHANNELS[k].group * 6 + CHANNELS[k].slot == location && !Encodable(image[k])
                && forall n :: 0 <= n < JOINT_COUNT && CHANNELS[n].group * 6 + CHANNELS[n].slot < location ==>
                     Encodable(image[n])
  }

  function ZeroImage(): (r: seq<Pvt>)
    ensures |r| == JOINT_COUNT && forall k :: 0 <= k < JOINT_COUNT ==> r[k] == ZERO_COMMAND
  {
    seq(JOINT_COUNT, _ => ZERO_COMMAND)
  }

  /** The image that goes to the bus, by joint. */
  function Written(g: Gate, c: Commands): (r: seq<Pvt>)
    requires c.Valid()
    ensures |r| == JOINT_COUNT
  {
    if AllEncodable(Drafted(g, c)) then Drafted(g, c) else ZeroImage()
  }

  // ---------------------------------------------------------------------------
  // What an image may be
  // ---------------------------------------------------------------------------

  /** `y` is `x` seen from the joint's zero position. */
  predicate Shifted(x: Float, bias: real, y: Float) {
    if x.Finite? then y.Finite? && y.value + bias == x.value else y == NonFinite
  }

  /** A direct joint is held where it is by damping alone; a parallel joint has neither
      gains nor a desired velocity. */
  predicate SafeCommand(p: Pvt, channel: Channel, pos: Float, bias: real) {
    && p.kp == Finite(0.0) && p.vel == Finite(0.0) && Shifted(pos, bias, p.pos)
    && (if channel.directPd then p.kd == Finite(3.1415) && p.tor == Finite(0.0) else p.kd == Finite(0.0))
  }

  /** A zero command does nothing at all: no gain, no torque. */
  predicate Nothing(p: Pvt) {
    p.kp == Finite(0.0) && p.kd == Finite(0.0) && p.pos == Finite(0.0) && p.vel == Finite(0.0) && p.tor == Finite(0.0)
  }

  ghost predicate SafeImage(image: seq<Pvt>, c: Commands)
    requires c.Valid() && |image| == JOINT_COUNT
  {
    forall k :: 0 <= k < JOINT_COUNT ==> SafeCommand(image[k], CHANNELS[k], c.joints[k].pos, c.bias[k])
  }

  ghost predicate FailsClosed(image: seq<Pvt>, c: Commands)
    requires c.Valid() && |image| == JOINT_COUNT
  {
    (forall k :: 0 <= k < JOINT_COUNT ==> Nothing(image[k])) || SafeImage(image, c)
  }

  lemma ClosedGateFailsClosed(g: Gate, c: Commands)
    requires c.Valid() && Closed(g)
    ensures FailsClosed(Written(g, c), c)
  {
    var image := Drafted(g, c);
    forall k | 0 <= k < JOINT_COUNT ensures SafeCommand(image[k], CHANNELS[k], c.joints[k].pos, c.bias[k]) {
    }
    assert forall k :: 0 <= k < JOINT_COUNT ==> Nothing(ZeroImage()[k]);
  }

  /** The single-precision encoder would turn `x` into an infinity or not a number. */
  predicate Overflows(x: Float) {
    || x.NonFinite? || x.value >= 340282356779733661637539395458142568448.0
    || x.value <= -340282356779733661637539395458142568448.0
  }

  predicate OverflowsShifted(x: Float, bias: real) {
    x.NonFinite? || Overflows(Finite(x.value - bias))
  }

  /** What can spoil the command of a joint: with the gate closed only the position that
      was measured and a solver's torque; with the gate open everything that is passed
      on, which on a parallel joint are neither gains nor feedforward. */
  predicate Spoils(g: Gate, channel: Channel, j: Joint, solved: Float, bias: real) {
    || OverflowsShifted(if Closed(g) then j.pos else j.posDes, bias)
    || (!Closed(g) && Overflows(j.velDes))
    || (!Closed(g) && channel.directPd && (Overflows(j.kp) || Overflows(j.kd) || Overflows(j.ff)))
    || (!channel.directPd && Overflows(solved))
  }

  lemma SpoilsOne(g: Gate, channel: Channel, j: Joint, solved: Float, bias: real)
    ensures Encodable(Mapped(Solved(Gated(g, j), channel, solved), channel, bias)) <==> !Spoils(g, channel, j, solved, bias)
  {
  }

  /** The image is zeroed exactly when some joint's command cannot be encoded. */
  lemma ZeroedExactly(g: Gate, c: Commands)
    requires c.Valid()
    ensures AllEncodable(Drafted(g, c)) <==>
      forall k :: 0 <= k < JOINT_COUNT ==> !Spoils(g, CHANNELS[k], c.joints[k], c.solved[k], c.bias[k])
    ensures Written(g, c) == if AllEncodable(Drafted(g, c)) then Drafted(g, c) else ZeroImage()
  {
    forall k | 0 <= k < JOINT_COUNT
      ensures Encodable(Drafted(g, c)[k]) <==> !Spoils(g, CHANNELS[k], c.joints[k], c.solved[k], c.bias[k])
    {
      SpoilsOne(g, CHANNELS[k], c.joints[k], c.solved[k], c.bias[k]);
    }
  }

  /** No image is partly zeroed: it is zero throughout, or every value of it encodes. */
  lemma ImagesAreWhole(g: Gate, c: Commands)
    requires c.Valid()
    ensures AllEncodable(Written(g, c))
    ensures Written(g, c) == Drafted(g, c) || Written(g, c) == ZeroImage()
  {
  }

  /** With the gate open and every value finite, each motor gets exactly what was
      commanded for its joint, and only then. */
  predicate PassedThrough(image: seq<Pvt>, c: Commands)
    requires c.Valid() && |image| == JOINT_COUNT
  {
    forall k :: 0 <= k < JOINT_COUNT ==> Obeys(image[k], CHANNELS[k], c.joints[k], c.solved[k], c.bias[k])
  }

  /** The desired position, seen from the joint's zero, and the desired velocity; on a
      direct joint the gains and the feedforward of the controller, on a parallel one no
      gains and the torque its solver has computed. */
  predicate Obeys(p: Pvt, channel: Channel, j: Joint, solved: Float, bias: real) {
    && Shifted(j.posDes, bias, p.pos) && p.vel == j.velDes
    && (if channel.directPd then p.kp == j.kp && p.kd == j.kd && p.tor == j.ff
        else p.kp == Finite(0.0) && p.kd == Finite(0.0) && p.tor == solved)
  }

  lemma OpenGatePassesThrough(g: Gate, c: Commands)
    requires c.Valid() && !Closed(g)
    ensures if AllEncodable(Drafted(g, c)) then PassedThrough(Written(g, c), c) else Written(g, c) == ZeroImage()
  {
  }

  // ---------------------------------------------------------------------------
  // Runs of control cycles
  // ---------------------------------------------------------------------------

  /** `canEventDropped` and the event queue are bookkeeping and left out. */
  datatype Hardware = Hardware(chain: Chain, bus: EthercatWkc.Bus, nonFiniteLatched: bool)

  const POWER_ON: Hardware := Hardware(Initial(UNLATCHED), EthercatWkc.NEW_BUS, false)

  /** `canErrorDetectionEnabled_` and the detector's settings. */
  datatype Config = Config(canEnabled: bool, settings: Settings)

  datatype Cycle = Cycle(counters: seq<nat>, commands: Commands, exchange: EthercatWkc.Exchange)
  {
    predicate Valid() { |counters| == CHANNEL_COUNT && commands.Valid() }
  }

  /** `read`: the counters of a stale image are not looked at. */
  function AfterRead(cfg: Config, h: Hardware, i: Cycle): (r: Hardware)
    requires i.Valid() && |h.chain.monitors| == CHANNEL_COUNT
    ensures |r.chain.monitors| == CHANNEL_COUNT
  {
    if h.bus.snapshot.dataValid && cfg.canEnabled
    then h.(chain := Swept(cfg.settings, h.chain, i.counters, CHANNEL_COUNT).0)
    else h
  }

  function GateOf(h: Hardware): Gate {
    Gate(h.bus.lastCycleValid, h.bus.faultLatched, h.chain.latch.latched != {}, h.nonFiniteLatched)
  }

  /** The image written in a cycle that starts from `h`. */
  function ImageIn(cfg: Config, h: Hardware, i: Cycle): (r: seq<Pvt>)
    requires i.Valid() && |h.chain.monitors| == CHANNEL_COUNT
    ensures |r| == JOINT_COUNT
  {
    Written(GateOf(AfterRead(cfg, h, i)), i.commands)
  }

  function AfterCycle(cfg: Config, h: Hardware, i: Cycle): (r: Hardware)
    requires i.Valid() && |h.chain.monitors| == CHANNEL_COUNT
    ensures |r.chain.monitors| == CHANNEL_COUNT
  {
    var m := AfterRead(cfg, h, i);
    m.(nonFiniteLatched := m.nonFiniteLatched || !AllEncodable(Drafted(GateOf(m), i.commands)),
       bus := EthercatWkc.Ran(m.bus, i.exchange))
  }

  predicate AllValid(cycles: seq<Cycle>) {
    forall k :: 0 <= k < |cycles| ==> cycles[k].Valid()
  }

  function After(cfg: Config, cycles: seq<Cycle>): (r: Hardware)
    requires AllValid(cycles)
    ensures |r.chain.monitors| == CHANNEL_COUNT
  {
    if cycles == [] then POWER_ON else AfterCycle(cfg, After(cfg, Front(cycles)), Last(cycles))
  }

  /** The state in which cycle `k` starts, and its image. */
  function At(cfg: Config, cycles: seq<Cycle>, k: nat): (r: Hardware)
    requires AllValid(cycles) && k <= |cycles|
    ensures |r.chain.monitors| == CHANNEL_COUNT
  {
    After(cfg, cycles[..k])
  }

  function Image(cfg: Config, cycles: seq<Cycle>, k: nat): (r: seq<Pvt>)
    requires AllValid(cycles) && k < |cycles|
    ensures |r| == JOINT_COUNT
  {
    ImageIn(cfg, At(cfg, cycles, k), cycles[k])
  }

  function GateAt(cfg: Config, cycles: seq<Cycle>, k: nat): Gate
    requires AllValid(cycles) && k < |cycles|
  {
    GateOf(AfterRead(cfg, At(cfg, cycles, k), cycles[k]))
  }

  // ---------------------------------------------------------------------------
  // The latches as functions of the history
  // ---------------------------------------------------------------------------

  function Exchanges(cycles: seq<Cycle>): seq<EthercatWkc.Exchange> {
    seq(|cycles|, k requires 0 <= k < |cycles| => cycles[k].exchange)
  }

  /** The counters of cycle `k` are looked at when the exchange before it was valid. */
  predicate Looked(cfg: Config, cycles: seq<Cycle>, k: nat)
    requires k < |cycles|
  {
    cfg.canEnabled && k > 0 && cycles[k - 1].exchange.Valid()
  }

  /** The samples the CAN detector has been given in the first `n` reads. */
  function Delivered(cfg: Config, cycles: seq<Cycle>, n: nat): (r: seq<seq<nat>>)
    requires AllValid(cycles) && n <= |cycles|
    ensures forall k :: 0 <= k < |r| ==> |r[k]| == CHANNEL_COUNT
  {
    if n == 0 then []
    else Delivered(cfg, cycles, n - 1) + (if Looked(cfg, cycles, n - 1) then [cycles[n - 1].counters] else [])
  }

  /** The draft of cycle `k` has a value that does not encode. */
  predicate Spoiled(cfg: Config, cycles: seq<Cycle>, k: nat)
    requires AllValid(cycles) && k < |cycles|
  {
    !AllEncodable(Drafted(GateAt(cfg, cycles, k), cycles[k].commands))
  }

  ghost predicate SpoiledBefore(cfg: Config, cycles: seq<Cycle>, k: nat)
    requires AllValid(cycles) && k <= |cycles|
  {
    exists m :: 0 <= m < k && Spoiled(cfg, cycles, m)
  }

  lemma AtStep(cfg: Config, cycles: seq<Cycle>, k: nat)
    requires AllValid(cycles) && k < |cycles|
    ensures var h, next := At(cfg, cycles, k), At(cfg, cycles, k + 1);
      && next.chain == AfterRead(cfg, h, cycles[k]).chain
      && next.bus == EthercatWkc.Ran(h.bus, cycles[k].exchange)
      && next.nonFiniteLatched == (h.nonFiniteLatched || Spoiled(cfg, cycles, k))
  {
    assert Front(cycles[..k + 1]) == cycles[..k];
  }

  lemma {:induction false} BusIsHistory(cfg: Config, cycles: seq<Cycle>, k: nat)
    requires AllValid(cycles) && k <= |cycles|
    ensures At(cfg, cycles, k).bus == EthercatWkc.RanAll(Exchanges(cycles)[..k])
    ensures At(cfg, cycles, k).bus.snapshot.dataValid == At(cfg, cycles, k).bus.lastCycleValid
      == (k > 0 && cycles[k - 1].exchange.Valid())
  {
    var xs := Exchanges(cycles)[..k];
    if k > 0 {
      BusIsHistory(cfg, cycles, k - 1);
      AtStep(cfg, cycles, k - 1);
      assert Front(xs) == Exchanges(cycles)[..k - 1];
      EthercatWkc.SnapshotIsHistory(xs);
    }
  }

  lemma ReadDelivers(cfg: Config, cycles: seq<Cycle>, k: nat)
    requires AllValid(cycles) && k < |cycles|
    requires At(cfg, cycles, k).chain == AfterSamples(cfg.settings, Delivered(cfg, cycles, k))
    requires At(cfg, cycles, k).bus.snapshot.dataValid == (k > 0 && cycles[k - 1].exchange.Valid())
    ensures AfterRead(cfg, At(cfg, cycles, k), cycles[k]).chain == AfterSamples(cfg.settings, Delivered(cfg, cycles, k + 1))
  {
    var samples := Delivered(cfg, cycles, k + 1);
    if Looked(cfg, cycles, k) {
      assert samples == Delivered(cfg, cycles, k) + [cycles[k].counters];
      assert Front(samples) == Delivered(cfg, cycles, k);
      assert Last(samples) == cycles[k].counters;
    } else {
      assert samples == Delivered(cfg, cycles, k);
    }
  }

  lemma {:induction false} ChainIsHistory(cfg: Config, cycles: seq<Cycle>, k: nat)
    requires AllValid(cycles) && k <= |cycles|
    ensures At(cfg, cycles, k).chain == AfterSamples(cfg.settings, Delivered(cfg, cycles, k))
    ensures k < |cycles| ==>
      AfterRead(cfg, At(cfg, cycles, k), cycles[k]).chain == AfterSamples(cfg.settings, Delivered(cfg, cycles, k + 1))
  {
    if k > 0 {
      ChainIsHistory(cfg, cycles, k - 1);
      AtStep(cfg, cycles, k - 1);
    }
    if k < |cycles| {
      BusIsHistory(cfg, cycles, k);
      ReadDelivers(cfg, cycles, k);
    }
  }

  lemma SpoiledStep(cfg: Config, cycles: seq<Cycle>, k: nat)
    requires AllValid(cycles) && 0 < k <= |cycles|
    ensures SpoiledBefore(cfg, cycles, k) <==> SpoiledBefore(cfg, cycles, k - 1) || Spoiled(cfg, cycles, k - 1)
  {
  }

  lemma {:induction false} NonFiniteIsHistory(cfg: Config, cycles: seq<Cycle>, k: nat)
    requires AllValid(cycles) && k <= |cycles|
    ensures At(cfg, cycles, k).nonFiniteLatched <==> SpoiledBefore(cfg, cycles, k)
  {
    if k > 0 {
      NonFiniteIsHistory(cfg, cycles, k - 1);
      AtStep(cfg, cycles, k - 1);
      SpoiledStep(cfg, cycles, k);
    }
  }

  // ---------------------------------------------------------------------------
  // Theorems
  // ---------------------------------------------------------------------------

  /** Some window of the first `k` exchanges exceeded the limit. */
  ghost predicate BusFaultBefore(cycles: seq<Cycle>, k: nat)
    requires k <= |cycles|
  {
    var vs := EthercatWkc.Validity(Exchanges(cycles)[..k]);
    exists n :: 0 <= n < k && EthercatWkc.Exceeds(EthercatWkc.RT_WINDOW, vs, n)
  }

  /** Some enabled CAN channel had a long enough run of bad samples within the first
      `k` reads, whatever it has done since. */
  ghost predicate CanFaultBy(cfg: Config, cycles: seq<Cycle>, k: nat)
    requires AllValid(cycles) && k <= |cycles|
  {
    exists c :: c in cfg.settings.enabled && c < CHANNEL_COUNT
                && EverFaulted(cfg.settings, History(Delivered(cfg, cycles, k), c))
  }

  lemma CanLatchIsHistory(cfg: Config, cycles: seq<Cycle>, k: nat)
    requires AllValid(cycles) && k <= |cycles| && cfg.settings.Valid()
    ensures AfterSamples(cfg.settings, Delivered(cfg, cycles, k)).latch.latched != {} <==> CanFaultBy(cfg, cycles, k)
  {
    var samples := Delivered(cfg, cycles, k);
    var latched := AfterSamples(cfg.settings, samples).latch.latched;
    MasksAreHistory(cfg.settings, samples);
    if latched != {} {
      var c :| c in latched;
      assert c in cfg.settings.enabled && EverFaulted(cfg.settings, History(samples, c));
    }
    if CanFaultBy(cfg, cycles, k) {
      var c :| c in cfg.settings.enabled && c < CHANNEL_COUNT && EverFaulted(cfg.settings, History(samples, c));
      assert c in latched;
    }
  }

  /** The gate of cycle `k` is closed exactly when the exchange before it was invalid or
      missing, or one of the three faults has happened before its write: on CAN up to
      and including its own read. */
  lemma GateIsHistory(cfg: Config, cycles: seq<Cycle>, k: nat)
    requires AllValid(cycles) && k < |cycles| && cfg.settings.Valid()
    ensures Closed(GateAt(cfg, cycles, k)) <==>
      || k == 0 || !cycles[k - 1].exchange.Valid()
      || BusFaultBefore(cycles, k) || CanFaultBy(cfg, cycles, k + 1) || SpoiledBefore(cfg, cycles, k)
  {
    BusIsHistory(cfg, cycles, k);
    ChainIsHistory(cfg, cycles, k);
    NonFiniteIsHistory(cfg, cycles, k);
    EthercatWkc.LatchIsHistory(Exchanges(cycles)[..k]);
    CanLatchIsHistory(cfg, cycles, k + 1);
  }

  /** One of the three latches is set when cycle `k` writes. */
  predicate LatchedAt(cfg: Config, cycles: seq<Cycle>, k: nat)
    requires AllValid(cycles) && k < |cycles|
  {
    var g := GateAt(cfg, cycles, k);
    g.busFaulted || g.canFaulted || g.nonFiniteLatched
  }

  lemma LatchStep(cfg: Config, cycles: seq<Cycle>, k: nat)
    requires AllValid(cycles) && k + 1 < |cycles|
    ensures LatchedAt(cfg, cycles, k) || Spoiled(cfg, cycles, k) ==> LatchedAt(cfg, cycles, k + 1)
  {
    AtStep(cfg, cycles, k);
    var h := At(cfg, cycles, k + 1);
    SweepKeepsLatched(cfg.settings, h.chain, cycles[k + 1].counters, CHANNEL_COUNT);
  }

  lemma LatchedFailsClosed(cfg: Config, cycles: seq<Cycle>, k: nat)
    requires AllValid(cycles) && k < |cycles| && LatchedAt(cfg, cycles, k)
    ensures FailsClosed(Image(cfg, cycles, k), cycles[k].commands)
  {
    ClosedGateFailsClosed(GateAt(cfg, cycles, k), cycles[k].commands);
  }

  /** Latches never clear, so from the first one on every image is zero or damping. */
  lemma {:induction false} FailsClosedForGood(cfg: Config, cycles: seq<Cycle>, m: nat, k: nat)
    requires AllValid(cycles) && m <= k < |cycles| && LatchedAt(cfg, cycles, m)
    ensures LatchedAt(cfg, cycles, k) && FailsClosed(Image(cfg, cycles, k), cycles[k].commands)
    decreases k
  {
    if m < k {
      FailsClosedForGood(cfg, cycles, m, k - 1);
      LatchStep(cfg, cycles, k - 1);
    }
    LatchedFailsClosed(cfg, cycles, k);
  }

  /** From the write of the very cycle whose read completes a CAN channel's run of bad
      samples, every image is zero or damping, though the channel may recover. */
  lemma CanFaultFailsClosed(cfg: Config, cycles: seq<Cycle>, m: nat, k: nat)
    requires AllValid(cycles) && m <= k < |cycles| && cfg.settings.Valid() && CanFaultBy(cfg, cycles, m + 1)
    ensures FailsClosed(Image(cfg, cycles, k), cycles[k].commands)
  {
    ChainIsHistory(cfg, cycles, m);
    CanLatchIsHistory(cfg, cycles, m + 1);
    FailsClosedForGood(cfg, cycles, m, k);
  }

  /** More than forty invalid exchanges within a hundred stop the commands of every
      later cycle, however many valid ones follow. */
  lemma DenseBusErrorsFailClosed(cfg: Config, cycles: seq<Cycle>, a: nat, k: nat)
    requires AllValid(cycles) && a + 100 <= k < |cycles|
    requires EthercatWkc.Errors(EthercatWkc.Validity(Exchanges(cycles)[..k]), a, a + 100) > 40
    ensures FailsClosed(Image(cfg, cycles, k), cycles[k].commands)
  {
    BusIsHistory(cfg, cycles, k);
    EthercatWkc.DenseErrorsLatch(Exchanges(cycles)[..k], a);
    FailsClosedForGood(cfg, cycles, k, k);
  }

  /** The image after an invalid exchange is zero or damping, latched or not. */
  lemma InvalidExchangeFailsClosed(cfg: Config, cycles: seq<Cycle>, k: nat)
    requires AllValid(cycles) && k < |cycles| && (k == 0 || !cycles[k - 1].exchange.Valid())
    ensures FailsClosed(Image(cfg, cycles, k), cycles[k].commands)
  {
    BusIsHistory(cfg, cycles, k);
    ClosedGateFailsClosed(GateAt(cfg, cycles, k), cycles[k].commands);
  }

  /** A value that does not encode zeroes the whole image at once, and no later image
      is anything but zero or damping. */
  lemma NonFiniteZeroesThenFailsClosed(cfg: Config, cycles: seq<Cycle>, m: nat, k: nat)
    requires AllValid(cycles) && m <= k < |cycles| && Spoiled(cfg, cycles, m)
    ensures Image(cfg, cycles, m) == ZeroImage()
    ensures FailsClosed(Image(cfg, cycles, k), cycles[k].commands)
  {
    if m < k {
      LatchStep(cfg, cycles, m);
      FailsClosedForGood(cfg, cycles, m + 1, k);
    }
  }

  /** And nothing else stops the commands: with none of these causes in its past, a
      cycle writes exactly what was commanded. */
  lemma NothingElseCloses(cfg: Config, cycles: seq<Cycle>, k: nat)
    requires AllValid(cycles) && k < |cycles| && cfg.settings.Valid()
    requires k > 0 && cycles[k - 1].exchange.Valid() && !BusFaultBefore(cycles, k)
    requires !CanFaultBy(cfg, cycles, k + 1) && !SpoiledBefore(cfg, cycles, k + 1)
    ensures PassedThrough(Image(cfg, cycles, k), cycles[k].commands)
  {
    SpoiledStep(cfg, cycles, k + 1);
    GateIsHistory(cfg, cycles, k);
    OpenGatePassesThrough(GateAt(cfg, cycles, k), cycles[k].commands);
  }
}

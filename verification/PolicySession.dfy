/**
 Packets exchanged between the control thread and the inference worker, and the
 control thread's private record of the policy it is running.
 */
module PolicySession {
  import opened Common

  datatype PolicyKind = NONE | WALK | DANCE | DOWN | UP

  datatype ObservationPacket = ObservationPacket(
    policy: PolicyKind, epoch: nat, sequence: nat, timestampNs: int, size: nat, data: seq<Float>)

  datatype ActionPacket = ActionPacket(
    policy: PolicyKind, epoch: nat, sourceSequence: nat, observationTimestampNs: int,
    size: nat, valid: bool, actions: seq<Float>)

  /** `activePolicy_`, `policyEpoch`, `observationSequence_`, `lastAppliedSequence_`,
      `policyEntryTimestampNs_` and `lastAppliedObservationTimestampNs_`. */
  datatype Session = Session(
    activePolicy: PolicyKind, epoch: nat, observationSequence: nat, lastAppliedSequence: nat,
    policyEntryNs: int, lastAppliedObservationNs: int)

  /** `enterPolicyMode`; entering the policy that is already active changes nothing. */
  function Enter(c: Session, policy: PolicyKind, nowNs: int): Session {
    if c.activePolicy == policy then c
    else c.(activePolicy := policy, epoch := c.epoch + 1, lastAppliedSequence := 0,
            policyEntryNs := nowNs, lastAppliedObservationNs := 0)
  }

  /** `leavePolicyMode`. */
  function Leave(c: Session): Session {
    if c.activePolicy == NONE then c
    else c.(activePolicy := NONE, epoch := c.epoch + 1, lastAppliedSequence := 0,
            policyEntryNs := 0, lastAppliedObservationNs := 0)
  }

  /** The part of `starting` that concerns the session. */
  function Start(c: Session): Session {
    Session(NONE, c.epoch + 1, 0, 0, 0, 0)
  }

  /** The part of `stopping` that concerns the session; the applied sequence is kept. */
  function Stop(c: Session): Session {
    c.(activePolicy := NONE, epoch := c.epoch + 1)
  }

  const NS_PER_MS: int := 1000000

  /** The age test shared by `applyActionPacket` and `actionTimedOut`; zero disables it. */
  predicate Expired(ageNs: int, timeoutMs: int) {
    timeoutMs > 0 && ageNs > timeoutMs * NS_PER_MS
  }

  /** The tests `applyActionPacket` makes before it copies; `destination` is `None`
      when no mode is registered for the expected policy. */
  predicate Accepts(c: Session, r: ActionPacket, expected: PolicyKind, consumedNs: int,
                    timeoutMs: int, destination: Option<seq<Float>>)
  {
    && r.valid
    && r.epoch == c.epoch && r.policy == expected && r.sourceSequence > c.lastAppliedSequence
    && !Expired(consumedNs - r.observationTimestampNs, timeoutMs)
    && destination.Some? && r.size == |destination.value| && r.size <= |r.actions|
  }

  function AfterApply(c: Session, r: ActionPacket): Session {
    c.(lastAppliedSequence := r.sourceSequence, lastAppliedObservationNs := r.observationTimestampNs)
  }

  /** The timestamp `actionTimedOut` measures from; zero means there is none. */
  function ReferenceNs(c: Session): int {
    if c.lastAppliedObservationNs != 0 then c.lastAppliedObservationNs else c.policyEntryNs
  }

  predicate TimedOut(c: Session, nowNs: int, timeoutMs: int) {
    c.activePolicy != NONE && ReferenceNs(c) != 0 && Expired(nowNs - ReferenceNs(c), timeoutMs)
  }
}

/**
 The bridge between the inference protocol and the mode handlers: what the handlers
 take for granted about a waiting packet is what every interleaving guarantees.
 */
module ReceivedPackets {
  import opened Common
  import opened PolicySession
  import opened AsyncInference
  import Safety = AsyncInferenceSafety
  import Handlers = PolicyHandlers
  import HandlersSafety = PolicyHandlersSafety

  /** When each observation of an epoch was submitted. */
  function StampsOf(submitted: seq<Submission>, epoch: nat): map<nat, int> {
    if submitted == [] then map[]
    else
      var stamps, sub := StampsOf(Front(submitted), epoch), Last(submitted);
      if sub.epoch == epoch then stamps[sub.sequence := sub.timestampNs] else stamps
  }

  ghost predicate Named(submitted: seq<Submission>) {
    forall j, k :: 0 <= j < k < |submitted| ==>
      Safety.Earlier(submitted[j].epoch, submitted[j].sequence, submitted[k].epoch, submitted[k].sequence)
  }

  /** Sequence numbers are not reused within an epoch, so none overwrites another. */
  lemma {:induction false} StampsAreSubmissions(submitted: seq<Submission>, epoch: nat, k: nat)
    requires Named(submitted) && k < |submitted| && submitted[k].epoch == epoch
    ensures submitted[k].sequence in StampsOf(submitted, epoch)
    ensures StampsOf(submitted, epoch)[submitted[k].sequence] == submitted[k].timestampNs
  {
    if k < |submitted| - 1 {
      StampsAreSubmissions(Front(submitted), epoch, k);
      assert Safety.Earlier(submitted[k].epoch, submitted[k].sequence, Last(submitted).epoch, Last(submitted).sequence);
    }
  }

  /** In every interleaving, a packet that is looked at and bears the current epoch
      answers an observation of this epoch and carries its timestamp. */
  lemma ReceivedPacketsAreGenuine(cfg: Config, handler: Handlers.Config, states: seq<Sys>, steps: seq<Step>, n: nat)
    requires Run(cfg, states, steps) && n < |states|
    requires states[n].control.Consuming? && states[n].control.consume.Checking?
    ensures states[n].Owned()
    ensures var s := states[n];
      HandlersSafety.Genuine(handler, s.session, StampsOf(s.submitted, s.session.epoch), s.Received())
  {
    Safety.RunKeeps(cfg, states, steps, n);
    var s := states[n];
    var r := s.Received();
    if r.valid && r.epoch == s.session.epoch {
      assert r == s.actions.published[Last(s.actions.taken)];
      assert Safety.Genuine(cfg, r, s.submitted);
      var k :| 0 <= k < |s.submitted| && Safety.Answers(cfg, r, s.submitted[k]);
      StampsAreSubmissions(s.submitted, s.session.epoch, k);
    }
  }
}

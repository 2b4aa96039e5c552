/** What a call of exchange_mtu returns or raises, in runs with any peer. */
module ExchangeResults {
  import opened Bytes
  import opened Att
  import opened AttSystem
  import opened Transactions

  predicate IsMtuRequestSeen(event: Event) {
    event.Received? && event.pdu != [] && event.pdu[0] == 0x02
  }

  /** An Exchange MTU Request of the peer has arrived since the call of exchange_mtu that began last. */
  ghost predicate PeerStarted(events: seq<Event>) {
    exists i :: 0 <= i < |events| && IsMtuRequestSeen(events[i]) && NoneBegunAfter(events, i)
  }

  ghost predicate NoneBegunAfter(events: seq<Event>, i: nat) {
    forall j :: i < j < |events| ==> events[j] != ExchangeBegun
  }

  lemma {:induction false} PeerStartedAppends(events: seq<Event>, event: Event)
    ensures PeerStarted(events + [event]) <==>
              IsMtuRequestSeen(event) || (event != ExchangeBegun && PeerStarted(events))
  {
    var all := events + [event];
    if IsMtuRequestSeen(event) {
      assert IsMtuRequestSeen(all[|events|]) && NoneBegunAfter(all, |events|);
    } else {
      if event != ExchangeBegun && PeerStarted(events) {
        var i :| 0 <= i < |events| && IsMtuRequestSeen(events[i]) && NoneBegunAfter(events, i);
        assert all[i] == events[i] && NoneBegunAfter(all, i);
      }
      if PeerStarted(all) {
        var i :| 0 <= i < |all| && IsMtuRequestSeen(all[i]) && NoneBegunAfter(all, i);
        assert all[|events|] == event && all[i] == events[i];
        assert forall j :: i < j < |events| ==> events[j] == all[j];
        assert NoneBegunAfter(events, i);
      }
    }
  }

  ghost predicate FlagRecords(s: Sys) {
    SlotSound(s) && (s.client.peerInitiatedMtu <==> PeerStarted(s.events))
  }

  lemma {:induction false} FlagRecordsStep(s: Sys, step: Step)
    requires FlagRecords(s) && Enabled(s, step)
    ensures FlagRecords(Apply(s, step))
  {
    SlotStep(s, step);
    match step
    case Deliver => PeerStartedAppends(s.events, Received(s.fromPeer[0]));
    case Register(h, k) => PeerStartedAppends(s.events, Registered(h, k));
    case Unregister(h) => PeerStartedAppends(s.events, Unregistered(h));
    case BeginExchange => PeerStartedAppends(s.events, ExchangeBegun);
    case _ =>
  }

  lemma {:induction false} FlagIsRecorded(peerRx: u16, steps: seq<Step>)
    requires Legal(Init(peerRx), steps, AnyPeer)
    ensures FlagRecords(Run(Init(peerRx), steps, AnyPeer))
  {
    forall t, step | FlagRecords(t) && Enabled(t, step) ensures FlagRecords(Apply(t, step)) {
      FlagRecordsStep(t, step);
    }
    RunKeeps(Init(peerRx), steps, AnyPeer, FlagRecords);
  }

  /** An MTU exchange announced like this is in the slot, and its coroutine can resume. */
  predicate Ready(s: Sys, announced: u16) {
    s.txn.Some? && s.txn.value.payload == [0x02, announced % 0x100, announced / 0x100] && Enabled(s, Resume)
  }

  /**
   * In every run, with any peer, when exchange_mtu resumes: a response is its MTU, the smaller of both but at least
   * 23; an Error Response is no error, and the MTU stays; a timeout is one exactly if no Exchange MTU Request of the
   * peer arrived since the call began; any other exception is raised.
   */
  lemma {:induction false} ExchangeEnds(peerRx: u16, steps: seq<Step>, announced: u16)
    requires Legal(Init(peerRx), steps, AnyPeer) && Ready(Run(Init(peerRx), steps, AnyPeer), announced)
    ensures var s := Run(Init(peerRx), steps, AnyPeer);
            var outcome, s' := s.client.pending.value.outcome.value, Apply(s, Resume);
            && |s'.exchanges| == |s.exchanges| + 1 && s'.exchanges[..|s.exchanges|] == s.exchanges
            && var r, kept := s'.exchanges[|s.exchanges|], s'.client.mtu == s.client.mtu;
               match outcome
               case Data(pdu) =>
                 && pdu != [] && pdu[0] in {0x01, 0x03}
                 && (pdu[0] == 0x03 && |pdu| >= 3 ==>
                       && s'.client.mtu == Max(23, Min(announced, pdu[1] as nat + 0x100 * pdu[2] as nat))
                       && r == Ok(s'.client.mtu))
                 && (pdu[0] == 0x01 && |pdu| >= 5 ==> r == Ok(s.client.mtu) && kept)
               case Exn(TimedOut) =>
                 kept && r == if PeerStarted(s.events) then Ok(s.client.mtu) else Err(TimedOut)
               case Exn(AttError(_, _, _)) => true
               case Exn(f) => kept && r == Err(f)
  {
    FlagIsRecorded(peerRx, steps);
    var s := Run(Init(peerRx), steps, AnyPeer);
    Field16OnWire(s.txn.value.payload, 1);
    var outcome := s.client.pending.value.outcome.value;
    if outcome.Data? && |outcome.pdu| >= 3 {
      Field16OnWire(outcome.pdu, 1);
    }
  }
}

/** The race that ReadIsCompleteIff excludes does happen, with a peer that keeps every rule. */
module ReadRace {
  import opened Bytes
  import opened Att
  import opened AttSystem
  import opened MtuAgreement
  import opened LongRead

  /**
   * The peer starts an MTU exchange and answers the pending Read Request; it has not yet heard the client's
   * Exchange MTU Response, so the answer is sized by the default MTU.
   */
  function RaceStart(handle: u16): seq<Step> {
    [Acquire(ReadRequest(handle))] + ([SendRequest] + ([PeerEmit(MtuPdu(EXCHANGE_MTU_REQ, PREFERRED_MTU))] + []))
  }

  function RaceEnd(rsp: bytes): seq<Step> {
    [PeerServe(rsp)] + ([Deliver] + ([Deliver] + ([Resume] + [])))
  }

  lemma {:induction false} AfterRaceStart(handle: u16)
    ensures Legal(Init(PREFERRED_MTU), RaceStart(handle), MtuPeer)
    ensures var s := Run(Init(PREFERRED_MTU), RaceStart(handle), MtuPeer);
            && s.open && s.txn == Some(Txn(ReadRequest(handle), true))
            && s.client.pending.Some? && s.client.pending.value.expected == READ_RSP && s.client.Waiting()
            && s.toPeer == [ReadRequest(handle)]
            && s.fromPeer == [MtuPdu(EXCHANGE_MTU_REQ, PREFERRED_MTU)]
            && s.peerMtu == DEFAULT_MTU && s.completed == [] && s.peerRx == PREFERRED_MTU
  {
    var request := MtuPdu(EXCHANGE_MTU_REQ, PREFERRED_MTU);
    var s0 := Init(PREFERRED_MTU);
    var s1 := Apply(s0, Acquire(ReadRequest(handle)));
    var s2 := Apply(s1, SendRequest);
    assert request[0] == EXCHANGE_MTU_REQ && MtuPdu(EXCHANGE_MTU_RSP, PREFERRED_MTU)[0] == EXCHANGE_MTU_RSP;
    RunCons(s2, PeerEmit(request), [], MtuPeer);
    RunCons(s1, SendRequest, [PeerEmit(request)] + [], MtuPeer);
    RunCons(s0, Acquire(ReadRequest(handle)), [SendRequest] + ([PeerEmit(request)] + []), MtuPeer);
  }

  lemma {:induction false} AfterRaceEnd(s: Sys, handle: u16, rsp: bytes)
    requires rsp != [] && rsp[0] == READ_RSP && s.peerRx == PREFERRED_MTU
    requires s.open && s.txn == Some(Txn(ReadRequest(handle), true))
    requires s.client.pending.Some? && s.client.pending.value.expected == READ_RSP && s.client.Waiting()
    requires s.toPeer == [ReadRequest(handle)] && s.fromPeer == [MtuPdu(EXCHANGE_MTU_REQ, PREFERRED_MTU)]
    ensures Legal(s, RaceEnd(rsp), MtuPeer)
    ensures var end := Run(s, RaceEnd(rsp), MtuPeer);
            && end.completed == s.completed + [Exchange(ReadRequest(handle), rsp)]
            && end.client.mtu == PREFERRED_MTU && end.peerMtu == s.peerMtu
  {
    MtuPduCarries(EXCHANGE_MTU_REQ, PREFERRED_MTU);
    var s1 := Apply(s, PeerServe(rsp));
    var s2 := Apply(s1, Deliver);
    var s3 := Apply(s2, Deliver);
    assert s1.fromPeer == [MtuPdu(EXCHANGE_MTU_REQ, PREFERRED_MTU), rsp];
    RunCons(s3, Resume, [], MtuPeer);
    RunCons(s2, Deliver, [Resume] + [], MtuPeer);
    RunCons(s1, Deliver, [Deliver] + ([Resume] + []), MtuPeer);
    RunCons(s, PeerServe(rsp), [Deliver] + ([Deliver] + ([Resume] + [])), MtuPeer);
  }

  /**
   * There is a legal run in which the coroutine of a read resumes with a response that the server sized by
   * the default MTU while the client's MTU is already larger: read() then stops after this response.
   */
  lemma {:induction false} SnapshotCanExceedServerMtu(handle: u16, v: bytes)
    requires |v| >= DEFAULT_MTU
    ensures var rsp := [READ_RSP] + FirstPart(v, DEFAULT_MTU);
            var steps := RaceStart(handle) + RaceEnd(rsp);
            && Legal(Init(PREFERRED_MTU), steps, MtuPeer)
            && var end := Run(Init(PREFERRED_MTU), steps, MtuPeer);
               end.completed == [Exchange(ReadRequest(handle), rsp)] && end.peerMtu == DEFAULT_MTU < end.client.mtu
  {
    var rsp := [READ_RSP] + FirstPart(v, DEFAULT_MTU);
    AfterRaceStart(handle);
    var s := Run(Init(PREFERRED_MTU), RaceStart(handle), MtuPeer);
    AfterRaceEnd(s, handle, rsp);
    RunConcat(Init(PREFERRED_MTU), RaceStart(handle), RaceEnd(rsp), MtuPeer);
  }
}

/**
 * An MTU exchange on a bearer that earlier transactions have left dirty: an Error Response to one of them is taken
 * for the refusal of the exchange, the response that the peer then sends is dropped, and the two sides disagree.
 */
module ExchangeSafety {
  import opened Bytes
  import opened Seqs
  import opened Att
  import opened AttClient
  import opened AttSystem
  import opened Transactions
  import opened Pairing
  import opened MtuAgreement
  import LateAnswers

  // The run, from the start.

  /** The exchange begins, and then the server answers the earlier request with an error. */
  function RefusedByMistake(err: bytes): seq<Step> {
    [Acquire(OUR_REQUEST)] + ([SendRequest] + ([PeerServe(err)] + ([Deliver] + ([Resume] + []))))
  }

  function GrantedInVain(rsp: bytes): seq<Step> {
    [PeerServe(rsp)] + ([Deliver] + [])
  }

  /** Nothing pending, and neither side has adopted anything. */
  predicate Fresh(s: Sys, peerRx: u16) {
    && s.open && s.txn.None? && s.client.pending.None? && s.fromPeer == [] && s.client.tasks == []
    && s.client.mtu == s.peerMtu == DEFAULT_MTU && s.peerRx == peerRx
  }

  lemma {:induction false} BothDefaultAfter(peerRx: u16, first: bytes)
    requires IsAttributeRequest(first)
    ensures Legal(Init(peerRx), LateAnswers.TimesOut(first), MtuCaller)
    ensures var s := Run(Init(peerRx), LateAnswers.TimesOut(first), MtuCaller); Fresh(s, peerRx) && s.toPeer == [first]
  {
    var s0 := Init(peerRx);
    var s1 := Apply(s0, Acquire(first));
    var s2 := Apply(s1, SendRequest);
    var s3 := Apply(s2, Expire(TimedOut));
    RunCons(s3, Resume, [], MtuCaller);
    RunCons(s2, Expire(TimedOut), [Resume] + [], MtuCaller);
    RunCons(s1, SendRequest, [Expire(TimedOut)] + ([Resume] + []), MtuCaller);
    RunCons(s0, Acquire(first), [SendRequest] + ([Expire(TimedOut)] + ([Resume] + [])), MtuCaller);
  }

  lemma {:induction false} MistakeArrives(s: Sys, err: bytes)
    requires s.open && s.txn == Some(Txn(OUR_REQUEST, true)) && s.client.Waiting() && s.fromPeer == []
    requires |s.toPeer| == 2 && IsAttributeRequest(s.toPeer[0]) && IsError(err)
    ensures var steps := [PeerServe(err)] + ([Deliver] + ([Resume] + []));
            && Legal(s, steps, MtuCaller)
            && var end := Run(s, steps, MtuCaller);
               && end.open && end.txn.None? && end.client.pending.None? && end.fromPeer == []
               && end.toPeer == s.toPeer[1..] && end.client.tasks == s.client.tasks
               && end.client.mtu == s.client.mtu && end.peerMtu == s.peerMtu && end.peerRx == s.peerRx
  {
    var s' := Apply(s, PeerServe(err));
    assert s'.fromPeer == [err];
    RunCons(Apply(s', Deliver), Resume, [], MtuCaller);
    RunCons(s', Deliver, [Resume] + [], MtuCaller);
    RunCons(s, PeerServe(err), [Deliver] + ([Resume] + []), MtuCaller);
  }

  lemma {:induction false} MistakenRefusal(s: Sys, peerRx: u16, first: bytes, err: bytes)
    requires Fresh(s, peerRx) && s.toPeer == [first] && IsAttributeRequest(first) && IsError(err)
    ensures Legal(s, RefusedByMistake(err), MtuCaller)
    ensures var end := Run(s, RefusedByMistake(err), MtuCaller); Fresh(end, peerRx) && end.toPeer == [OUR_REQUEST]
  {
    assert OUR_REQUEST[0] == EXCHANGE_MTU_REQ;
    var s1 := Apply(s, Acquire(OUR_REQUEST));
    var s2 := Apply(s1, SendRequest);
    assert s2.toPeer == [first, OUR_REQUEST];
    MistakeArrives(s2, err);
    var rest := [PeerServe(err)] + ([Deliver] + ([Resume] + []));
    RunCons(s1, SendRequest, rest, MtuCaller);
    RunCons(s, Acquire(OUR_REQUEST), [SendRequest] + rest, MtuCaller);
  }

  lemma {:induction false} ResponseDropped(s: Sys, peerRx: u16)
    requires Fresh(s, peerRx) && s.toPeer == [OUR_REQUEST]
    ensures var rsp := MtuPdu(EXCHANGE_MTU_RSP, peerRx);
            && Legal(s, GrantedInVain(rsp), MtuCaller)
            && var end := Run(s, GrantedInVain(rsp), MtuCaller);
               && end.open && NoMtuInFlight(end)
               && end.client.mtu == DEFAULT_MTU && end.peerMtu == Agreed(peerRx)
  {
    var rsp := MtuPdu(EXCHANGE_MTU_RSP, peerRx);
    MtuPduCarries(EXCHANGE_MTU_REQ, PREFERRED_MTU);
    assert OUR_REQUEST[0] == EXCHANGE_MTU_REQ && rsp[0] == EXCHANGE_MTU_RSP;
    var s' := Apply(s, PeerServe(rsp));
    assert s'.fromPeer == [rsp] && s'.toPeer == [];
    RunCons(s', Deliver, [], MtuCaller);
    RunCons(s, PeerServe(rsp), [Deliver] + [], MtuCaller);
  }

  /** With no exchange timed out, a late Error Response to a request that was is enough to leave the sides apart. */
  lemma {:induction false} LateErrorDisagrees(peerRx: u16, first: bytes, code: byte)
    requires IsAttributeRequest(first)
    ensures var err, rsp := ErrorPdu(first[0], 0, code), MtuPdu(EXCHANGE_MTU_RSP, peerRx);
            var steps := LateAnswers.TimesOut(first) + (RefusedByMistake(err) + GrantedInVain(rsp));
            && Legal(Init(peerRx), steps, MtuCaller)
            && var end := Run(Init(peerRx), steps, MtuCaller);
               && end.open && NoMtuInFlight(end)
               && end.client.mtu == DEFAULT_MTU && end.peerMtu == Agreed(peerRx)
  {
    var err, rsp := ErrorPdu(first[0], 0, code), MtuPdu(EXCHANGE_MTU_RSP, peerRx);
    BothDefaultAfter(peerRx, first);
    var s := Run(Init(peerRx), LateAnswers.TimesOut(first), MtuCaller);
    MistakenRefusal(s, peerRx, first, err);
    ResponseDropped(Run(s, RefusedByMistake(err), MtuCaller), peerRx);
    RunConcat(s, RefusedByMistake(err), GrantedInVain(rsp), MtuCaller);
    RunConcat(Init(peerRx), LateAnswers.TimesOut(first), RefusedByMistake(err) + GrantedInVain(rsp), MtuCaller);
  }

  // From any state in which the exchange is not safe.

  /** Both sides are at the default, and the only MTU PDU on its way is our request, the last thing sent. */
  ghost predicate OnlyOurs(s: Sys) {
    && SlotSound(s) && s.open && s.client.mtu == s.peerMtu == DEFAULT_MTU < Agreed(s.peerRx)
    && SendMtuRsp !in s.client.tasks
    && (forall pdu :: pdu in s.fromPeer ==> !IsMtuPdu(pdu))
    && s.toPeer != [] && s.toPeer[|s.toPeer| - 1] == OUR_REQUEST
    && (forall i :: 0 <= i < |s.toPeer| - 1 ==> !IsMtuPdu(s.toPeer[i]))
  }

  predicate OurExchangeWaits(s: Sys) {
    s.txn == Some(Txn(OUR_REQUEST, true)) && s.client.Waiting()
  }

  /** The client is behind, nobody waits, and no MTU PDU but a response is on its way. */
  ghost predicate LeftBehind(s: Sys) {
    && s.open && s.txn.None? && s.client.pending.None? && SendMtuRsp !in s.client.tasks
    && s.client.mtu == DEFAULT_MTU < s.peerMtu
    && (forall pdu :: pdu in s.toPeer ==> !IsMtuPdu(pdu))
    && (forall pdu :: pdu in s.fromPeer ==> !IsMtuRequest(pdu))
  }

  /** One request of ours is on its way, and it is the only MTU PDU that is; the exchange has been given up. */
  ghost predicate GivenUp(s: Sys) {
    && SlotSound(s) && s.open && s.txn.None? && s.client.mtu == s.peerMtu == DEFAULT_MTU < Agreed(s.peerRx)
    && SendMtuRsp !in s.client.tasks
    && (forall pdu :: pdu in s.fromPeer ==> !IsMtuPdu(pdu))
    && |OurRequests(s.toPeer)| == 1 && (forall pdu :: pdu in s.toPeer && IsMtuPdu(pdu) ==> pdu == OUR_REQUEST)
  }

  ghost predicate Disagrees(s: Sys) {
    s.open && NoMtuInFlight(s) && s.client.mtu != s.peerMtu
  }

  lemma {:induction false} LeftBehindDelivered(s: Sys)
    requires LeftBehind(s) && s.fromPeer != []
    ensures LeftBehind(Apply(s, Deliver))
  {
    assert s.fromPeer[0] in s.fromPeer;
    assert forall pdu :: pdu in Apply(s, Deliver).fromPeer ==> pdu in s.fromPeer;
  }

  lemma {:induction false} StaysBehind(s: Sys) returns (steps: seq<Step>)
    requires LeftBehind(s)
    ensures Legal(s, steps, MtuPeer) && Disagrees(Run(s, steps, MtuPeer))
    decreases |s.fromPeer|
  {
    if s.fromPeer == [] {
      steps := [];
    } else {
      LeftBehindDelivered(s);
      var rest := StaysBehind(Apply(s, Deliver));
      steps := [Deliver] + rest;
      RunCons(s, Deliver, rest, MtuPeer);
    }
  }

  lemma {:induction false} OursGranted(s: Sys)
    requires GivenUp(s) && s.toPeer[0] == OUR_REQUEST
    ensures var grant := PeerServe(MtuPdu(EXCHANGE_MTU_RSP, s.peerRx));
            Enabled(s, grant) && MtuPeer(s, grant) && LeftBehind(Apply(s, grant))
  {
    var rsp := MtuPdu(EXCHANGE_MTU_RSP, s.peerRx);
    MtuPduCarries(EXCHANGE_MTU_REQ, PREFERRED_MTU);
    assert OUR_REQUEST[0] == EXCHANGE_MTU_REQ && rsp[0] == EXCHANGE_MTU_RSP;
    OursTaken(s.toPeer);
    assert Apply(s, PeerServe(rsp)).toPeer == s.toPeer[1..];
    assert forall pdu :: pdu in Apply(s, PeerServe(rsp)).fromPeer ==> pdu in s.fromPeer || pdu == rsp;
  }

  lemma {:induction false} OursTaken(q: seq<bytes>)
    requires |OurRequests(q)| == 1 && q != [] && q[0] == OUR_REQUEST
    requires forall pdu :: pdu in q && IsMtuPdu(pdu) ==> pdu == OUR_REQUEST
    ensures forall pdu :: pdu in q[1..] ==> !IsMtuPdu(pdu)
  {
    TakeFirst(IsOurRequest, q);
    FilterMembers(IsOurRequest, q[1..]);
    assert OurRequests(q[1..]) == [];
    assert forall pdu :: pdu in q[1..] ==> pdu in q;
  }

  lemma {:induction false} GivenUpTaken(s: Sys)
    requires GivenUp(s) && s.toPeer != [] && s.toPeer[0] != OUR_REQUEST
    ensures GivenUp(Apply(s, PeerTake))
  {
    SlotStep(s, PeerTake);
    TakeFirst(IsOurRequest, s.toPeer);
    assert s.toPeer[0] in s.toPeer && !IsMtuPdu(s.toPeer[0]);
    assert forall pdu :: pdu in s.toPeer[1..] ==> pdu in s.toPeer;
  }

  lemma {:induction false} OnlyOursTaken(s: Sys)
    requires OnlyOurs(s) && |s.toPeer| > 1
    ensures OnlyOurs(Apply(s, PeerTake))
  {
    SlotStep(s, PeerTake);
    assert !IsMtuPdu(s.toPeer[0]);
    assert forall i :: 0 <= i < |s.toPeer| - 1 ==> s.toPeer[1..][i] == s.toPeer[i + 1];
  }

  /** Once the exchange has been given up, the peer grants our request in vain. */
  lemma {:induction false} GrantsInVain(s: Sys) returns (steps: seq<Step>)
    requires GivenUp(s)
    ensures Legal(s, steps, MtuPeer) && Disagrees(Run(s, steps, MtuPeer))
    decreases |s.toPeer|
  {
    if s.toPeer[0] == OUR_REQUEST {
      var grant := PeerServe(MtuPdu(EXCHANGE_MTU_RSP, s.peerRx));
      OursGranted(s);
      var rest := StaysBehind(Apply(s, grant));
      steps := [grant] + rest;
      RunCons(s, grant, rest, MtuPeer);
    } else {
      GivenUpTaken(s);
      var rest := GrantsInVain(Apply(s, PeerTake));
      steps := [PeerTake] + rest;
      RunCons(s, PeerTake, rest, MtuPeer);
    }
  }

  lemma {:induction false} OnlyOursIsOne(s: Sys)
    requires OnlyOurs(s) && s.txn.None?
    ensures GivenUp(s)
  {
    var before := s.toPeer[..|s.toPeer| - 1];
    assert s.toPeer == before + [OUR_REQUEST];
    FilterAppend(IsOurRequest, before, OUR_REQUEST);
    assert IsMtuPdu(OUR_REQUEST);
    FilterNone(IsOurRequest, before);
  }

  lemma {:induction false} OnlyOursDelivered(s: Sys)
    requires OnlyOurs(s) && OurExchangeWaits(s) && s.fromPeer != []
    ensures var s' := Apply(s, Deliver);
            OnlyOurs(s') &&
            if IsError(s.fromPeer[0])
            then Enabled(s', Resume) && OnlyOurs(Apply(s', Resume)) && Apply(s', Resume).txn.None?
            else OurExchangeWaits(s')
  {
    SlotStep(s, Deliver);
    if IsError(s.fromPeer[0]) {
      SlotStep(Apply(s, Deliver), Resume);
    }
    assert s.fromPeer[0] in s.fromPeer && OUR_REQUEST[0] == EXCHANGE_MTU_REQ;
    assert forall pdu :: pdu in Apply(s, Deliver).fromPeer ==> pdu in s.fromPeer;
  }

  /** An error is on its way: the exchange takes it for its refusal. */
  lemma {:induction false} GivesUp(s: Sys) returns (steps: seq<Step>)
    requires OnlyOurs(s) && OurExchangeWaits(s) && Errors(s.fromPeer) != []
    ensures Legal(s, steps, MtuPeer) && Disagrees(Run(s, steps, MtuPeer))
    decreases |s.fromPeer|
  {
    OnlyOursDelivered(s);
    var s' := Apply(s, Deliver);
    if IsError(s.fromPeer[0]) {
      OnlyOursIsOne(Apply(s', Resume));
      var rest := GrantsInVain(Apply(s', Resume));
      steps := [Deliver] + ([Resume] + rest);
      RunCons(s', Resume, rest, MtuPeer);
      RunCons(s, Deliver, [Resume] + rest, MtuPeer);
    } else {
      TakeFirst(IsError, s.fromPeer);
      var rest := GivesUp(s');
      steps := [Deliver] + rest;
      RunCons(s, Deliver, rest, MtuPeer);
    }
  }

  /** The oldest attribute request is answered with an error. */
  lemma {:induction false} ErrorServed(s: Sys)
    requires OnlyOurs(s) && OurExchangeWaits(s) && |s.toPeer| > 1 && IsAttributeRequest(s.toPeer[0])
    ensures var serve := PeerServe(ErrorPdu(s.toPeer[0][0], 0, ATT_ERR_ATTRIBUTE_NOT_FOUND));
            && Enabled(s, serve) && MtuPeer(s, serve)
            && OnlyOurs(Apply(s, serve)) && OurExchangeWaits(Apply(s, serve))
            && Errors(Apply(s, serve).fromPeer) != []
  {
    var err := ErrorPdu(s.toPeer[0][0], 0, ATT_ERR_ATTRIBUTE_NOT_FOUND);
    var s' := Apply(s, PeerServe(err));
    SlotStep(s, PeerServe(err));
    FilterAppend(IsError, s.fromPeer, err);
    assert forall pdu :: pdu in s'.fromPeer ==> pdu in s.fromPeer || pdu == err;
    assert forall i :: 0 <= i < |s.toPeer| - 1 ==> s.toPeer[1..][i] == s.toPeer[i + 1];
  }

  lemma {:induction false} Disturbed(s: Sys) returns (steps: seq<Step>)
    requires OnlyOurs(s) && OurExchangeWaits(s) && !Clean(s)
    ensures Legal(s, steps, MtuPeer) && Disagrees(Run(s, steps, MtuPeer))
    decreases |s.toPeer|
  {
    if Errors(s.fromPeer) != [] {
      steps := GivesUp(s);
    } else {
      assert OUR_REQUEST[0] == EXCHANGE_MTU_REQ;
      TakeFirst(IsAttributeRequest, s.toPeer);
      assert |s.toPeer| > 1;
      if IsAttributeRequest(s.toPeer[0]) {
        var serve := PeerServe(ErrorPdu(s.toPeer[0][0], 0, ATT_ERR_ATTRIBUTE_NOT_FOUND));
        ErrorServed(s);
        var rest := GivesUp(Apply(s, serve));
        steps := [serve] + rest;
        RunCons(s, serve, rest, MtuPeer);
      } else {
        OnlyOursTaken(s);
        var rest := Disturbed(Apply(s, PeerTake));
        steps := [PeerTake] + rest;
        RunCons(s, PeerTake, rest, MtuPeer);
      }
    }
  }

  /** Behind the agreed value, with the slot free, no MTU PDU is on its way at all. */
  lemma {:induction false} QuietBefore(s: Sys)
    requires Agreeing(s) && s.open && s.txn.None? && !Caught(s)
    ensures s.client.mtu == s.peerMtu == DEFAULT_MTU < Agreed(s.peerRx) && SendMtuRsp !in s.client.tasks
    ensures forall pdu :: pdu in s.fromPeer || pdu in s.toPeer ==> !IsMtuPdu(pdu)
  {
    FilterMembers(IsOurRequest, s.toPeer);
    assert OurRequests(s.toPeer) == [] && s.peerMtu != Agreed(s.peerRx);
  }

  lemma {:induction false} UnsafeExchangeDisagrees(s: Sys) returns (steps: seq<Step>)
    requires Agreeing(s) && s.open && Enabled(s, Acquire(OUR_REQUEST)) && !CanExchange(s)
    ensures Legal(Apply(s, Acquire(OUR_REQUEST)), steps, MtuPeer)
    ensures Disagrees(Run(Apply(s, Acquire(OUR_REQUEST)), steps, MtuPeer))
  {
    QuietBefore(s);
    var called := Apply(s, Acquire(OUR_REQUEST));
    var sent := Apply(called, SendRequest);
    SlotStep(s, Acquire(OUR_REQUEST));
    SlotStep(called, SendRequest);
    FilterAppend(IsAttributeRequest, s.toPeer, OUR_REQUEST);
    var rest := Disturbed(sent);
    steps := [SendRequest] + rest;
    RunCons(called, SendRequest, rest, MtuPeer);
  }

  /** Whatever follows, both sides hold the same MTU whenever no MTU PDU is in flight. */
  ghost predicate AlwaysAgrees(s: Sys) {
    forall steps :: Legal(s, steps, MtuPeer) ==> InAgreement(Run(s, steps, MtuPeer))
  }

  /**
   * Exactly when is an exchange safe to start? In every continuation the two sides agree if and only if, before it,
   * the client has caught up, or will by a request on its way, or no attribute request is unanswered and no error
   * is on its way.
   */
  lemma {:induction false} ExchangeSafeIff(s: Sys)
    requires Agreeing(s) && s.open && Enabled(s, Acquire(OUR_REQUEST))
    ensures CanExchange(s) <==> AlwaysAgrees(Apply(s, Acquire(OUR_REQUEST)))
  {
    var called := Apply(s, Acquire(OUR_REQUEST));
    if CanExchange(s) {
      AgreeingKept(s, Acquire(OUR_REQUEST));
      forall steps | Legal(called, steps, MtuPeer) ensures InAgreement(Run(called, steps, MtuPeer)) {
        AgreementKept(called, steps);
      }
    } else {
      var steps := UnsafeExchangeDisagrees(s);
      assert !InAgreement(Run(called, steps, MtuPeer));
    }
  }

  // Giving an exchange up.

  /** What is on its way while the client is behind. */
  lemma {:induction false} WhileBehind(s: Sys)
    requires Agreeing(s) && s.open && !Caught(s)
    ensures s.client.mtu == DEFAULT_MTU < Agreed(s.peerRx) && SendMtuRsp !in s.client.tasks
    ensures forall pdu :: pdu in s.toPeer && IsMtuPdu(pdu) ==> pdu == OUR_REQUEST
    ensures forall pdu :: pdu in s.fromPeer ==> !IsMtuRequest(pdu)
    ensures s.peerMtu == DEFAULT_MTU ==> forall pdu :: pdu in s.fromPeer ==> !IsMtuPdu(pdu)
    ensures s.peerMtu != DEFAULT_MTU ==> OurRequests(s.toPeer) == []
  {
    assert forall pdu :: pdu in s.fromPeer && IsMtuPdu(pdu) ==> pdu == MtuPdu(pdu[0], s.peerRx);
  }

  /** The exchange is out of the slot, and the peer has granted it or still can. */
  lemma {:induction false} GivenUpTooSoon(s: Sys) returns (steps: seq<Step>)
    requires SlotSound(s) && s.open && s.txn.None? && s.client.mtu == DEFAULT_MTU < Agreed(s.peerRx)
    requires SendMtuRsp !in s.client.tasks && s.peerMtu in {DEFAULT_MTU, Agreed(s.peerRx)}
    requires forall pdu :: pdu in s.toPeer && IsMtuPdu(pdu) ==> pdu == OUR_REQUEST
    requires forall pdu :: pdu in s.fromPeer ==> !IsMtuRequest(pdu)
    requires s.peerMtu == DEFAULT_MTU ==>
               |OurRequests(s.toPeer)| == 1 && forall pdu :: pdu in s.fromPeer ==> !IsMtuPdu(pdu)
    requires s.peerMtu != DEFAULT_MTU ==> OurRequests(s.toPeer) == []
    ensures Legal(s, steps, MtuPeer) && Disagrees(Run(s, steps, MtuPeer))
  {
    if s.peerMtu == DEFAULT_MTU {
      steps := GrantsInVain(s);
    } else {
      FilterMembers(IsOurRequest, s.toPeer);
      steps := StaysBehind(s);
    }
  }

  lemma {:induction false} GiveUpDisagrees(s: Sys, step: Step) returns (steps: seq<Step>)
    requires Agreeing(s) && s.open && InExchange(s) && !CanGiveUp(s)
    requires Enabled(s, step) && (step.Expire? || step.Abandon?)
    ensures Legal(Apply(s, step), steps, MtuPeer) && Disagrees(Run(Apply(s, step), steps, MtuPeer))
  {
    WhileBehind(s);
    SlotStep(s, step);
    var s' := Apply(s, step);
    if step.Abandon? {
      steps := GivenUpTooSoon(s');
    } else {
      SlotStep(s', Resume);
      var rest := GivenUpTooSoon(Apply(s', Resume));
      steps := [Resume] + rest;
      RunCons(s', Resume, rest, MtuPeer);
    }
  }

  /**
   * Exactly when may an exchange time out or be cancelled? In every continuation the two sides agree if and only if
   * the client has caught up, or will by a request on its way, or the peer has not granted the exchange and no
   * request of ours is left for it to grant.
   */
  lemma {:induction false} GiveUpSafeIff(s: Sys, step: Step)
    requires Agreeing(s) && s.open && InExchange(s)
    requires Enabled(s, step) && (step.Expire? || step.Abandon?)
    ensures CanGiveUp(s) <==> AlwaysAgrees(Apply(s, step))
  {
    if CanGiveUp(s) {
      AgreeingKept(s, step);
      forall steps | Legal(Apply(s, step), steps, MtuPeer) ensures InAgreement(Run(Apply(s, step), steps, MtuPeer)) {
        AgreementKept(Apply(s, step), steps);
      }
    } else {
      var steps := GiveUpDisagrees(s, step);
      assert !InAgreement(Run(Apply(s, step), steps, MtuPeer));
    }
  }
}

/** Both sides settle on one ATT_MTU, whichever side starts the exchange and even if both do. */
module MtuAgreement {
  import opened Bytes
  import opened Seqs
  import opened Att
  import opened AttClient
  import opened AttSystem
  import opened Transactions
  import opened Pairing

  const OUR_REQUEST: bytes := MtuPdu(EXCHANGE_MTU_REQ, PREFERRED_MTU)
  const OUR_RESPONSE: bytes := MtuPdu(EXCHANGE_MTU_RSP, PREFERRED_MTU)

  function Agreed(peerRx: u16): nat {
    NegotiatedMtu(PREFERRED_MTU, peerRx)
  }

  predicate IsMtuPdu(pdu: bytes) {
    pdu != [] && pdu[0] in {EXCHANGE_MTU_REQ, EXCHANGE_MTU_RSP}
  }

  /** The peer's MTU PDUs always announce its one receive MTU. */
  predicate Announces(pdu: bytes, peerRx: u16) {
    IsMtuPdu(pdu) ==> pdu == MtuPdu(pdu[0], peerRx)
  }

  function Errors(q: seq<bytes>): seq<bytes> {
    Filter(IsError, q)
  }

  /** Nothing that could refuse an exchange by mistake: no attribute request is unanswered, no error on its way. */
  predicate Clean(s: Sys) {
    Requests(s.toPeer) == [] && Errors(s.fromPeer) == []
  }

  /** The client has adopted the agreed MTU, or will by a request of the peer that is on its way. */
  predicate Caught(s: Sys) {
    s.client.mtu == Agreed(s.peerRx) || MtuPdu(EXCHANGE_MTU_REQ, s.peerRx) in s.fromPeer
  }

  /** What a client that is to start an exchange can look at before it. */
  predicate CanExchange(s: Sys) {
    Caught(s) || Clean(s)
  }

  predicate IsOurRequest(pdu: bytes) {
    pdu == OUR_REQUEST
  }

  /** Our requests that the peer has not taken yet. */
  function OurRequests(q: seq<bytes>): seq<bytes> {
    Filter(IsOurRequest, q)
  }

  /** An exchange can be given up: the client has caught up, or the peer neither granted it nor still can. */
  predicate CanGiveUp(s: Sys) {
    Caught(s) || (OurRequests(s.toPeer) == [] && s.peerMtu != Agreed(s.peerRx))
  }

  /**
   * A FIFO server whose receive MTU is fixed. It may ignore or refuse our request, start exchanges of its own at any
   * time, and repeat an Exchange MTU Response after it adopted the agreed value. The client asks for its preferred
   * MTU, its transactions may time out or be cancelled, exchanges only where they can be given up, and the link does
   * not lose its responses.
   */
  ghost predicate MtuCaller(s: Sys, step: Step) {
    && FifoPeer(s, step)
    && match step
       case Acquire(payload) => IsMtuRequest(payload) ==> payload == OUR_REQUEST
       case Expire(_) => InExchange(s) && s.open ==> CanGiveUp(s)
       case Abandon(_) => InExchange(s) && s.open ==> CanGiveUp(s)
       case DropTask(_) => !s.open
       case PeerServe(rsp) => Announces(rsp, s.peerRx)
       case PeerEmit(pdu) =>
         Announces(pdu, s.peerRx) &&
         (pdu == MtuPdu(EXCHANGE_MTU_RSP, s.peerRx) ==> s.peerMtu == Agreed(s.peerRx))
       case _ => true
  }

  /** The same, where every exchange is started on a bearer that allows it. */
  ghost predicate MtuPeer(s: Sys, step: Step) {
    MtuCaller(s, step) && (step == Acquire(OUR_REQUEST) && s.open ==> CanExchange(s))
  }

  /** The transaction in the slot is an MTU exchange whose future is done. */
  predicate ExchangeDone(s: Sys) {
    InExchange(s) && s.client.pending.Some? && s.client.pending.value.outcome.Some?
  }

  ghost predicate Values(s: Sys) {
    && s.client.mtu in {DEFAULT_MTU, Agreed(s.peerRx)}
    && s.peerMtu in {DEFAULT_MTU, Agreed(s.peerRx)}
    && (InExchange(s) ==> s.txn.value.payload == OUR_REQUEST)
    && (forall pdu :: pdu in s.fromPeer ==> Announces(pdu, s.peerRx))
    && (forall pdu :: pdu in s.toPeer && IsMtuPdu(pdu) ==> pdu in {OUR_REQUEST, OUR_RESPONSE})
    && (ExchangeDone(s) && s.client.pending.value.outcome.value.Data? ==> Granted(s) || Refused(s))
  }

  /** Our exchange is settled by the response, the peer's or the one its own request stands for. */
  predicate Granted(s: Sys) {
    ExchangeDone(s) && s.client.pending.value.outcome.value == Data(MtuPdu(EXCHANGE_MTU_RSP, s.peerRx))
  }

  predicate Refused(s: Sys) {
    ExchangeDone(s) && s.client.pending.value.outcome.value.Data? && IsError(s.client.pending.value.outcome.value.pdu)
  }

  predicate InSentExchange(s: Sys) {
    InExchange(s) && s.txn.value.sent
  }

  /** The client has not caught up: at most one request of ours is out, its exchange waits, and nothing disturbs it. */
  ghost predicate Behind(s: Sys) {
    var m := Agreed(s.peerRx);
    && |OurRequests(s.toPeer)| <= 1
    && (OurRequests(s.toPeer) != [] ==> InSentExchange(s) && !ExchangeDone(s) && Clean(s) && s.peerMtu != m)
    && (s.peerMtu == m ==>
          && InSentExchange(s) && Clean(s)
          && (Granted(s) || (!ExchangeDone(s) && MtuPdu(EXCHANGE_MTU_RSP, s.peerRx) in s.fromPeer)))
    && (InExchange(s) && !s.txn.value.sent ==> Clean(s))
    && (ExchangeDone(s) ==> s.txn.value.sent)
  }

  /** Whoever is ahead has something in flight that will bring the other side up. */
  ghost predicate Catching(s: Sys) {
    var m := Agreed(s.peerRx);
    && (MtuPdu(EXCHANGE_MTU_RSP, s.peerRx) in s.fromPeer ==> s.peerMtu == m)
    && (SendMtuRsp in s.client.tasks || OUR_RESPONSE in s.toPeer ==> s.client.mtu == m)
    && (Granted(s) ==> s.peerMtu == m || s.client.mtu == m)
    && (Caught(s) || Behind(s))
    && (s.client.mtu == m && s.peerMtu != m ==> SendMtuRsp in s.client.tasks || OUR_RESPONSE in s.toPeer)
  }

  ghost predicate Tracking(s: Sys) {
    Values(s) && (s.open ==> Catching(s))
  }

  ghost predicate Agreeing(s: Sys) {
    SlotSound(s) && Tracking(s)
  }

  /** Steps that leave the slot, the peer's PDUs and its MTU alone, and add no request. */
  lemma {:induction false} BehindKept(s: Sys, s': Sys)
    requires Behind(s) && (OurRequests(s'.toPeer) == [] || OurRequests(s'.toPeer) == OurRequests(s.toPeer))
    requires Requests(s'.toPeer) == [] || Requests(s'.toPeer) == Requests(s.toPeer)
    requires s'.txn == s.txn && s'.client.pending == s.client.pending && s'.fromPeer == s.fromPeer
    requires s'.peerMtu == s.peerMtu && s'.peerRx == s.peerRx
    ensures Behind(s')
  {
  }

  /** What delivering a PDU does: an exchange is settled by a response, by the peer's own request or by an error. */
  lemma {:induction false} DeliverPending(s: Sys)
    requires Agreeing(s) && Enabled(s, Deliver)
    ensures var c, c', pdu := s.client, OnData(s.client, s.fromPeer[0]), s.fromPeer[0];
            var rsp := MtuPdu(EXCHANGE_MTU_RSP, s.peerRx);
            var request := MtuPdu(EXCHANGE_MTU_REQ, s.peerRx);
            && c'.mtu == (if pdu == request then Agreed(s.peerRx) else c.mtu)
            && c'.tasks == c.tasks + (if pdu == request then [SendMtuRsp]
                                      else if pdu != [] && pdu[0] == HANDLE_VALUE_IND then [Confirm] else [])
            && (InExchange(s) ==>
                  c'.pending == if c.Waiting() && (pdu in {rsp, request} || IsError(pdu))
                                then Some(c.pending.value.(outcome := Some(Data(if pdu == request then rsp else pdu))))
                                else c.pending)
  {
    MtuPduCarries(EXCHANGE_MTU_REQ, s.peerRx);
    assert Announces(s.fromPeer[0], s.peerRx);
  }

  lemma {:induction false} DeliverValues(s: Sys)
    requires Agreeing(s) && Enabled(s, Deliver)
    ensures Values(Apply(s, Deliver))
  {
    DeliverPending(s);
    SlotStep(s, Deliver);
    assert forall p :: p in Apply(s, Deliver).fromPeer ==> p in s.fromPeer;
  }

  lemma {:induction false} DeliverTracks(s: Sys)
    requires Agreeing(s) && Enabled(s, Deliver)
    ensures Values(Apply(s, Deliver)) && Catching(Apply(s, Deliver))
  {
    DeliverValues(s);
    DeliverPending(s);
    SlotStep(s, Deliver);
    var s', pdu := Apply(s, Deliver), s.fromPeer[0];
    assert forall p :: p in s'.fromPeer ==> p in s.fromPeer;
    assert forall p :: p in s.fromPeer ==> p == pdu || p in s'.fromPeer;
    if !Caught(s) {
      DeliverBehind(s);
    }
  }

  lemma {:induction false} DeliverBehind(s: Sys)
    requires Agreeing(s) && Enabled(s, Deliver) && !Caught(s)
    ensures Behind(Apply(s, Deliver))
  {
    DeliverPending(s);
    SlotStep(s, Deliver);
    var s', pdu := Apply(s, Deliver), s.fromPeer[0];
    assert pdu in s.fromPeer;
    assert forall p :: p in s.fromPeer ==> p == pdu || p in s'.fromPeer;
    TakeFirst(IsError, s.fromPeer);
  }

  /** Taking a PDU from the client makes the peer adopt the agreed value, or changes nothing. */
  lemma {:induction false} PeerReceives(s: Sys, granted: bool)
    requires Values(s) && s.toPeer != []
    ensures var pdu := s.toPeer[0];
            PeerReceive(s, granted).peerMtu ==
              if pdu == OUR_RESPONSE || (granted && pdu == OUR_REQUEST) then Agreed(s.peerRx) else s.peerMtu
  {
    MtuPduCarries(EXCHANGE_MTU_REQ, PREFERRED_MTU);
    MtuPduCarries(EXCHANGE_MTU_RSP, PREFERRED_MTU);
    var pdu := s.toPeer[0];
    assert IsMtuPdu(pdu) ==> pdu in {OUR_REQUEST, OUR_RESPONSE};
    assert OUR_REQUEST[0] == EXCHANGE_MTU_REQ && OUR_RESPONSE[0] == EXCHANGE_MTU_RSP;
  }

  lemma {:induction false} ServeTracks(s: Sys, rsp: bytes)
    requires Agreeing(s) && Enabled(s, PeerServe(rsp)) && MtuCaller(s, PeerServe(rsp))
    ensures Values(Apply(s, PeerServe(rsp))) && Catching(Apply(s, PeerServe(rsp)))
  {
    PeerReceives(s, rsp != [] && rsp[0] == EXCHANGE_MTU_RSP);
    var s' := Apply(s, PeerServe(rsp));
    var request := s.toPeer[0];
    assert forall pdu :: pdu in s'.toPeer ==> pdu in s.toPeer;
    assert forall pdu :: pdu in s.toPeer ==> pdu == request || pdu in s'.toPeer;
    assert forall pdu :: pdu in s'.fromPeer <==> pdu in s.fromPeer || pdu == rsp;
    assert IsMtuRequest(request) ==> IsMtuPdu(request) && request in {OUR_REQUEST, OUR_RESPONSE};
    assert OUR_RESPONSE[0] == EXCHANGE_MTU_RSP;
    assert rsp == MtuPdu(EXCHANGE_MTU_RSP, s.peerRx) ==> rsp[0] == EXCHANGE_MTU_RSP;
    if !Caught(s) {
      ServeBehind(s, rsp);
    }
  }

  /** The peer grants or refuses our request: it is the only one out. */
  lemma {:induction false} AnswerBehind(s: Sys, rsp: bytes)
    requires Agreeing(s) && Enabled(s, PeerServe(rsp)) && MtuCaller(s, PeerServe(rsp)) && IsMtuRequest(s.toPeer[0])
    requires !Caught(s)
    ensures Behind(Apply(s, PeerServe(rsp)))
  {
    PeerReceives(s, rsp != [] && rsp[0] == EXCHANGE_MTU_RSP);
    TakeFirst(IsOurRequest, s.toPeer);
    TakeFirst(IsAttributeRequest, s.toPeer);
    FilterAppend(IsError, s.fromPeer, rsp);
    var s', request := Apply(s, PeerServe(rsp)), s.toPeer[0];
    assert IsMtuPdu(request) && OUR_RESPONSE[0] == EXCHANGE_MTU_RSP && request == OUR_REQUEST;
    assert OurRequests(s.toPeer) != [] && OurRequests(s'.toPeer) == [];
    assert rsp in s'.fromPeer;
    if !IsError(rsp) {
      assert Errors(s'.fromPeer) == Errors(s.fromPeer) + [] == [];
    }
  }

  lemma {:induction false} ServeBehind(s: Sys, rsp: bytes)
    requires Agreeing(s) && Enabled(s, PeerServe(rsp)) && MtuCaller(s, PeerServe(rsp)) && !Caught(s)
    ensures Behind(Apply(s, PeerServe(rsp)))
  {
    if IsMtuRequest(s.toPeer[0]) {
      AnswerBehind(s, rsp);
    } else {
      PeerReceives(s, rsp != [] && rsp[0] == EXCHANGE_MTU_RSP);
      TakeFirst(IsOurRequest, s.toPeer);
      TakeFirst(IsAttributeRequest, s.toPeer);
      assert IsAttributeRequest(s.toPeer[0]) && !Clean(s);
      assert OUR_REQUEST[0] == EXCHANGE_MTU_REQ && OUR_RESPONSE[0] == EXCHANGE_MTU_RSP;
    }
  }

  lemma {:induction false} TakeTracks(s: Sys)
    requires Agreeing(s) && Enabled(s, PeerTake)
    ensures Values(Apply(s, PeerTake)) && Catching(Apply(s, PeerTake))
  {
    PeerReceives(s, false);
    var s' := Apply(s, PeerTake);
    if !Caught(s) {
      TakeBehind(s);
    }
    assert forall pdu :: pdu in s'.toPeer ==> pdu in s.toPeer;
    assert forall pdu :: pdu in s.toPeer ==> pdu == s.toPeer[0] || pdu in s'.toPeer;
  }

  lemma {:induction false} TakeBehind(s: Sys)
    requires Agreeing(s) && Enabled(s, PeerTake) && !Caught(s)
    ensures Behind(Apply(s, PeerTake))
  {
    PeerReceives(s, false);
    TakeFirst(IsOurRequest, s.toPeer);
    TakeFirst(IsAttributeRequest, s.toPeer);
    assert s.toPeer[0] in s.toPeer && s.toPeer[0] != OUR_RESPONSE;
  }

  lemma {:induction false} ResumeTracks(s: Sys)
    requires Agreeing(s) && Enabled(s, Resume)
    ensures Values(Apply(s, Resume)) && (s.open ==> Catching(Apply(s, Resume)))
  {
    MtuPduCarries(EXCHANGE_MTU_REQ, PREFERRED_MTU);
    MtuPduCarries(EXCHANGE_MTU_RSP, s.peerRx);
  }

  /** The client sends something that is not a request of ours. */
  ghost predicate Sends(s: Sys, s': Sys, pdu: bytes) {
    && s'.toPeer == s.toPeer + [pdu] && !IsOurRequest(pdu) && !IsAttributeRequest(pdu)
    && (IsMtuPdu(pdu) ==> pdu == OUR_RESPONSE && s.client.mtu == Agreed(s.peerRx))
    && s'.txn == s.txn && s'.fromPeer == s.fromPeer && s'.open == s.open
    && s'.peerMtu == s.peerMtu && s'.peerRx == s.peerRx
    && s'.client.pending == s.client.pending && s'.client.mtu == s.client.mtu
    && (forall t :: t in s'.client.tasks ==> t in s.client.tasks)
    && (SendMtuRsp in s.client.tasks ==> SendMtuRsp in s'.client.tasks || pdu == OUR_RESPONSE)
  }

  lemma {:induction false} SentTracks(s: Sys, s': Sys, pdu: bytes)
    requires Tracking(s) && s.open && Sends(s, s', pdu)
    ensures Values(s') && Catching(s')
  {
    FilterAppend(IsOurRequest, s.toPeer, pdu);
    FilterAppend(IsAttributeRequest, s.toPeer, pdu);
    assert OurRequests(s'.toPeer) == OurRequests(s.toPeer) + [] == OurRequests(s.toPeer);
    assert Requests(s'.toPeer) == Requests(s.toPeer) + [] == Requests(s.toPeer);
    assert forall p :: p in s'.toPeer <==> p in s.toPeer || p == pdu;
    assert IsMtuPdu(OUR_RESPONSE);
    if !Caught(s) {
      BehindKept(s, s');
    }
  }

  lemma {:induction false} TaskTracks(s: Sys, i: nat)
    requires Agreeing(s) && Enabled(s, RunTask(i))
    ensures Values(Apply(s, RunTask(i))) && Catching(Apply(s, RunTask(i)))
  {
    var s', task := Apply(s, RunTask(i)), s.client.tasks[i];
    assert OUR_REQUEST[0] == EXCHANGE_MTU_REQ && OUR_RESPONSE[0] == EXCHANGE_MTU_RSP;
    assert task in s.client.tasks;
    assert forall t :: t in s'.client.tasks ==> t in s.client.tasks;
    assert forall t :: t in s.client.tasks ==> t == task || t in s'.client.tasks;
    SentTracks(s, s', TaskPdu(task));
  }

  lemma {:induction false} CommandTracks(s: Sys, payload: bytes)
    requires Agreeing(s) && Enabled(s, WriteCommand(payload))
    ensures Values(Apply(s, WriteCommand(payload))) && Catching(Apply(s, WriteCommand(payload)))
  {
    assert OUR_REQUEST[0] == EXCHANGE_MTU_REQ;
    SentTracks(s, Apply(s, WriteCommand(payload)), payload);
  }

  lemma {:induction false} SendRequestTracks(s: Sys)
    requires Agreeing(s) && Enabled(s, SendRequest)
    ensures Values(Apply(s, SendRequest)) && Catching(Apply(s, SendRequest))
  {
    var s', payload := Apply(s, SendRequest), s.txn.value.payload;
    assert OUR_REQUEST[0] == EXCHANGE_MTU_REQ && OUR_RESPONSE[0] == EXCHANGE_MTU_RSP;
    assert forall pdu :: pdu in s'.toPeer <==> pdu in s.toPeer || pdu == payload;
    if !Caught(s) {
      SendRequestBehind(s);
    }
  }

  lemma {:induction false} SendRequestBehind(s: Sys)
    requires SlotSound(s) && Enabled(s, SendRequest) && Behind(s)
    requires InExchange(s) ==> s.txn.value.payload == OUR_REQUEST
    ensures Behind(Apply(s, SendRequest))
  {
    var s', payload := Apply(s, SendRequest), s.txn.value.payload;
    FilterAppend(IsOurRequest, s.toPeer, payload);
    FilterAppend(IsAttributeRequest, s.toPeer, payload);
    assert OUR_REQUEST[0] == EXCHANGE_MTU_REQ;
    assert OurRequests(s.toPeer) == [] && |OurRequests(s'.toPeer)| <= 1;
    assert Requests(s.toPeer) + [] == Requests(s.toPeer);
  }

  lemma {:induction false} EmitTracks(s: Sys, pdu: bytes)
    requires Agreeing(s) && Enabled(s, PeerEmit(pdu)) && MtuCaller(s, PeerEmit(pdu))
    ensures Values(Apply(s, PeerEmit(pdu))) && Catching(Apply(s, PeerEmit(pdu)))
  {
    var s' := Apply(s, PeerEmit(pdu));
    FilterAppend(IsError, s.fromPeer, pdu);
    assert Errors(s'.fromPeer) == Errors(s.fromPeer) + [] == Errors(s.fromPeer);
    assert forall p :: p in s'.fromPeer <==> p in s.fromPeer || p == pdu;
  }

  lemma {:induction false} SlotTracks(s: Sys, step: Step)
    requires Agreeing(s) && Enabled(s, step) && MtuPeer(s, step)
    requires !step.Deliver? && !step.PeerServe? && !step.PeerTake? && !step.Resume? && !step.RunTask?
    requires !step.SendRequest? && !step.WriteCommand? && !step.PeerEmit?
    ensures Values(Apply(s, step)) && (Apply(s, step).open ==> Catching(Apply(s, step)))
  {
  }

  lemma {:induction false} AgreeingKept(s: Sys, step: Step)
    requires Agreeing(s) && Enabled(s, step) && MtuPeer(s, step)
    ensures Agreeing(Apply(s, step)) && Apply(s, step).peerRx == s.peerRx
  {
    SlotStep(s, step);
    match step
    case Deliver => DeliverTracks(s);
    case PeerServe(rsp) => ServeTracks(s, rsp);
    case PeerTake => TakeTracks(s);
    case Resume => ResumeTracks(s);
    case RunTask(i) => TaskTracks(s, i);
    case SendRequest => SendRequestTracks(s);
    case WriteCommand(payload) => CommandTracks(s, payload);
    case PeerEmit(pdu) => EmitTracks(s, pdu);
    case _ => SlotTracks(s, step);
  }

  /** No Exchange MTU PDU is on its way in either direction, nor waiting to be sent or consumed. */
  ghost predicate NoMtuInFlight(s: Sys) {
    && (forall pdu :: pdu in s.toPeer || pdu in s.fromPeer ==> !IsMtuPdu(pdu))
    && SendMtuRsp !in s.client.tasks
    && !ExchangeDone(s)
  }

  ghost predicate InAgreement(s: Sys) {
    s.open && NoMtuInFlight(s) ==> s.client.mtu == s.peerMtu
  }

  /**
   * In every run the client's MTU is the default or the agreed value, and whenever the link is up and no
   * MTU PDU is in flight both sides hold the same one.
   */
  lemma {:induction false} BothSidesAgree(peerRx: u16, steps: seq<Step>)
    requires Legal(Init(peerRx), steps, MtuPeer)
    ensures var end := Run(Init(peerRx), steps, MtuPeer);
            && end.client.mtu in {23, Max(23, Min(247, peerRx))} && InAgreement(end)
  {
    AgreementKept(Init(peerRx), steps);
  }

  lemma {:induction false} AgreementKept(s: Sys, steps: seq<Step>)
    requires Agreeing(s) && Legal(s, steps, MtuPeer)
    ensures var end := Run(s, steps, MtuPeer); Agreeing(end) && InAgreement(end) && end.peerRx == s.peerRx
  {
    forall t, step | Agreeing(t) && t.peerRx == s.peerRx && Enabled(t, step) && MtuPeer(t, step)
      ensures Agreeing(Apply(t, step)) && Apply(t, step).peerRx == s.peerRx
    {
      AgreeingKept(t, step);
    }
    RunKeeps(s, steps, MtuPeer, t => Agreeing(t) && t.peerRx == s.peerRx);
    AgreeingAgrees(Run(s, steps, MtuPeer));
  }

  lemma {:induction false} AgreeingAgrees(s: Sys)
    requires Agreeing(s)
    ensures InAgreement(s)
  {
    if s.open && NoMtuInFlight(s) {
      assert IsMtuPdu(MtuPdu(EXCHANGE_MTU_RSP, s.peerRx)) && IsMtuPdu(OUR_RESPONSE);
      assert IsMtuPdu(MtuPdu(EXCHANGE_MTU_REQ, s.peerRx));
    }
  }

  // A peer that never agrees.

  /** The peer neither grants our exchange nor starts one. */
  ghost predicate RefusingPeer(s: Sys, step: Step) {
    && MtuPeer(s, step)
    && match step
       case PeerServe(rsp) => !IsMtuPdu(rsp)
       case PeerEmit(pdu) => !IsMtuPdu(pdu)
       case _ => true
  }

  /** Neither side has adopted anything, and nothing is on its way that would change that. */
  ghost predicate Unchanged(s: Sys) {
    && s.client.mtu == s.peerMtu == DEFAULT_MTU
    && (forall pdu :: pdu in s.fromPeer ==> !IsMtuPdu(pdu))
    && SendMtuRsp !in s.client.tasks && OUR_RESPONSE !in s.toPeer && !Granted(s)
  }

  ghost predicate Default(s: Sys) {
    Agreeing(s) && Unchanged(s)
  }

  lemma {:induction false} DefaultDelivered(s: Sys)
    requires Default(s) && Enabled(s, Deliver)
    ensures Unchanged(Apply(s, Deliver))
  {
    DeliverPending(s);
    assert s.fromPeer[0] in s.fromPeer;
    assert IsMtuPdu(MtuPdu(EXCHANGE_MTU_REQ, s.peerRx)) && IsMtuPdu(MtuPdu(EXCHANGE_MTU_RSP, s.peerRx));
    SlotStep(s, Deliver);
    assert forall pdu :: pdu in Apply(s, Deliver).fromPeer ==> pdu in s.fromPeer;
  }

  lemma {:induction false} DefaultTaken(s: Sys, step: Step)
    requires Default(s) && Enabled(s, step) && RefusingPeer(s, step) && (step.PeerServe? || step.PeerTake?)
    ensures Unchanged(Apply(s, step))
  {
    PeerReceives(s, false);
    var s' := Apply(s, step);
    assert s.toPeer[0] in s.toPeer && forall pdu :: pdu in s'.toPeer ==> pdu in s.toPeer;
    if step.PeerServe? {
      assert step.rsp != [] && step.rsp[0] != EXCHANGE_MTU_RSP;
    }
  }

  lemma {:induction false} DefaultSent(s: Sys, step: Step)
    requires Unchanged(s) && SlotSound(s) && Enabled(s, step)
    requires step.SendRequest? || step.WriteCommand? || step.RunTask? || step.DropTask?
    ensures Unchanged(Apply(s, step))
  {
    assert OUR_RESPONSE[0] == EXCHANGE_MTU_RSP;
    var s' := Apply(s, step);
    match step
    case SendRequest => assert forall pdu :: pdu in s'.toPeer ==> pdu in s.toPeer || pdu == s.txn.value.payload;
    case WriteCommand(payload) => assert forall pdu :: pdu in s'.toPeer ==> pdu in s.toPeer || pdu == payload;
    case RunTask(i) =>
      assert s.client.tasks[i] == Confirm;
      assert forall pdu :: pdu in s'.toPeer ==> pdu in s.toPeer || pdu == [HANDLE_VALUE_CFM];
    case DropTask(_) =>
  }

  lemma {:induction false} DefaultElse(s: Sys, step: Step)
    requires Unchanged(s) && Values(s) && Enabled(s, step) && RefusingPeer(s, step)
    requires !step.Deliver? && !step.PeerServe? && !step.PeerTake?
    requires !step.SendRequest? && !step.WriteCommand? && !step.RunTask? && !step.DropTask?
    ensures Unchanged(Apply(s, step))
  {
    if step.Resume? && InExchange(s) {
      ResumeRefused(s);
    }
  }

  lemma {:induction false} ResumeRefused(s: Sys)
    requires Values(s) && Enabled(s, Resume) && InExchange(s) && !Granted(s)
    ensures Apply(s, Resume).client.mtu == s.client.mtu
  {
  }

  lemma {:induction false} DefaultKept(s: Sys, step: Step)
    requires Default(s) && Enabled(s, step) && RefusingPeer(s, step)
    ensures Default(Apply(s, step))
  {
    AgreeingKept(s, step);
    match step
    case Deliver => DefaultDelivered(s);
    case PeerServe(_) => DefaultTaken(s, step);
    case PeerTake => DefaultTaken(s, step);
    case SendRequest => DefaultSent(s, step);
    case WriteCommand(_) => DefaultSent(s, step);
    case RunTask(_) => DefaultSent(s, step);
    case DropTask(_) => DefaultSent(s, step);
    case _ => DefaultElse(s, step);
  }

  /** Without an exchange that the peer grants or starts, both sides keep the default MTU, refusals or not. */
  lemma {:induction false} RefusalsKeepDefault(peerRx: u16, steps: seq<Step>)
    requires Legal(Init(peerRx), steps, RefusingPeer)
    ensures var end := Run(Init(peerRx), steps, RefusingPeer); end.client.mtu == end.peerMtu == DEFAULT_MTU
  {
    forall t, step | Default(t) && Enabled(t, step) && RefusingPeer(t, step) ensures Default(Apply(t, step)) {
      DefaultKept(t, step);
    }
    RunKeeps(Init(peerRx), steps, RefusingPeer, Default);
  }
}

/**
 * Request/response pairing. ATT responses carry no transaction id, so a client that
 * fed any of the interleaved PDUs to the wrong request would go out of step with the
 * server; this module shows that it never does.
 */
module Pairing {
  import opened Bytes
  import opened Seqs
  import opened Att
  import opened AttClient
  import opened AttSystem
  import opened Transactions

  /** PDUs that answer a request other than Exchange MTU. */
  predicate IsResponse(pdu: bytes) {
    pdu != [] &&
    pdu[0] in {ERROR_RSP, FIND_INFO_RSP, READ_BY_TYPE_RSP, READ_RSP, READ_BLOB_RSP, READ_BY_GROUP_TYPE_RSP, WRITE_RSP}
  }

  predicate IsError(pdu: bytes) {
    pdu != [] && pdu[0] == ERROR_RSP
  }

  /** The response to this request, which in ATT has the next opcode, or an error. */
  predicate Answers(rsp: bytes, request: bytes) {
    IsAttributeRequest(request) && rsp != [] && rsp[0] in {0x01, request[0] + 1}
  }

  function Requests(q: seq<bytes>): seq<bytes> {
    Filter(IsAttributeRequest, q)
  }

  function Responses(q: seq<bytes>): seq<bytes> {
    Filter(IsResponse, q)
  }

  /**
   * A server that answers requests in order: attribute requests with their response or an error, Exchange MTU
   * with a response or a refusal, or not at all. Between answers it may send anything that is not an answer,
   * stale or duplicate Exchange MTU Responses included.
   */
  ghost predicate FifoPeer(s: Sys, step: Step) {
    match step
    case PeerServe(rsp) =>
      s.toPeer != [] &&
      (Answers(rsp, s.toPeer[0]) ||
       (IsMtuRequest(s.toPeer[0]) && rsp != [] && rsp[0] in {EXCHANGE_MTU_RSP, ERROR_RSP}))
    case PeerEmit(pdu) => !IsResponse(pdu)
    case _ => true
  }

  predicate InExchange(s: Sys) {
    s.txn.Some? && IsMtuRequest(s.txn.value.payload)
  }

  /** PDUs that settle an exchange. */
  predicate Settles(pdu: bytes) {
    pdu != [] && pdu[0] in {ERROR_RSP, EXCHANGE_MTU_REQ, EXCHANGE_MTU_RSP}
  }

  function Settlers(q: seq<bytes>): seq<bytes> {
    Filter(Settles, q)
  }

  /** Our exchange is waiting, and nothing that would settle it is on its way. */
  predicate Awaited(s: Sys) {
    InExchange(s) && s.txn.value.sent && s.client.Waiting() && Settlers(s.fromPeer) == []
  }

  predicate IsRefusal(s: Sys, step: Step) {
    step.PeerServe? && s.toPeer != [] && IsMtuRequest(s.toPeer[0]) && step.rsp != [] && step.rsp[0] == ERROR_RSP
  }

  /** No transaction times out or is cancelled, and our exchange is refused only while it is awaited. */
  ghost predicate FifoServer(s: Sys, step: Step) {
    FifoPeer(s, step) && !step.Expire? && !step.Abandon? && (IsRefusal(s, step) ==> Awaited(s))
  }

  /** Where the transaction in the slot stands. */
  datatype Phase =
    | Idle                                   // none, not sent, or an exchange that is settled
    | Exchanging                             // an MTU exchange that waits
    | Asked(payload: bytes)
    | Done(payload: bytes, pdu: bytes)
    | Failed

  function SlotPhase(txn: Option<Txn>, pending: Option<Pending>): Phase {
    if txn.None? || pending.None? then Idle
    else
      var payload, sent, outcome := txn.value.payload, txn.value.sent, pending.value.outcome;
      if IsMtuRequest(payload) then if sent && outcome.None? then Exchanging else Idle
      else if outcome.None? then if sent then Asked(payload) else Idle
      else if outcome.value.Data? then Done(payload, outcome.value.pdu)
      else Failed
  }

  function PhaseOf(s: Sys): Phase {
    SlotPhase(s.txn, s.client.pending)
  }

  /** The part of the state that pairing is about. */
  datatype Books = Books(
    open: bool,
    phase: Phase,
    requests: seq<bytes>,
    responses: seq<bytes>,
    settlers: seq<bytes>,
    completed: seq<Exchange>,
    served: seq<Exchange>)

  function BooksOf(s: Sys): Books {
    Books(s.open, PhaseOf(s), Requests(s.toPeer), Responses(s.fromPeer), Settlers(s.fromPeer), s.completed, s.served)
  }

  /** The only answer in flight, if any, is the answer to the pending request, or the refusal of the exchange. */
  ghost predicate Balanced(b: Books) {
    match b.phase
    case Idle =>
      && b.completed <= b.served && |b.served| <= |b.completed| + 1
      && (b.open ==> b.requests == [] && b.responses == [] && b.completed == b.served)
    case Exchanging =>
      && b.completed <= b.served && |b.served| <= |b.completed| + 1
      && (b.open ==> b.requests == [] && b.completed == b.served)
      && (b.open && b.responses != [] ==>
            |b.responses| == 1 && IsError(b.responses[0]) && b.settlers != [] && b.settlers[0] == b.responses[0])
    case Asked(payload) =>
      if b.responses == [] then b.completed == b.served && (b.requests == [] || b.requests == [payload])
      else
        && b.requests == [] && |b.responses| == 1
        && Answers(b.responses[0], payload)
        && b.served == b.completed + [Exchange(payload, b.responses[0])]
    case Done(payload, pdu) =>
      && b.served == b.completed + [Exchange(payload, pdu)]
      && (b.open ==> b.requests == [] && b.responses == [])
    case Failed => !b.open && b.completed <= b.served && |b.served| <= |b.completed| + 1
  }

  ghost predicate InStep(s: Sys) {
    && SlotSound(s)
    && (s.txn.Some? && !s.txn.value.sent ==> !PhaseOf(s).Done?)
    && Balanced(BooksOf(s))
  }

  /** What delivering a PDU does to a transaction. */
  lemma {:induction false} DeliverPhase(s: Sys)
    requires SlotSound(s) && Enabled(s, Deliver)
    ensures SlotSound(Apply(s, Deliver))
    ensures var phase, pdu := PhaseOf(s), s.fromPeer[0];
            var after := PhaseOf(Apply(s, Deliver));
            match phase
            case Asked(payload) =>
              after == (if Answers(pdu, payload) then Done(payload, pdu) else phase)
            case Exchanging => after == (if Settles(pdu) then Idle else phase)
            case Idle => after == Idle || (IsResponse(pdu) && s.txn.Some?)
            case _ => after == phase
  {
    SlotStep(s, Deliver);
  }

  lemma {:induction false} DeliverInStep(s: Sys)
    requires InStep(s) && Enabled(s, Deliver)
    ensures InStep(Apply(s, Deliver))
  {
    DeliverPhase(s);
    var b, b', pdu := BooksOf(s), BooksOf(Apply(s, Deliver)), s.fromPeer[0];
    TakeFirst(IsResponse, s.fromPeer);
    TakeFirst(Settles, s.fromPeer);
    assert b' == b.(phase := b'.phase, responses := b'.responses, settlers := b'.settlers);
    DeliverBalanced(b, b', pdu);
  }

  lemma {:induction false} TakeFirst(p: bytes -> bool, q: seq<bytes>)
    requires q != []
    ensures Filter(p, q) == if p(q[0]) then [q[0]] + Filter(p, q[1..]) else Filter(p, q[1..])
  {
    assert [] + Filter(p, q[1..]) == Filter(p, q[1..]);
  }

  lemma {:induction false} DeliverBalanced(b: Books, b': Books, pdu: bytes)
    requires Balanced(b) && b.open
    requires b.responses == if IsResponse(pdu) then [pdu] + b'.responses else b'.responses
    requires b.settlers == if Settles(pdu) then [pdu] + b'.settlers else b'.settlers
    requires b' == b.(phase := b'.phase, responses := b'.responses, settlers := b'.settlers)
    requires match b.phase
             case Asked(payload) => b'.phase == if Answers(pdu, payload) then Done(payload, pdu) else b.phase
             case Exchanging => b'.phase == if Settles(pdu) then Idle else b.phase
             case Idle => b'.phase == Idle || IsResponse(pdu)
             case _ => b'.phase == b.phase
    ensures Balanced(b') && (b.phase.Idle? ==> b'.phase.Idle?)
  {
    if IsResponse(pdu) {
      assert b.responses != [] && b.responses[0] == pdu;
      assert |b.responses| == 1 + |b'.responses|;
    }
  }

  lemma {:induction false} ServeBalanced(b: Books, b': Books, request: bytes, rsp: bytes)
    requires Balanced(b) && b.open && Answers(rsp, request) && IsResponse(rsp)
    requires b.requests == [request] + b'.requests
    requires b' == b.(requests := b'.requests, responses := b.responses + [rsp], settlers := b'.settlers,
                      served := b.served + [Exchange(request, rsp)])
    ensures Balanced(b')
  {
    assert b.phase.Asked? && b.responses == [];
    assert b.requests[0] == request;
  }

  lemma {:induction false} ServeBooks(s: Sys, rsp: bytes)
    requires SlotSound(s) && Enabled(s, PeerServe(rsp)) && FifoServer(s, PeerServe(rsp))
    ensures SlotSound(Apply(s, PeerServe(rsp)))
    ensures var b, b' := BooksOf(s), BooksOf(Apply(s, PeerServe(rsp)));
            && (Settles(rsp) ==> b'.settlers == b.settlers + [rsp])
            && if Answers(rsp, s.toPeer[0])
               then b.requests == [s.toPeer[0]] + b'.requests &&
                    b' == b.(requests := b'.requests, responses := b.responses + [rsp], settlers := b'.settlers,
                             served := b.served + [Exchange(s.toPeer[0], rsp)])
               else b' == b.(responses := if IsResponse(rsp) then b.responses + [rsp] else b.responses,
                             settlers := b'.settlers)
  {
    SlotStep(s, PeerServe(rsp));
    FilterAppend(IsResponse, s.fromPeer, rsp);
    FilterAppend(Settles, s.fromPeer, rsp);
    assert Responses(s.fromPeer) + [] == Responses(s.fromPeer);
    var request := s.toPeer[0];
    assert Requests(s.toPeer) == (if IsAttributeRequest(request) then [request] else []) + Requests(s.toPeer[1..]);
  }

  lemma {:induction false} ServeInStep(s: Sys, rsp: bytes)
    requires InStep(s) && Enabled(s, PeerServe(rsp)) && FifoServer(s, PeerServe(rsp))
    ensures InStep(Apply(s, PeerServe(rsp)))
  {
    ServeBooks(s, rsp);
    if Answers(rsp, s.toPeer[0]) {
      ServeBalanced(BooksOf(s), BooksOf(Apply(s, PeerServe(rsp))), s.toPeer[0], rsp);
    } else if IsRefusal(s, PeerServe(rsp)) {
      assert PhaseOf(s).Exchanging? && BooksOf(s).settlers == [] && BooksOf(s).responses == [];
    }
  }

  lemma {:induction false} PeerInStep(s: Sys, step: Step)
    requires InStep(s) && Enabled(s, step) && FifoServer(s, step)
    requires step.PeerTake? || step.PeerEmit? || step.PeerClose? || step.LocalClose?
    ensures InStep(Apply(s, step))
  {
    SlotStep(s, step);
    var b, b' := BooksOf(s), BooksOf(Apply(s, step));
    if step.PeerEmit? {
      FilterAppend(IsResponse, s.fromPeer, step.pdu);
      FilterAppend(Settles, s.fromPeer, step.pdu);
      assert b' == b.(settlers := b'.settlers);
    } else if step.PeerTake? {
      assert b.requests == (if IsAttributeRequest(s.toPeer[0]) then [s.toPeer[0]] else []) + b'.requests;
      assert b' == b.(requests := b'.requests);
    } else {
      assert b' == b.(open := false, phase := b'.phase);
    }
  }

  lemma {:induction false} SendRequestInStep(s: Sys)
    requires InStep(s) && Enabled(s, SendRequest)
    ensures InStep(Apply(s, SendRequest))
  {
    SlotStep(s, SendRequest);
    var b, b' := BooksOf(s), BooksOf(Apply(s, SendRequest));
    FilterAppend(IsAttributeRequest, s.toPeer, s.txn.value.payload);
    assert b' == b.(phase := b'.phase, requests := b'.requests);
  }

  /** Confirmations and MTU Responses are not requests. */
  lemma {:induction false} TaskInStep(s: Sys, i: nat)
    requires InStep(s) && Enabled(s, RunTask(i))
    ensures InStep(Apply(s, RunTask(i)))
  {
    FilterAppend(IsAttributeRequest, s.toPeer, TaskPdu(s.client.tasks[i]));
    SlotStep(s, RunTask(i));
    assert BooksOf(Apply(s, RunTask(i))) == BooksOf(s);
  }

  lemma {:induction false} CommandInStep(s: Sys, payload: bytes)
    requires InStep(s) && Enabled(s, WriteCommand(payload))
    ensures InStep(Apply(s, WriteCommand(payload)))
  {
    FilterAppend(IsAttributeRequest, s.toPeer, payload);
    SlotStep(s, WriteCommand(payload));
    assert BooksOf(Apply(s, WriteCommand(payload))) == BooksOf(s);
  }

  lemma {:induction false} SlotInStep(s: Sys, step: Step)
    requires InStep(s) && Enabled(s, step) && FifoServer(s, step)
    requires step.Acquire? || step.SendFails?
    ensures InStep(Apply(s, step))
  {
    SlotStep(s, step);
    var b, b' := BooksOf(s), BooksOf(Apply(s, step));
    assert b' == b.(phase := b'.phase);
  }

  lemma {:induction false} ResumeInStep(s: Sys)
    requires InStep(s) && Enabled(s, Resume)
    ensures InStep(Apply(s, Resume))
  {
    SlotStep(s, Resume);
    var b, b' := BooksOf(s), BooksOf(Apply(s, Resume));
    assert b' == b.(phase := Idle, completed := b'.completed);
  }

  lemma {:induction false} InStepKept(s: Sys, step: Step)
    requires InStep(s) && Enabled(s, step) && FifoServer(s, step)
    ensures InStep(Apply(s, step))
  {
    match step
    case Deliver => DeliverInStep(s);
    case PeerServe(rsp) => ServeInStep(s, rsp);
    case PeerEmit(_) => PeerInStep(s, step);
    case PeerTake => PeerInStep(s, step);
    case PeerClose(_) => PeerInStep(s, step);
    case LocalClose => PeerInStep(s, step);
    case SendRequest => SendRequestInStep(s);
    case RunTask(i) => TaskInStep(s, i);
    case WriteCommand(payload) => CommandInStep(s, payload);
    case Acquire(_) => SlotInStep(s, step);
    case SendFails => SlotInStep(s, step);
    case Resume => ResumeInStep(s);
    case _ =>
  }

  lemma {:induction false} StaysInStep(s: Sys, steps: seq<Step>)
    requires InStep(s) && Legal(s, steps, FifoServer)
    ensures InStep(Run(s, steps, FifoServer))
    ensures var end := Run(s, steps, FifoServer);
            end.completed <= end.served && |end.served| <= |end.completed| + 1
  {
    forall t, step | InStep(t) && Enabled(t, step) && FifoServer(t, step) ensures InStep(Apply(t, step)) {
      InStepKept(t, step);
    }
    RunKeeps(s, steps, FifoServer, InStep);
  }

  /**
   * In every run with a FIFO server, the k-th attribute transaction to complete is the k-th request
   * the server answered, and it completed with that very answer; the server is at most one ahead.
   */
  lemma {:induction false} AnswersPairWithRequests(peerRx: u16, steps: seq<Step>)
    requires Legal(Init(peerRx), steps, FifoServer)
    ensures var end := Run(Init(peerRx), steps, FifoServer);
            end.completed <= end.served && |end.served| <= |end.completed| + 1
  {
    StaysInStep(Init(peerRx), steps);
  }
}

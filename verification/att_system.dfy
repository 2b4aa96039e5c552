/**
 * The client, two FIFO channels and a peer as one transition system.
 *
 * A step is everything that happens between two awaits of one coroutine, or one
 * callback of the event loop. A transaction passes through Acquire (the lock is
 * taken and the future stored), SendRequest, Deliver (the future may become done)
 * and Resume (the coroutine runs again and clears the slot), so a future that is
 * done while its coroutine has not yet resumed is a state of its own.
 */
module AttSystem {
  import opened Bytes
  import opened Att
  import opened AttClient

  /** The coroutine inside _request that holds the transaction lock. */
  datatype Txn = Txn(payload: bytes, sent: bool)

  /** A request and the PDU that answered it. */
  datatype Exchange = Exchange(request: bytes, response: bytes)

  /** A transaction whose coroutine resumed from its future. */
  datatype Finished = Finished(request: bytes, outcome: Outcome)

  /** What the client's event loop saw, in order. */
  datatype Event =
    | Received(pdu: bytes)
    | Registered(handle: u16, handler: Handler)
    | Unregistered(handle: u16)
    | ExchangeBegun

  datatype Sys = Sys(
    client: Client,
    txn: Option<Txn>,
    toPeer: seq<bytes>,
    fromPeer: seq<bytes>,
    open: bool,
    peerRx: u16,
    peerMtu: nat,
    // history
    emitted: seq<bytes>,
    sent: seq<bytes>,
    events: seq<Event>,
    ranTasks: seq<Task>,
    droppedTasks: seq<Task>,
    served: seq<Exchange>,
    completed: seq<Exchange>,
    finished: seq<Finished>,
    exchanges: seq<Result<nat, Failure>>)

  datatype Step =
    | Acquire(payload: bytes)
    | SendRequest
    | SendFails
    | Deliver
    | Resume
    | Expire(failure: Failure)
    | Abandon(failure: Failure)
    | RunTask(index: nat)
    | DropTask(index: nat)
    | WriteCommand(payload: bytes)
    | BeginExchange
    | Register(handle: u16, handler: Handler)
    | Unregister(handle: u16)
    | PeerServe(rsp: bytes)
    | PeerTake
    | PeerEmit(pdu: bytes)
    | PeerClose(exc: Option<Failure>)
    | LocalClose

  function Init(peerRx: u16): Sys {
    Sys(INITIAL, None, [], [], true, peerRx, DEFAULT_MTU, [], [], [], [], [], [], [], [], [])
  }

  /** Requests other than Exchange MTU. */
  predicate IsAttributeRequest(pdu: bytes) {
    pdu != [] && pdu[0] in {FIND_INFO_REQ, READ_BY_TYPE_REQ, READ_REQ, READ_BLOB_REQ, READ_BY_GROUP_TYPE_REQ, WRITE_REQ}
  }

  predicate IsMtuRequest(pdu: bytes) {
    pdu != [] && pdu[0] == EXCHANGE_MTU_REQ
  }

  /** The opcode _request is told to wait for: in ATT the response opcode follows the request's. */
  function ExpectedOpcode(payload: bytes): byte
    requires IsAttributeRequest(payload) || IsMtuRequest(payload)
  {
    payload[0] + 1
  }

  function TaskPdu(task: Task): bytes {
    match task
    case Confirm => [HANDLE_VALUE_CFM]
    case SendMtuRsp => MtuPdu(EXCHANGE_MTU_RSP, PREFERRED_MTU)
  }

  predicate Enabled(s: Sys, step: Step) {
    match step
    case Acquire(payload) => s.txn.None? && (IsAttributeRequest(payload) || (IsMtuRequest(payload) && |payload| == 3))
    case SendRequest => s.txn.Some? && !s.txn.value.sent && s.open
    case SendFails => s.txn.Some? && !s.txn.value.sent
    case Deliver => s.open && s.fromPeer != []
    case Resume => s.txn.Some? && s.txn.value.sent && s.client.pending.Some? && s.client.pending.value.outcome.Some?
    case Expire(_) => s.txn.Some? && s.txn.value.sent && s.client.Waiting()
    case Abandon(_) => s.txn.Some?
    case RunTask(i) => s.open && i < |s.client.tasks|
    case DropTask(i) => i < |s.client.tasks|
    case WriteCommand(payload) => s.open && payload != [] && payload[0] == 0x52
    case BeginExchange => true
    case Register(_, _) => true
    case Unregister(_) => true
    case PeerServe(_) => s.open && s.toPeer != []
    case PeerTake => s.open && s.toPeer != []
    case PeerEmit(_) => s.open
    case PeerClose(_) => s.open
    case LocalClose => true
  }

  function Remove<T>(xs: seq<T>, i: nat): seq<T>
    requires i < |xs|
  {
    xs[..i] + xs[i + 1..]
  }

  /** What the calls of exchange_mtu have returned or raised, when the transaction in the slot ends like this. */
  function Exchanged(s: Sys, ended: Client, result: Result<bytes, Failure>): seq<Result<nat, Failure>>
    requires s.txn.Some?
  {
    var payload := s.txn.value.payload;
    if IsMtuRequest(payload) then s.exchanges + [ExchangeResult(ended, Field16(payload, 1), result)] else s.exchanges
  }

  /** The pending future is resolved and its coroutine runs: _request ends, and exchange_mtu with it. */
  function ResumeTxn(s: Sys): Sys
    requires Enabled(s, Resume)
  {
    var payload := s.txn.value.payload;
    var pending := s.client.pending.value;
    var outcome := pending.outcome.value;
    var ended := End(s.client);
    s.(txn := None,
       client := if IsMtuRequest(payload)
                 then FinishExchange(ended, Field16(payload, 1), Classify(outcome, pending.expected)) else ended,
       completed := if outcome.Data? && IsAttributeRequest(payload)
                    then s.completed + [Exchange(payload, outcome.pdu)] else s.completed,
       finished := s.finished + [Finished(payload, outcome)],
       exchanges := Exchanged(s, ended, Classify(outcome, pending.expected)))
  }

  /** The peer takes the oldest PDU; an MTU Request it grants and an MTU Response make it adopt. */
  function PeerReceive(s: Sys, granted: bool): Sys
    requires s.toPeer != []
  {
    var pdu := s.toPeer[0];
    var adopts := pdu != [] && ((pdu[0] == EXCHANGE_MTU_REQ && granted) || pdu[0] == EXCHANGE_MTU_RSP);
    s.(toPeer := s.toPeer[1..],
       peerMtu := if adopts then NegotiatedMtu(s.peerRx, Field16(pdu, 1)) else s.peerMtu)
  }

  function Send(s: Sys, pdu: bytes): Sys {
    s.(toPeer := s.toPeer + [pdu], sent := s.sent + [pdu])
  }

  function Emit(s: Sys, pdu: bytes): Sys {
    s.(fromPeer := s.fromPeer + [pdu], emitted := s.emitted + [pdu])
  }

  function Apply(s: Sys, step: Step): Sys
    requires Enabled(s, step)
  {
    match step
    case Acquire(payload) =>
      s.(txn := Some(Txn(payload, false)), client := Begin(s.client, ExpectedOpcode(payload)))
    case SendRequest =>
      Send(s, s.txn.value.payload).(txn := Some(s.txn.value.(sent := true)))
    case SendFails =>
      s.(txn := None, client := End(s.client), exchanges := Exchanged(s, End(s.client), Err(OsError)))
    case Deliver =>
      s.(client := OnData(s.client, s.fromPeer[0]), fromPeer := s.fromPeer[1..],
         events := s.events + [Received(s.fromPeer[0])])
    case Resume => ResumeTxn(s)
    case Expire(f) => s.(client := s.client.Settle(Exn(f)))
    case Abandon(f) =>
      var cancelled := if s.txn.value.sent && s.client.Waiting() then s.client.Settle(Exn(f)) else s.client;
      s.(txn := None, client := End(cancelled), exchanges := Exchanged(s, End(cancelled), Err(f)))
    case RunTask(i) =>
      Send(s, TaskPdu(s.client.tasks[i])).(
        client := s.client.(tasks := Remove(s.client.tasks, i)), ranTasks := s.ranTasks + [s.client.tasks[i]])
    case DropTask(i) =>
      s.(client := s.client.(tasks := Remove(s.client.tasks, i)), droppedTasks := s.droppedTasks + [s.client.tasks[i]])
    case WriteCommand(payload) => Send(s, payload)
    case BeginExchange =>
      s.(client := s.client.(peerInitiatedMtu := false), events := s.events + [ExchangeBegun])
    case Register(h, k) =>
      s.(client := s.client.(notifyHandlers := s.client.notifyHandlers[h := k]),
         events := s.events + [Registered(h, k)])
    case Unregister(h) =>
      s.(client := s.client.(notifyHandlers := s.client.notifyHandlers - {h}),
         events := s.events + [Unregistered(h)])
    case PeerServe(rsp) =>
      var request := s.toPeer[0];
      Emit(PeerReceive(s, rsp != [] && rsp[0] == EXCHANGE_MTU_RSP), rsp).(
        served := if IsAttributeRequest(request) then s.served + [Exchange(request, rsp)] else s.served)
    case PeerTake => PeerReceive(s, false)
    case PeerEmit(pdu) => Emit(s, pdu)
    case PeerClose(exc) => s.(open := false, client := OnClose(s.client, exc))
    case LocalClose => s.(open := false)
  }

  /** Every step of the run is enabled where it is taken, and the rule admits it. */
  ghost predicate Legal(s: Sys, steps: seq<Step>, rule: (Sys, Step) -> bool)
    decreases |steps|
  {
    steps == [] ||
    (Enabled(s, steps[0]) && rule(s, steps[0]) && Legal(Apply(s, steps[0]), steps[1..], rule))
  }

  ghost function Run(s: Sys, steps: seq<Step>, rule: (Sys, Step) -> bool): Sys
    requires Legal(s, steps, rule)
    decreases |steps|
  {
    if steps == [] then s else Run(Apply(s, steps[0]), steps[1..], rule)
  }

  /** A predicate that every admitted step keeps holds at the end of every run. */
  lemma {:induction false} RunKeeps(s: Sys, steps: seq<Step>, rule: (Sys, Step) -> bool, inv: Sys -> bool)
    requires Legal(s, steps, rule)
    requires inv(s)
    requires forall t, step :: inv(t) && Enabled(t, step) && rule(t, step) ==> inv(Apply(t, step))
    ensures inv(Run(s, steps, rule))
    decreases |steps|
  {
    if steps != [] {
      RunKeeps(Apply(s, steps[0]), steps[1..], rule, inv);
    }
  }

  lemma {:induction false} RunCons(s: Sys, step: Step, rest: seq<Step>, rule: (Sys, Step) -> bool)
    requires Enabled(s, step) && rule(s, step) && Legal(Apply(s, step), rest, rule)
    ensures Legal(s, [step] + rest, rule)
    ensures Run(s, [step] + rest, rule) == Run(Apply(s, step), rest, rule)
  {
    assert ([step] + rest)[1..] == rest;
  }

  lemma {:induction false} RunConcat(s: Sys, a: seq<Step>, b: seq<Step>, rule: (Sys, Step) -> bool)
    requires Legal(s, a, rule) && Legal(Run(s, a, rule), b, rule)
    ensures Legal(s, a + b, rule) && Run(s, a + b, rule) == Run(Run(s, a, rule), b, rule)
    decreases |a|
  {
    if a == [] {
      assert a + b == b;
    } else {
      assert (a + b)[1..] == a[1..] + b;
      RunConcat(Apply(s, a[0]), a[1..], b, rule);
    }
  }
}

/** Server-initiated traffic is neither lost nor invented, whatever else is interleaved with it. */
module Traffic {
  import opened Bytes
  import opened Att
  import opened AttClient
  import opened AttSystem
  import opened Transactions

  /** The PDUs the client received, in order. */
  function Received(events: seq<Event>): seq<bytes> {
    if events == [] then []
    else Received(events[..|events| - 1]) + (match events[|events| - 1] case Received(pdu) => [pdu] case _ => [])
  }

  predicate HasOpcode(pdu: bytes, opcode: byte) {
    pdu != [] && pdu[0] == opcode
  }

  /** The PDU that a task answers. */
  function Wants(task: Task): byte {
    if task == Confirm then HANDLE_VALUE_IND else EXCHANGE_MTU_REQ
  }

  /** How many of these PDUs have the opcode. */
  function HowMany(opcode: byte, pdus: seq<bytes>): nat {
    if pdus == [] then 0
    else HowMany(opcode, pdus[..|pdus| - 1]) + (if HasOpcode(pdus[|pdus| - 1], opcode) then 1 else 0)
  }

  /** The handler in force for a handle: the one registered last, unless it was removed since. */
  function InForce(events: seq<Event>, handle: u16): Option<Handler> {
    if events == [] then None
    else match events[|events| - 1]
      case Registered(h, k) => if h == handle then Some(k) else InForce(events[..|events| - 1], handle)
      case Unregistered(h) => if h == handle then None else InForce(events[..|events| - 1], handle)
      case _ => InForce(events[..|events| - 1], handle)
  }

  /** The value notifications and indications that had a handler in force when they arrived. */
  function Heard(events: seq<Event>): seq<Callback> {
    if events == [] then []
    else
      var before := events[..|events| - 1];
      Heard(before) +
      match events[|events| - 1]
      case Received(pdu) =>
        if HasOpcode(pdu, 0x1B) || HasOpcode(pdu, 0x1D) then
          match InForce(before, Field16(pdu, 1))
          case Some(k) => [Callback(k, Field16(pdu, 1), From(pdu, 3))]
          case None => []
        else []
      case _ => []
  }

  /** The channel from the peer is first in, first out, and loses nothing. */
  ghost predicate InOrder(s: Sys) {
    s.emitted == Received(s.events) + s.fromPeer
  }

  /** Every indication has its confirmation and every MTU Request its response: pending, run or dropped. */
  ghost predicate Accounted(s: Sys, task: Task) {
    multiset(s.client.tasks)[task] + multiset(s.ranTasks)[task] + multiset(s.droppedTasks)[task]
    == HowMany(Wants(task), Received(s.events))
  }

  const CONFIRMATION: bytes := [0x1E]
  const MTU_RESPONSE: bytes := [0x03, 0xF7, 0x00]

  /** What the client has sent is what the peer has taken followed by what is still queued. */
  ghost predicate SentInOrder(s: Sys) {
    EndsWith(s.sent, s.toPeer)
  }

  predicate EndsWith(all: seq<bytes>, last: seq<bytes>) {
    |last| <= |all| && all[|all| - |last|..] == last
  }

  /** The PDUs sent that answer the peer are those of the tasks that have run. */
  ghost predicate SentByTasks(s: Sys) {
    && (s.txn.Some? ==> IsAttributeRequest(s.txn.value.payload) || IsMtuRequest(s.txn.value.payload))
    && multiset(s.sent)[CONFIRMATION] == multiset(s.ranTasks)[Confirm]
    && multiset(s.sent)[MTU_RESPONSE] == multiset(s.ranTasks)[SendMtuRsp]
  }

  /**
   * On the wire: a confirmation was sent for every indication received, and our Exchange MTU Response for every
   * Exchange MTU Request, but for those whose task is still to run or could not send.
   */
  ghost predicate AnsweredOnWire(s: Sys) {
    && multiset(s.sent)[[0x1E]] + multiset(s.client.tasks + s.droppedTasks)[Confirm]
       == HowMany(0x1D, Received(s.events))
    && multiset(s.sent)[[0x03, 0xF7, 0x00]] + multiset(s.client.tasks + s.droppedTasks)[SendMtuRsp]
       == HowMany(0x02, Received(s.events))
  }

  ghost predicate HandlersCalled(s: Sys) {
    && (forall h: u16 :: InForce(s.events, h) ==
          if h in s.client.notifyHandlers then Some(s.client.notifyHandlers[h]) else None)
    && s.client.callbacks == Heard(s.events)
  }

  ghost predicate Conserved(s: Sys) {
    && InOrder(s) && SentInOrder(s) && HandlersCalled(s)
    && Accounted(s, Confirm) && Accounted(s, SendMtuRsp) && SentByTasks(s)
  }

  lemma {:induction false} ReceivedAppends(events: seq<Event>, event: Event)
    ensures Received(events + [event]) == if event.Received? then Received(events) + [event.pdu] else Received(events)
  {
    assert (events + [event])[..|events|] == events;
  }

  lemma {:induction false} HowManyAppends(opcode: byte, pdus: seq<bytes>, pdu: bytes)
    ensures HowMany(opcode, pdus + [pdu]) == HowMany(opcode, pdus) + if HasOpcode(pdu, opcode) then 1 else 0
  {
    assert (pdus + [pdu])[..|pdus|] == pdus;
  }

  lemma {:induction false} InOrderStep(s: Sys, step: Step)
    requires InOrder(s) && Enabled(s, step)
    ensures InOrder(Apply(s, step))
  {
    match step
    case Deliver => ReceivedAppends(s.events, Event.Received(s.fromPeer[0]));
    case Register(h, k) => ReceivedAppends(s.events, Registered(h, k));
    case Unregister(h) => ReceivedAppends(s.events, Unregistered(h));
    case BeginExchange => ReceivedAppends(s.events, ExchangeBegun);
    case _ =>
  }

  lemma {:induction false} OneTaskMoves(tasks: seq<Task>, ran: seq<Task>, i: nat, task: Task)
    requires i < |tasks|
    ensures multiset(Remove(tasks, i))[task] + multiset(ran + [tasks[i]])[task]
         == multiset(tasks)[task] + multiset(ran)[task]
  {
    assert tasks == tasks[..i] + [tasks[i]] + tasks[i + 1..];
  }

  /** A PDU owes its own kind of answer and no other; notifications and indications leave transactions alone. */
  lemma {:induction false} OnDataSpawns(c: Client, pdu: bytes, task: Task)
    ensures HasOpcode(pdu, HANDLE_VALUE_NTF) || HasOpcode(pdu, HANDLE_VALUE_IND) ==>
              OnData(c, pdu).pending == c.pending && OnData(c, pdu).mtu == c.mtu && OnData(c, pdu).settled == c.settled
    ensures multiset(OnData(c, pdu).tasks)[task]
         == multiset(c.tasks)[task] + if HasOpcode(pdu, Wants(task)) then 1 else 0
  {
  }

  lemma {:induction false} AccountedStep(s: Sys, step: Step, task: Task)
    requires Accounted(s, task) && Enabled(s, step)
    ensures Accounted(Apply(s, step), task)
  {
    match step
    case Deliver =>
      ReceivedAppends(s.events, Event.Received(s.fromPeer[0]));
      HowManyAppends(Wants(task), Received(s.events), s.fromPeer[0]);
      OnDataSpawns(s.client, s.fromPeer[0], task);
    case RunTask(i) => OneTaskMoves(s.client.tasks, s.ranTasks, i, task);
    case DropTask(i) => OneTaskMoves(s.client.tasks, s.droppedTasks, i, task);
    case Register(h, k) => ReceivedAppends(s.events, Registered(h, k));
    case Unregister(h) => ReceivedAppends(s.events, Unregistered(h));
    case BeginExchange => ReceivedAppends(s.events, ExchangeBegun);
    case _ =>
  }

  lemma {:induction false} DeliverCalls(s: Sys)
    requires HandlersCalled(s) && Enabled(s, Deliver)
    ensures HandlersCalled(Apply(s, Deliver))
  {
    var events := Apply(s, Deliver).events;
    assert events[..|events| - 1] == s.events;
  }

  lemma {:induction false} RegisterCalls(s: Sys, step: Step)
    requires HandlersCalled(s) && (step.Register? || step.Unregister? || step.BeginExchange?)
    ensures HandlersCalled(Apply(s, step))
  {
    var events := Apply(s, step).events;
    assert events[..|events| - 1] == s.events;
  }

  lemma {:induction false} HandlersCalledStep(s: Sys, step: Step)
    requires HandlersCalled(s) && Enabled(s, step)
    ensures HandlersCalled(Apply(s, step))
  {
    if step.Deliver? {
      DeliverCalls(s);
    } else if step.Register? || step.Unregister? || step.BeginExchange? {
      RegisterCalls(s, step);
    } else {
      assert Apply(s, step).events == s.events;
      assert Apply(s, step).client.notifyHandlers == s.client.notifyHandlers;
      assert Apply(s, step).client.callbacks == s.client.callbacks;
    }
  }

  lemma {:induction false} SentInOrderStep(s: Sys, step: Step)
    requires SentInOrder(s) && Enabled(s, step)
    ensures SentInOrder(Apply(s, step))
  {
    match step
    case SendRequest => QueueGrows(s.sent, s.toPeer, s.txn.value.payload);
    case WriteCommand(payload) => QueueGrows(s.sent, s.toPeer, payload);
    case RunTask(i) => QueueGrows(s.sent, s.toPeer, TaskPdu(s.client.tasks[i]));
    case PeerServe(_) => QueueShrinks(s.sent, s.toPeer);
    case PeerTake => QueueShrinks(s.sent, s.toPeer);
    case _ => assert Apply(s, step).sent == s.sent && Apply(s, step).toPeer == s.toPeer;
  }

  lemma {:induction false} QueueGrows(sent: seq<bytes>, queue: seq<bytes>, pdu: bytes)
    requires EndsWith(sent, queue)
    ensures EndsWith(sent + [pdu], queue + [pdu])
  {
  }

  lemma {:induction false} QueueShrinks(sent: seq<bytes>, queue: seq<bytes>)
    requires EndsWith(sent, queue) && queue != []
    ensures EndsWith(sent, queue[1..])
  {
  }

  /** Requests and commands are neither confirmations nor MTU Responses. */
  lemma {:induction false} SentByTasksStep(s: Sys, step: Step)
    requires SentByTasks(s) && Enabled(s, step)
    ensures SentByTasks(Apply(s, step))
  {
    match step
    case SendRequest => RequestSent(s);
    case WriteCommand(payload) => SentAppends(s.sent, payload);
    case RunTask(i) => TaskSent(s, i);
    case _ => assert Apply(s, step).sent == s.sent && Apply(s, step).ranTasks == s.ranTasks;
  }

  lemma {:induction false} RequestSent(s: Sys)
    requires SentByTasks(s) && Enabled(s, SendRequest)
    ensures SentByTasks(Apply(s, SendRequest))
  {
    SentAppends(s.sent, s.txn.value.payload);
  }

  lemma {:induction false} TaskSent(s: Sys, i: nat)
    requires SentByTasks(s) && Enabled(s, RunTask(i))
    ensures SentByTasks(Apply(s, RunTask(i)))
  {
    TaskPdusOnWire();
    SentAppends(s.sent, TaskPdu(s.client.tasks[i]));
  }

  lemma {:induction false} TaskPdusOnWire()
    ensures TaskPdu(Confirm) == CONFIRMATION && TaskPdu(SendMtuRsp) == MTU_RESPONSE != CONFIRMATION
  {
    assert MTU_RESPONSE[0] != CONFIRMATION[0];
    assert TaskPdu(SendMtuRsp) == MTU_RESPONSE;
  }

  lemma {:induction false} SentAppends(sent: seq<bytes>, pdu: bytes)
    ensures multiset(sent + [pdu]) == multiset(sent) + multiset{pdu}
  {
  }

  lemma {:induction false} ConservedStep(s: Sys, step: Step)
    requires Conserved(s) && Enabled(s, step)
    ensures Conserved(Apply(s, step))
  {
    InOrderStep(s, step);
    SentInOrderStep(s, step);
    SentByTasksStep(s, step);
    AccountedStep(s, step, Confirm);
    AccountedStep(s, step, SendMtuRsp);
    HandlersCalledStep(s, step);
  }

  /**
   * In every run, with any peer: what one side sent is what the other received followed by what is still queued;
   * the confirmations and MTU Responses sent, with those still to be sent and those that could not be, are as many as
   * the indications and MTU Requests received; and the handlers were called exactly for what arrived while they were
   * in force.
   */
  lemma {:induction false} TrafficIsConserved(peerRx: u16, steps: seq<Step>)
    requires Legal(Init(peerRx), steps, AnyPeer)
    ensures var end := Run(Init(peerRx), steps, AnyPeer); Conserved(end) && AnsweredOnWire(end)
  {
    forall t, step | Conserved(t) && Enabled(t, step) ensures Conserved(Apply(t, step)) {
      ConservedStep(t, step);
    }
    RunKeeps(Init(peerRx), steps, AnyPeer, Conserved);
  }
}

/**
 * The inbound demultiplexer and the transaction slot of the ATT client.
 *
 * `Client` is the value of the client's fields; the functions on it say what each
 * callback does, and the class `ATTClient` is proved to do exactly that in place.
 */
module AttClient {
  import opened Bytes
  import opened Att

  type Handler = nat

  /** The future in `_pending`, with the opcode in `_pending_opcode`. */
  datatype Pending = Pending(id: nat, expected: byte, outcome: Option<Outcome>)

  /** Fire-and-forget coroutines handed to create_task. */
  datatype Task = Confirm | SendMtuRsp

  /** One call of a registered notify handler. */
  datatype Callback = Callback(handler: Handler, handle: u16, value: bytes)

  datatype Client = Client(
    pending: Option<Pending>,
    mtu: nat,
    peerInitiatedMtu: bool,
    notifyHandlers: map<u16, Handler>,
    tasks: seq<Task>,
    callbacks: seq<Callback>,
    futures: nat,
    settled: seq<nat>)
  {
    /** True when a future is pending and not done. */
    predicate Waiting() {
      pending.Some? && pending.value.outcome.None?
    }

    /** set_result or set_exception on the pending future. */
    function Settle(outcome: Outcome): Client
      requires Waiting()
    {
      this.(pending := Some(pending.value.(outcome := Some(outcome))),
            settled := settled + [pending.value.id])
    }

    function Spawn(task: Task): Client {
      this.(tasks := tasks + [task])
    }
  }

  const INITIAL: Client := Client(None, DEFAULT_MTU, false, map[], [], [], 0, [])

  function DispatchNotify(c: Client, handle: u16, value: bytes): Client {
    if handle in c.notifyHandlers
    then c.(callbacks := c.callbacks + [Callback(c.notifyHandlers[handle], handle, value)])
    else c
  }

  /** A peer-initiated Exchange MTU Request: adopt, answer, and satisfy an exchange of our own. */
  function OnMtuRequest(c: Client, peerMtu: u16): Client {
    var adopted := c.(mtu := NegotiatedMtu(PREFERRED_MTU, peerMtu), peerInitiatedMtu := true).Spawn(SendMtuRsp);
    if adopted.Waiting() && adopted.pending.value.expected == EXCHANGE_MTU_RSP
    then adopted.Settle(Data(MtuPdu(EXCHANGE_MTU_RSP, peerMtu)))
    else adopted
  }

  function OnData(c: Client, data: bytes): Client {
    if data == [] then c
    else if data[0] == HANDLE_VALUE_NTF then DispatchNotify(c, Field16(data, 1), From(data, 3))
    else if data[0] == HANDLE_VALUE_IND then DispatchNotify(c, Field16(data, 1), From(data, 3)).Spawn(Confirm)
    else if data[0] == EXCHANGE_MTU_REQ then OnMtuRequest(c, Field16(data, 1))
    else if c.Waiting() && (data[0] == c.pending.value.expected || data[0] == ERROR_RSP) then c.Settle(Data(data))
    else c
  }

  function OnClose(c: Client, exc: Option<Failure>): Client {
    if c.Waiting() then c.Settle(Exn(if exc.Some? then exc.value else Disconnected)) else c
  }

  /** A new future is stored in `_pending`, under the transaction lock. */
  function Begin(c: Client, expected: byte): Client {
    c.(pending := Some(Pending(c.futures, expected, None)), futures := c.futures + 1)
  }

  /** The `finally` of _request. */
  function End(c: Client): Client {
    c.(pending := None)
  }

  /** exchange_mtu after its transaction: only a response changes the MTU. */
  function FinishExchange(c: Client, mtu: u16, result: Result<bytes, Failure>): Client {
    match result
    case Ok(data) => c.(mtu := NegotiatedMtu(mtu, Field16(data, 1)))
    case Err(_) => c
  }

  /** What exchange_mtu returns or raises: a refusal keeps the MTU, a timeout counts only if the peer was silent. */
  function ExchangeResult(c: Client, mtu: u16, result: Result<bytes, Failure>): Result<nat, Failure> {
    match result
    case Ok(_) => Ok(FinishExchange(c, mtu, result).mtu)
    case Err(AttError(_, _, _)) => Ok(c.mtu)
    case Err(TimedOut) => if c.peerInitiatedMtu then Ok(c.mtu) else Err(TimedOut)
    case Err(f) => Err(f)
  }

  /** asyncio.Future: a second result is an InvalidStateError, so the caller must see that it is not done. */
  class Future {
    const id: nat
    var outcome: Option<Outcome>

    constructor (id: nat)
      ensures this.id == id && outcome == None
    {
      this.id := id;
      outcome := None;
    }

    predicate Done()
      reads this
    {
      outcome.Some?
    }

    method Set(o: Outcome)
      requires !Done()
      modifies this
      ensures outcome == Some(o)
    {
      outcome := Some(o);
    }
  }

  class ATTClient {
    var pending: Future?
    var pendingOpcode: Option<byte>
    var mtu: nat
    var peerInitiatedMtu: bool
    var notifyHandlers: map<u16, Handler>
    var tasks: seq<Task>
    var callbacks: seq<Callback>
    var futures: nat
    var settled: seq<nat>

    constructor ()
      ensures Valid() && View() == INITIAL
    {
      pending, pendingOpcode := null, None;
      mtu, peerInitiatedMtu := DEFAULT_MTU, false;
      notifyHandlers, tasks, callbacks := map[], [], [];
      futures, settled := 0, [];
    }

    ghost predicate Valid()
      reads this
    {
      pending == null <==> pendingOpcode.None?
    }

    ghost function View(): Client
      reads this, pending
      requires Valid()
    {
      Client(if pending == null then None else Some(Pending(pending.id, pendingOpcode.value, pending.outcome)),
             mtu, peerInitiatedMtu, notifyHandlers, tasks, callbacks, futures, settled)
    }

    method CreateTask(task: Task)
      requires Valid()
      modifies this`tasks
      ensures Valid() && View() == old(View()).Spawn(task)
    {
      tasks := tasks + [task];
    }

    method SettlePending(outcome: Outcome)
      requires Valid() && View().Waiting()
      modifies this`settled, pending
      ensures Valid() && pending == old(pending) && View() == old(View()).Settle(outcome)
    {
      pending.Set(outcome);
      settled := settled + [pending.id];
    }

    method Dispatch(handle: u16, value: bytes)
      requires Valid()
      modifies this`callbacks
      ensures Valid() && View() == DispatchNotify(old(View()), handle, value)
    {
      if handle in notifyHandlers {
        callbacks := callbacks + [Callback(notifyHandlers[handle], handle, value)];
      }
    }

    method HandleData(data: bytes)
      requires Valid()
      modifies this, pending
      ensures Valid() && pending == old(pending) && View() == OnData(old(View()), data)
    {
      if data == [] {
        return;
      }
      var opcode := data[0];
      if opcode == HANDLE_VALUE_NTF {
        Dispatch(Field16(data, 1), From(data, 3));
        return;
      }
      if opcode == HANDLE_VALUE_IND {
        Dispatch(Field16(data, 1), From(data, 3));
        CreateTask(Confirm);
        return;
      }
      if opcode == EXCHANGE_MTU_REQ {
        var peerMtu := Field16(data, 1);
        mtu := Max(DEFAULT_MTU, Min(PREFERRED_MTU, peerMtu));
        peerInitiatedMtu := true;
        CreateTask(SendMtuRsp);
        if pending != null && !pending.Done() && pendingOpcode == Some(EXCHANGE_MTU_RSP) {
          SettlePending(Data(MtuPdu(EXCHANGE_MTU_RSP, peerMtu)));
        }
        return;
      }
      if pending != null && !pending.Done() && (Some(opcode) == pendingOpcode || opcode == ERROR_RSP) {
        SettlePending(Data(data));
      }
    }

    method HandleClose(exc: Option<Failure>)
      requires Valid()
      modifies this`settled, pending
      ensures Valid() && pending == old(pending) && View() == OnClose(old(View()), exc)
      ensures old(View()).Waiting() ==>
                pending.outcome == Some(Exn(match exc case Some(f) => f case None => Disconnected))
    {
      if pending != null && !pending.Done() {
        SettlePending(Exn(if exc.Some? then exc.value else Disconnected));
      }
    }

    method BeginRequest(expected: byte)
      requires Valid()
      modifies this
      ensures Valid() && fresh(pending) && View() == Begin(old(View()), expected)
    {
      pending := new Future(futures);
      pendingOpcode := Some(expected);
      futures := futures + 1;
    }

    /** _request once the future is done: the slot is cleared before the PDU is looked at. */
    method EndRequest(expected: byte) returns (r: Result<bytes, Failure>)
      requires Valid() && pending != null && pending.Done()
      modifies this`pending, this`pendingOpcode
      ensures Valid() && View() == End(old(View()))
      ensures r == Classify(old(pending.outcome.value), expected)
      ensures old(pending.outcome.value).Exn? ==> r == Err(old(pending.outcome.value).failure)
    {
      var outcome := pending.outcome.value;
      pending, pendingOpcode := null, None;
      r := Classify(outcome, expected);
    }

    method EndExchangeMtu(announced: u16, result: Result<bytes, Failure>) returns (r: Result<nat, Failure>)
      requires Valid()
      modifies this`mtu
      ensures Valid() && View() == FinishExchange(old(View()), announced, result)
      ensures r == ExchangeResult(old(View()), announced, result)
      ensures match result
              case Ok(data) => mtu == Max(23, Min(announced, Field16(data, 1))) && r == Ok(mtu)
              case Err(AttError(_, _, _)) => mtu == old(mtu) && r == Ok(mtu)
              case Err(f) => mtu == old(mtu) && r == if f.TimedOut? && peerInitiatedMtu then Ok(mtu) else Err(f)
    {
      match result
      case Ok(data) =>
        var serverMtu := Field16(data, 1);
        mtu := Max(DEFAULT_MTU, Min(announced, serverMtu));
        return Ok(mtu);
      case Err(AttError(_, _, _)) => return Ok(mtu);
      case Err(TimedOut) =>
        if peerInitiatedMtu {
          return Ok(mtu);
        }
        return Err(TimedOut);
      case Err(f) => return Err(f);
    }

    method SetNotifyHandler(handle: u16, handler: Handler)
      requires Valid()
      modifies this`notifyHandlers
      ensures Valid()
      ensures View() == old(View()).(notifyHandlers := old(notifyHandlers)[handle := handler])
    {
      notifyHandlers := notifyHandlers[handle := handler];
    }

    method RemoveNotifyHandler(handle: u16)
      requires Valid()
      modifies this`notifyHandlers
      ensures Valid()
      ensures View() == old(View()).(notifyHandlers := old(notifyHandlers) - {handle})
    {
      notifyHandlers := notifyHandlers - {handle};
    }
  }
}

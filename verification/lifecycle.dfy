/** Disconnecting: three objects, one latch, and the user callback at most once per connection. */
module Lifecycle {
  import opened Bytes
  import opened Att
  import AttClient

  /** L2CAPSocket: the callbacks of start_reader lead to the ATT session. */
  class L2CAPSocket {
    var closed: bool
    var session: ATTSession?
    var sent: nat

    constructor ()
      ensures !closed && session == null && sent == 0
    {
      closed, session, sent := false, null, 0;
    }

    method StartReader(session: ATTSession)
      modifies this`session
      ensures this.session == session
    {
      this.session := session;
    }

    /** Sending on a closed socket raises OSError. */
    method Send() returns (error: Option<Failure>)
      modifies this`sent
      ensures error == if closed then Some(OsError) else None
      ensures sent == if closed then old(sent) else old(sent) + 1
    {
      if closed {
        return Some(OsError);
      }
      sent := sent + 1;
      return None;
    }

    method Close()
      modifies this`closed
      ensures closed
    {
      if closed {
        return;
      }
      closed := true;
    }

    /** End of stream or a socket error: only the first one reaches the session. */
    method Fail(exc: Option<Failure>)
      requires session != null && session.socket == this
      modifies this`closed, session.pending, session.client`connected, session.client`calls
      ensures closed
      ensures session.client.connected == (old(closed) && old(session.client.connected))
      ensures session.client.calls == old(session.client.calls) +
                if !old(closed) && old(session.client.connected) && session.client.hasCallback then 1 else 0
      ensures session.pending != null ==>
                session.pending.outcome ==
                  if !old(closed) && old(session.pending.outcome).None?
                  then Some(Exn(if exc.Some? then exc.value else Disconnected)) else old(session.pending.outcome)
    {
      if closed {
        return;
      }
      Close();
      session.OnClose(exc);
    }
  }

  class ATTSession {
    const socket: L2CAPSocket
    const client: BleakClient
    var pending: AttClient.Future?

    constructor (socket: L2CAPSocket, client: BleakClient)
      ensures this.socket == socket && this.client == client && pending == null
    {
      this.socket, this.client := socket, client;
      pending := null;
    }

    method Close()
      modifies socket`closed
      ensures socket.closed
    {
      socket.Close();
    }

    /** The pending transaction fails first, then the client is told. */
    method OnClose(exc: Option<Failure>)
      requires socket.closed
      modifies pending, client`connected, client`calls
      ensures !client.connected
      ensures client.calls == old(client.calls) + if old(client.connected) && client.hasCallback then 1 else 0
      ensures pending != null ==>
                pending.outcome ==
                  if old(pending.outcome).None? then Some(Exn(if exc.Some? then exc.value else Disconnected))
                  else old(pending.outcome)
    {
      if pending != null && !pending.Done() {
        pending.Set(Exn(if exc.Some? then exc.value else Disconnected));
      }
      client.OnDisconnect(this);
    }
  }

  class BleakClient {
    const hasCallback: bool
    var att: ATTSession?
    var connected: bool
    var calls: nat

    constructor (hasCallback: bool)
      ensures this.hasCallback == hasCallback && att == null && !connected && calls == 0
    {
      this.hasCallback := hasCallback;
      att, connected, calls := null, false, 0;
    }

    /** The latch: only the transition from connected calls the user, when the transaction has failed already. */
    method OnDisconnect(ghost session: ATTSession)
      requires session.pending == null || session.pending.Done()
      modifies this`connected, this`calls
      ensures !connected
      ensures calls == old(calls) + if old(connected) && hasCallback then 1 else 0
    {
      var wasConnected := connected;
      connected := false;
      if wasConnected && hasCallback {
        calls := calls + 1;
      }
    }

    /** connect once the socket is there. */
    method Attach(socket: L2CAPSocket)
      modifies this`att, this`connected, socket`session
      ensures connected && att != null && fresh(att)
      ensures att.socket == socket && att.client == this && att.pending == null && socket.session == att
    {
      att := new ATTSession(socket, this);
      socket.StartReader(att);
      connected := true;
    }

    method Disconnect()
      modifies this`att, this`connected, (if att == null then {} else {att.socket})`closed
      ensures att == null && !connected && calls == old(calls)
      ensures old(att) != null ==> old(att).socket.closed
    {
      if att != null {
        att.Close();
      }
      connected := false;
      att := null;
    }

    /** _require_att, the first thing every GATT operation does. */
    method RequireAtt() returns (r: Result<ATTSession, Failure>)
      ensures r == if att == null || !connected then Err(NotConnected) else Ok(att)
    {
      if att == null || !connected {
        return Err(NotConnected);
      }
      return Ok(att);
    }
  }

  // Runs over any number of connections. Connection k is the k-th socket the client was attached to.

  datatype Note = Closed(k: nat) | Called(k: nat) | Explicit(k: nat) | Sent(k: nat) | Started(k: nat)

  datatype Connections = Connections(closed: seq<bool>, att: Option<nat>, connected: bool, log: seq<Note>)

  const NOT_CONNECTED: Connections := Connections([], None, false, [])

  datatype Happening =
    | Attach                 // connect reached the new socket
    | Lost(k: nat)           // end of stream or error on socket k, current or not
    | Disconnect             // the user disconnects, or connect gives up
    | Operation              // a GATT operation is called
    | Send(k: nat)           // an operation begun on connection k sends a PDU

  /** connect is not called while connected. */
  predicate MayHappen(s: Connections, step: Happening) {
    match step
    case Attach => !s.connected
    case Lost(k) => k < |s.closed|
    case Send(k) => k < |s.closed|
    case _ => true
  }

  predicate AttInRange(s: Connections) {
    s.att.Some? ==> s.att.value < |s.closed|
  }

  function Happens(s: Connections, step: Happening): Connections
    requires MayHappen(s, step) && AttInRange(s)
  {
    match step
    case Attach => Connections(s.closed + [false], Some(|s.closed|), true, s.log)
    case Lost(k) =>
      if s.closed[k] then s
      else s.(closed := s.closed[k := true], connected := false,
              log := s.log + [Closed(k)] + if s.connected then [Called(k)] else [])
    case Disconnect =>
      if s.att.None? then s.(connected := false)
      else
        var k := s.att.value;
        Connections(s.closed[k := true], None, false,
              s.log + (if s.closed[k] then [] else [Closed(k)]) + [Explicit(k)])
    case Operation => if s.att.None? || !s.connected then s else s.(log := s.log + [Started(s.att.value)])
    case Send(k) => if s.closed[k] then s else s.(log := s.log + [Sent(k)])
  }

  ghost predicate Reached(s: Connections, steps: seq<Happening>, t: Connections)
    decreases |steps|
  {
    if steps == [] then t == s
    else AttInRange(s) && MayHappen(s, steps[0]) && Reached(Happens(s, steps[0]), steps[1..], t)
  }

  /** Only the connection in use can be open, and it is while the client is connected. */
  ghost predicate Latched(s: Connections) {
    && AttInRange(s)
    && (forall k :: 0 <= k < |s.closed| && !s.closed[k] ==> s.connected && s.att == Some(k))
    && (s.connected ==> s.att.Some? && !s.closed[s.att.value])
    && (forall i :: 0 <= i < |s.log| ==> s.log[i].k < |s.closed|)
    && (forall i :: 0 <= i < |s.log| && (s.log[i].Closed? || s.log[i].Called? || s.log[i].Explicit?) ==>
          s.closed[s.log[i].k])
    && Orderly(s.log)
  }

  /** How often the user callback ran. */
  function CountCalls(log: seq<Note>): nat {
    if log == [] then 0 else CountCalls(log[..|log| - 1]) + if log[|log| - 1].Called? then 1 else 0
  }

  lemma {:induction false} CountAppend(log: seq<Note>, note: Note)
    ensures CountCalls(log + [note]) == CountCalls(log) + if note.Called? then 1 else 0
  {
    assert (log + [note])[..|log|] == log;
  }

  lemma {:induction false} LostCalls(s: Connections, k: nat)
    requires AttInRange(s) && k < |s.closed|
    ensures CountCalls(Happens(s, Happening.Lost(k)).log)
         == CountCalls(s.log) + if !s.closed[k] && s.connected then 1 else 0
  {
    var log := s.log + [Closed(k)];
    CountAppend(s.log, Closed(k));
    CountAppend(log, Called(k));
    assert log + [] == log;
  }

  lemma {:induction false} DisconnectCalls(s: Connections)
    requires AttInRange(s)
    ensures CountCalls(Happens(s, Happening.Disconnect).log) == CountCalls(s.log)
  {
    if s.att.Some? {
      var note := Explicit(s.att.value);
      CountAppend(s.log, Closed(s.att.value));
      CountAppend(s.log + [Closed(s.att.value)], note);
      CountAppend(s.log, note);
      assert s.log + [] == s.log;
    }
  }

  /** What the log of a run never shows. */
  ghost predicate Orderly(log: seq<Note>) {
    forall i, j {:trigger log[i], log[j]} :: 0 <= i < j < |log| && log[i].k == log[j].k ==>
      && !(log[i].Called? && log[j].Called?)
      && !(log[i].Explicit? && log[j].Called?)
      && !(log[i].Closed? && log[j].Closed?)
      && !(log[i].Closed? && (log[j].Sent? || log[j].Started?))
  }

  lemma {:induction false} OrderlyAppend(log: seq<Note>, note: Note)
    requires Orderly(log)
    requires forall i :: 0 <= i < |log| && log[i].k == note.k ==>
               !log[i].Closed? && !log[i].Called? && !log[i].Explicit?
    ensures Orderly(log + [note])
  {
  }

  lemma {:induction false} LatchedStep(s: Connections, step: Happening)
    requires Latched(s) && MayHappen(s, step)
    ensures Latched(Happens(s, step))
  {
    match step
    case Lost(k) =>
      if !s.closed[k] {
        OrderlyAppend(s.log, Closed(k));
      }
    case Disconnect =>
      if s.att.Some? && !s.closed[s.att.value] {
        OrderlyAppend(s.log, Closed(s.att.value));
      }
    case Operation =>
      if s.att.Some? && s.connected {
        OrderlyAppend(s.log, Started(s.att.value));
      }
    case Send(k) =>
      if !s.closed[k] {
        OrderlyAppend(s.log, Sent(k));
      }
    case Attach =>
  }

  lemma {:induction false} LatchedRun(s: Connections, steps: seq<Happening>, t: Connections)
    requires Latched(s) && Reached(s, steps, t)
    ensures Latched(t)
    decreases |steps|
  {
    if steps != [] {
      LatchedStep(s, steps[0]);
      LatchedRun(Happens(s, steps[0]), steps[1..], t);
    }
  }

  /**
   * Over every order of peer closes, socket errors, disconnects and new connections: the user callback runs
   * at most once per connection and never after an explicit disconnect of it, and once a connection is closed
   * no operation starts on it and no PDU is sent.
   */
  lemma {:induction false} DisconnectIsLatched(steps: seq<Happening>, t: Connections)
    requires Reached(NOT_CONNECTED, steps, t)
    ensures Orderly(t.log)
    ensures t.connected <==> exists k :: 0 <= k < |t.closed| && !t.closed[k]
  {
    LatchedRun(NOT_CONNECTED, steps, t);
    if t.connected {
      assert !t.closed[t.att.value];
    }
  }

  // The callback is not only latched but comes.

  /** How often connect reached a socket. */
  function Attaches(steps: seq<Happening>): nat {
    if steps == [] then 0 else Attaches(steps[..|steps| - 1]) + if steps[|steps| - 1].Attach? then 1 else 0
  }

  /** The connection made last has neither been lost nor disconnected since. */
  predicate IsUp(steps: seq<Happening>) {
    steps != [] &&
    var before := steps[..|steps| - 1];
    match steps[|steps| - 1]
    case Attach => true
    case Lost(k) => IsUp(before) && k + 1 != Attaches(before)
    case Disconnect => false
    case _ => IsUp(before)
  }

  /** How often the connection in use was lost under the user. */
  function Losses(steps: seq<Happening>): nat {
    if steps == [] then 0
    else
      var before, last := steps[..|steps| - 1], steps[|steps| - 1];
      Losses(before) + if last.Lost? && IsUp(before) && last.k + 1 == Attaches(before) then 1 else 0
  }

  lemma {:induction false} ReachedBack(s: Connections, steps: seq<Happening>, t: Connections) returns (mid: Connections)
    requires steps != [] && Reached(s, steps, t)
    ensures var before, last := steps[..|steps| - 1], steps[|steps| - 1];
            Reached(s, before, mid) && AttInRange(mid) && MayHappen(mid, last) && t == Happens(mid, last)
    decreases |steps|
  {
    if |steps| == 1 {
      mid := s;
    } else {
      mid := ReachedBack(Happens(s, steps[0]), steps[1..], t);
      assert steps[1..][..|steps| - 2] == steps[..|steps| - 1][1..];
    }
  }

  /** What the state says about the run that led to it. */
  ghost predicate Tells(steps: seq<Happening>, t: Connections) {
    && |t.closed| == Attaches(steps) && (t.connected <==> IsUp(steps)) && CountCalls(t.log) == Losses(steps)
    && (t.connected ==> t.att == Some(|t.closed| - 1))
  }

  lemma {:induction false} TellsStep(steps: seq<Happening>, s: Connections, step: Happening)
    requires Latched(s) && Tells(steps, s) && MayHappen(s, step)
    ensures Tells(steps + [step], Happens(s, step))
  {
    TellsOfStep(steps, step);
    match step
    case Lost(k) => TellsLost(s, k, Losses(steps));
    case Disconnect => DisconnectCalls(s);
    case Operation =>
      if s.att.Some? && s.connected {
        CountAppend(s.log, Started(s.att.value));
      }
    case Send(k) => CountAppend(s.log, Sent(k));
    case Attach =>
  }

  lemma {:induction false} TellsOfStep(steps: seq<Happening>, step: Happening)
    ensures var all := steps + [step];
            && Attaches(all) == Attaches(steps) + (if step.Attach? then 1 else 0)
            && IsUp(all) == (step.Attach? || (IsUp(steps) && !step.Disconnect? &&
                                              !(step.Lost? && step.k + 1 == Attaches(steps))))
            && Losses(all) == Losses(steps) +
                 if step.Lost? && IsUp(steps) && step.k + 1 == Attaches(steps) then 1 else 0
  {
    assert (steps + [step])[..|steps|] == steps;
  }

  /** Only the connection in use can still be lost, and then the user is told. */
  lemma {:induction false} TellsLost(s: Connections, k: nat, losses: nat)
    requires Latched(s) && k < |s.closed| && CountCalls(s.log) == losses
    requires s.connected ==> s.att == Some(|s.closed| - 1)
    ensures var s', mine := Happens(s, Happening.Lost(k)), s.connected && k + 1 == |s.closed|;
            && CountCalls(s'.log) == losses + (if mine then 1 else 0)
            && s'.connected == (s.connected && !mine)
            && |s'.closed| == |s.closed| && s'.att == s.att
  {
    LostCalls(s, k);
  }

  /**
   * Over every such order: the client is connected exactly while the connection made last is neither lost nor
   * disconnected, and the user callback has run exactly as often as the connection in use was lost; an explicit
   * disconnect, or an older socket, does not run it. Operations start exactly while connected.
   */
  lemma {:induction false} CallbackIsExact(steps: seq<Happening>, t: Connections)
    requires Reached(NOT_CONNECTED, steps, t)
    ensures Latched(t) && Tells(steps, t)
    ensures Happens(t, Operation) == if IsUp(steps) then t.(log := t.log + [Started(Attaches(steps) - 1)]) else t
    decreases |steps|
  {
    LatchedRun(NOT_CONNECTED, steps, t);
    if steps != [] {
      var before, last := steps[..|steps| - 1], steps[|steps| - 1];
      var mid := ReachedBack(NOT_CONNECTED, steps, t);
      CallbackIsExact(before, mid);
      TellsStep(before, mid, last);
      assert steps == before + [last];
    }
  }

  /** The objects behind a state: one client, and the sockets it was attached to so far. */
  class World {
    const client: BleakClient
    var sockets: seq<L2CAPSocket>
    ghost var state: Connections

    constructor ()
      ensures Valid() && state == NOT_CONNECTED && fresh(client)
    {
      client := new BleakClient(true);
      sockets, state := [], NOT_CONNECTED;
    }

    /** The objects show the state: latches, current session and callbacks run. */
    ghost predicate Valid()
      reads this, client, sockets
    {
      && AttInRange(state) && |state.closed| == |sockets|
      && client.hasCallback
      && (forall k :: 0 <= k < |sockets| ==>
            && sockets[k].session != null
            && sockets[k].session.client == client && sockets[k].session.socket == sockets[k])
      && (forall i, j :: 0 <= i < j < |sockets| ==> sockets[i] != sockets[j])
      && (forall k :: 0 <= k < |sockets| ==> state.closed[k] == sockets[k].closed)
      && client.att == (if state.att.None? then null else sockets[state.att.value].session)
      && client.connected == state.connected
      && client.calls == CountCalls(state.log)
    }

    method Attach()
      requires Valid() && !client.connected
      modifies this, client
      ensures Valid() && state == Happens(old(state), Happening.Attach)
    {
      var socket := new L2CAPSocket();
      client.Attach(socket);
      sockets := sockets + [socket];
      state := Happens(state, Happening.Attach);
    }

    method Lost(k: nat, exc: Option<Failure>)
      requires Valid() && k < |sockets|
      modifies this`state, client`connected, client`calls, {sockets[k]}`closed, sockets[k].session.pending
      ensures Valid() && state == Happens(old(state), Happening.Lost(k))
      ensures var pending := sockets[k].session.pending;
              pending != null && !old(sockets[k].closed) && old(sockets[k].session.pending.outcome).None? ==>
                pending.outcome == Some(Exn(match exc case Some(f) => f case None => Disconnected))
    {
      sockets[k].Fail(exc);
      LostCalls(state, k);
      state := Happens(state, Happening.Lost(k));
    }

    method Disconnect()
      requires Valid()
      modifies this`state, client, (if client.att == null then {} else {client.att.socket})`closed
      ensures Valid() && state == Happens(old(state), Happening.Disconnect)
    {
      client.Disconnect();
      DisconnectCalls(state);
      state := Happens(state, Happening.Disconnect);
    }

    method Operation() returns (r: Result<ATTSession, Failure>)
      requires Valid()
      modifies this`state
      ensures Valid() && state == Happens(old(state), Happening.Operation)
      ensures r.Ok? <==> state != old(state)
    {
      r := client.RequireAtt();
      if r.Ok? {
        CountAppend(state.log, Started(state.att.value));
      }
      state := Happens(state, Happening.Operation);
    }

    method Send(k: nat) returns (error: Option<Failure>)
      requires Valid() && k < |sockets|
      modifies this`state, {sockets[k]}`sent
      ensures Valid() && state == Happens(old(state), Happening.Send(k))
      ensures sockets[k].sent == old(sockets[k].sent) + |state.log| - |old(state).log|
      ensures error == if sockets[k].closed then Some(OsError) else None
    {
      error := sockets[k].Send();
      CountAppend(state.log, Sent(k));
      state := Happens(state, Happening.Send(k));
    }
  }
}

/**
 * start_notify and stop_notify: the ledger of subscriptions against the CCCDs of the server, over any number of
 * connections.
 */
module Subscriptions {
  import opened Bytes
  import opened Att
  import opened AttClient
  import opened Gatt

  const CCCD_UUID: string := "00002902-0000-1000-8000-00805f9b34fb"
  const PROP_NOTIFY: byte := 0x10
  const PROP_INDICATE: byte := 0x20

  /** properties & flag for a single-bit flag. */
  predicate HasProperty(properties: byte, flag: byte)
    requires flag > 0
  {
    properties / flag % 2 == 1
  }

  /** get_descriptor by UUID: the first in the list. */
  function FindDescriptor(ds: seq<GattDescriptor>, uuid: string): Option<GattDescriptor> {
    if ds == [] then None
    else if ds[0].uuid == uuid then Some(ds[0])
    else FindDescriptor(ds[1..], uuid)
  }

  function CccdOf(c: GattCharacteristic): Option<GattDescriptor> {
    FindDescriptor(c.descriptors, CCCD_UUID)
  }

  /** Notifications, or indications for a characteristic that only indicates. */
  function EnableValue(c: GattCharacteristic): bytes {
    if HasProperty(c.properties, PROP_INDICATE) && !HasProperty(c.properties, PROP_NOTIFY)
    then [0x02, 0x00] else [0x01, 0x00]
  }

  const DISABLE_VALUE: bytes := [0x00, 0x00]

  /** How a Write Request ends, and whether the server applied it: after a timeout or a lost link it may have. */
  datatype WriteOutcome = WriteOutcome(applied: bool, error: Option<Failure>)
  {
    predicate Possible() {
      (error.None? ==> applied) && (error.Some? && error.value.AttError? ==> !applied)
    }
  }

  /** Handlers of the session and ledger of the client, CCCD values on the server (all zero where absent). */
  datatype State = State(
    online: bool, notifyHandlers: map<u16, Handler>, cccdHandles: map<u16, u16>, server: map<u16, bytes>)

  const FRESH: State := State(false, map[], map[], map[])

  function Write(server: map<u16, bytes>, handle: u16, value: bytes, w: WriteOutcome): map<u16, bytes> {
    if w.applied then server[handle := value] else server
  }

  /** Without a connection nothing happens but an exception. */
  function Start(s: State, c: GattCharacteristic, handler: Handler, w: WriteOutcome): State {
    if !s.online then s
    else
      var registered := s.(notifyHandlers := s.notifyHandlers[c.valueHandle := handler]);
      match CccdOf(c)
      case None => registered
      case Some(cccd) =>
        var written := registered.(server := Write(s.server, cccd.handle, EnableValue(c), w));
        if w.error.Some? then written
        else written.(cccdHandles := s.cccdHandles[c.valueHandle := cccd.handle])
  }

  /** A write error that is a BleakError is swallowed; any other leaves the handler registered. */
  function Stop(s: State, c: GattCharacteristic, w: WriteOutcome): State {
    if !s.online then s
    else
      var popped := s.(cccdHandles := s.cccdHandles - {c.valueHandle});
      var written :=
        if c.valueHandle in s.cccdHandles
        then popped.(server := Write(s.server, s.cccdHandles[c.valueHandle], DISABLE_VALUE, w)) else popped;
      if c.valueHandle in s.cccdHandles && w.error.Some? && !w.error.value.IsBleakError() then written
      else written.(notifyHandlers := s.notifyHandlers - {c.valueHandle})
  }

  /**
   * connect makes a new session, without handlers, and leaves the ledger alone; the server keeps the CCCDs of a
   * bonded client and resets those of others.
   */
  function Attach(s: State, bonded: bool): State {
    State(true, map[], s.cccdHandles, if bonded then s.server else map[])
  }

  /** A peer close or a socket error. */
  function Lose(s: State): State {
    s.(online := false)
  }

  /** disconnect clears the ledger. */
  function Disconnect(s: State): State {
    s.(online := false, cccdHandles := map[])
  }

  class Subscriber {
    var online: bool
    var notifyHandlers: map<u16, Handler>
    var cccdHandles: map<u16, u16>
    var server: map<u16, bytes>

    constructor ()
      ensures View() == FRESH
    {
      online, notifyHandlers, cccdHandles, server := false, map[], map[], map[];
    }

    ghost function View(): State
      reads this
    {
      State(online, notifyHandlers, cccdHandles, server)
    }

    method Connected(bonded: bool)
      modifies this
      ensures View() == Attach(old(View()), bonded)
    {
      online, notifyHandlers := true, map[];
      if !bonded {
        server := map[];
      }
    }

    method OnDisconnect()
      modifies this`online
      ensures View() == Lose(old(View()))
    {
      online := false;
    }

    method Teardown()
      modifies this`online, this`cccdHandles
      ensures View() == Disconnect(old(View()))
    {
      online := false;
      cccdHandles := map[];
    }

    /** ATTClient.write of a descriptor. */
    method WriteDescriptor(handle: u16, value: bytes, w: WriteOutcome) returns (error: Option<Failure>)
      modifies this`server
      ensures server == Write(old(server), handle, value, w) && error == w.error
    {
      if w.applied {
        server := server[handle := value];
      }
      error := w.error;
    }

    method StartNotify(c: GattCharacteristic, handler: Handler, w: WriteOutcome) returns (error: Option<Failure>)
      modifies this
      ensures View() == Start(old(View()), c, handler, w)
      ensures error == if !old(online) then Some(NotConnected) else if CccdOf(c).None? then Some(NoCccd) else w.error
    {
      if !online {
        return Some(NotConnected);
      }
      notifyHandlers := notifyHandlers[c.valueHandle := handler];
      var cccd := CccdOf(c);
      if cccd.None? {
        return Some(NoCccd);
      }
      error := WriteDescriptor(cccd.value.handle, EnableValue(c), w);
      if error.Some? {
        return;
      }
      cccdHandles := cccdHandles[c.valueHandle := cccd.value.handle];
    }

    method StopNotify(c: GattCharacteristic, w: WriteOutcome) returns (error: Option<Failure>)
      modifies this
      ensures View() == Stop(old(View()), c, w)
      ensures error == if !old(online) then Some(NotConnected)
                       else if c.valueHandle in old(cccdHandles) && w.error.Some? && !w.error.value.IsBleakError()
                       then w.error else None
    {
      if !online {
        return Some(NotConnected);
      }
      if c.valueHandle in cccdHandles {
        var cccd := cccdHandles[c.valueHandle];
        cccdHandles := cccdHandles - {c.valueHandle};
        error := WriteDescriptor(cccd, DISABLE_VALUE, w);
        if error.Some? && !error.value.IsBleakError() {
          return;
        }
      }
      cccdHandles := cccdHandles - {c.valueHandle};
      notifyHandlers := notifyHandlers - {c.valueHandle};
      error := None;
    }
  }

  // Runs of calls that do not overlap, over any connections.

  datatype Call =
    | Subscribe(c: GattCharacteristic, handler: Handler, w: WriteOutcome)
    | Unsubscribe(c: GattCharacteristic, w: WriteOutcome)
    | Connect(bonded: bool)
    | Lost
    | Close

  function Next(s: State, call: Call): State {
    match call
    case Subscribe(c, k, w) => Start(s, c, k, w)
    case Unsubscribe(c, w) => Stop(s, c, w)
    case Connect(bonded) => Attach(s, bonded)
    case Lost => Lose(s)
    case Close => Disconnect(s)
  }

  function After(calls: seq<Call>): State {
    if calls == [] then FRESH else Next(After(calls[..|calls| - 1]), calls[|calls| - 1])
  }

  predicate IsNotify(call: Call) {
    call.Subscribe? || call.Unsubscribe?
  }

  /** Different characteristics share neither their value handle nor a descriptor. */
  predicate Apart(c: GattCharacteristic, d: GattCharacteristic) {
    c.valueHandle != d.valueHandle &&
    forall x, y :: x in c.descriptors && y in d.descriptors ==> x.handle != y.handle
  }

  ghost predicate AllApart(chars: seq<GattCharacteristic>) {
    forall i, j :: 0 <= i < j < |chars| ==> Apart(chars[i], chars[j])
  }

  ghost predicate CallsOn(chars: seq<GattCharacteristic>, calls: seq<Call>) {
    forall call :: call in calls && IsNotify(call) ==> call.c in chars && call.w.Possible()
  }

  predicate IsOn(server: map<u16, bytes>, handle: u16) {
    handle in server && server[handle] != [0x00, 0x00]
  }

  /** The value on the wire: notifications where bit 0x10 of the properties is set, indications where only 0x20 is. */
  predicate Enables(properties: byte, value: bytes) {
    if properties / 0x10 % 2 == 0 && properties / 0x20 % 2 == 1 then value == [0x02, 0x00] else value == [0x01, 0x00]
  }

  /** The first descriptor with the Client Characteristic Configuration UUID. */
  ghost predicate IsCccd(c: GattCharacteristic, d: GattDescriptor) {
    exists i :: 0 <= i < |c.descriptors| && c.descriptors[i] == d && IsFirstCccd(c.descriptors, i)
  }

  predicate IsFirstCccd(ds: seq<GattDescriptor>, i: nat)
    requires i < |ds|
  {
    && ds[i].uuid == "00002902-0000-1000-8000-00805f9b34fb"
    && forall j :: 0 <= j < i ==> ds[j].uuid != "00002902-0000-1000-8000-00805f9b34fb"
  }

  lemma {:induction false} FirstCccdIsFound(ds: seq<GattDescriptor>, i: nat)
    requires i < |ds| && IsFirstCccd(ds, i)
    ensures FindDescriptor(ds, CCCD_UUID) == Some(ds[i])
  {
    if i > 0 {
      assert ds[0].uuid != CCCD_UUID;
      FirstCccdIsFound(ds[1..], i - 1);
    }
  }

  lemma {:induction false} FoundIsFirstCccd(ds: seq<GattDescriptor>) returns (i: nat)
    requires FindDescriptor(ds, CCCD_UUID).Some?
    ensures i < |ds| && IsFirstCccd(ds, i) && FindDescriptor(ds, CCCD_UUID) == Some(ds[i])
  {
    if ds[0].uuid == CCCD_UUID {
      i := 0;
    } else {
      var k := FoundIsFirstCccd(ds[1..]);
      i := k + 1;
    }
  }

  lemma {:induction false} CccdOfIff(c: GattCharacteristic, d: GattDescriptor)
    ensures CccdOf(c) == Some(d) <==> IsCccd(c, d)
  {
    if CccdOf(c) == Some(d) {
      var i := FoundIsFirstCccd(c.descriptors);
    }
    if IsCccd(c, d) {
      var i :| 0 <= i < |c.descriptors| && c.descriptors[i] == d && IsFirstCccd(c.descriptors, i);
      FirstCccdIsFound(c.descriptors, i);
    }
  }

  /** A start whose write the server applied leaves the CCCD with the value that the properties ask for. */
  lemma {:induction false} StartEnables(s: State, c: GattCharacteristic, handler: Handler, w: WriteOutcome,
                                        d: GattDescriptor)
    requires s.online && IsCccd(c, d)
    ensures var s' := Start(s, c, handler, w);
            && c.valueHandle in s'.notifyHandlers && s'.notifyHandlers[c.valueHandle] == handler
            && (w.applied ==> d.handle in s'.server && Enables(c.properties, s'.server[d.handle]))
            && (!w.applied ==> s'.server == s.server)
            && (w.error.None? ==> s'.cccdHandles == s.cccdHandles[c.valueHandle := d.handle])
            && (w.error.Some? ==> s'.cccdHandles == s.cccdHandles)
  {
    CccdOfIff(c, d);
  }

  lemma {:induction false} FoundIsIn(ds: seq<GattDescriptor>, uuid: string)
    ensures FindDescriptor(ds, uuid).Some? ==> FindDescriptor(ds, uuid).value in ds
  {
    if ds != [] {
      FoundIsIn(ds[1..], uuid);
    }
  }

  /** Two characteristics of the tree with one value handle, or with one CCCD, are the same. */
  lemma {:induction false} SameCharacteristic(
      chars: seq<GattCharacteristic>, c: GattCharacteristic, d: GattCharacteristic)
    requires AllApart(chars) && c in chars && d in chars
    ensures c.valueHandle == d.valueHandle ==> c == d
    ensures CccdOf(c).Some? && CccdOf(d).Some? && CccdOf(c).value.handle == CccdOf(d).value.handle ==> c == d
  {
    var i :| 0 <= i < |chars| && chars[i] == c;
    var j :| 0 <= j < |chars| && chars[j] == d;
    FoundIsIn(c.descriptors, CCCD_UUID);
    FoundIsIn(d.descriptors, CCCD_UUID);
    if i < j {
      assert Apart(c, d);
    } else if j < i {
      assert Apart(d, c);
    }
  }

  /** An entry of the ledger: a handler is registered, and the CCCD of the characteristic enables what it offers. */
  ghost predicate Subscribed(s: State, c: GattCharacteristic) {
    && c.valueHandle in s.cccdHandles && c.valueHandle in s.notifyHandlers
    && CccdOf(c).Some? && s.cccdHandles[c.valueHandle] == CccdOf(c).value.handle
    && CccdOf(c).value.handle in s.server && Enables(c.properties, s.server[CccdOf(c).value.handle])
  }

  ghost predicate IsValueHandle(chars: seq<GattCharacteristic>, v: u16) {
    exists c :: c in chars && c.valueHandle == v
  }

  /** The keys of the ledger are value handles, of characteristics that are subscribed. */
  ghost predicate LedgerSound(chars: seq<GattCharacteristic>, s: State) {
    && (forall v :: v in s.cccdHandles ==> IsValueHandle(chars, v))
    && (forall c :: c in chars && c.valueHandle in s.cccdHandles ==> Subscribed(s, c))
  }

  /** Every enabled CCCD on the server is in the ledger. */
  ghost predicate LedgerComplete(s: State) {
    forall h :: IsOn(s.server, h) ==> InLedger(s, h)
  }

  /** What the client and the server hold for a characteristic is the same in both states. */
  ghost predicate SameFor(c: GattCharacteristic, s: State, s': State) {
    && (c.valueHandle in s'.cccdHandles <==> c.valueHandle in s.cccdHandles)
    && (c.valueHandle in s.cccdHandles ==> s'.cccdHandles[c.valueHandle] == s.cccdHandles[c.valueHandle])
    && (c.valueHandle in s'.notifyHandlers <==> c.valueHandle in s.notifyHandlers)
    && (CccdOf(c).Some? ==>
          var h := CccdOf(c).value.handle;
          (h in s'.server <==> h in s.server) && (h in s.server ==> s'.server[h] == s.server[h]))
  }

  lemma {:induction false} StartLeavesOthers(chars: seq<GattCharacteristic>, s: State, d: GattCharacteristic,
                                             handler: Handler, w: WriteOutcome, c: GattCharacteristic)
    requires AllApart(chars) && c in chars && d in chars && c != d
    ensures SameFor(c, s, Start(s, d, handler, w))
  {
    SameCharacteristic(chars, c, d);
  }

  /** Stopping one characteristic never clears the CCCD, the handler or the ledger entry of another. */
  lemma {:induction false} StopLeavesOthers(chars: seq<GattCharacteristic>, s: State, d: GattCharacteristic,
                                            w: WriteOutcome, c: GattCharacteristic)
    requires AllApart(chars) && c in chars && d in chars && c != d && LedgerSound(chars, s)
    ensures SameFor(c, s, Stop(s, d, w))
  {
    SameCharacteristic(chars, c, d);
  }

  lemma {:induction false} SoundStep(chars: seq<GattCharacteristic>, s: State, call: Call)
    requires AllApart(chars) && LedgerSound(chars, s) && IsNotify(call) && call.c in chars && call.w.Possible()
    ensures LedgerSound(chars, Next(s, call))
  {
    var s' := Next(s, call);
    forall c | c in chars && c.valueHandle in s'.cccdHandles ensures Subscribed(s', c) {
      if c != call.c {
        match call
        case Subscribe(d, k, w) => StartLeavesOthers(chars, s, d, k, w, c);
        case Unsubscribe(d, w) => StopLeavesOthers(chars, s, d, w, c);
      }
    }
    forall v | v in s'.cccdHandles ensures IsValueHandle(chars, v) {
      assert v in s.cccdHandles || v == call.c.valueHandle;
    }
  }

  /** A new session has no handlers: the ledger is sound on it exactly if it was empty. */
  lemma {:induction false} SoundAfterConnectIff(chars: seq<GattCharacteristic>, s: State, bonded: bool)
    requires LedgerSound(chars, s)
    ensures LedgerSound(chars, Attach(s, bonded)) <==> s.cccdHandles == map[]
  {
    var s' := Attach(s, bonded);
    if s.cccdHandles != map[] {
      var v :| v in s.cccdHandles;
      assert v in s'.cccdHandles && v !in s'.notifyHandlers;
      var c :| c in chars && c.valueHandle == v;
    }
  }

  /** Every connection is made with an empty ledger. */
  ghost predicate ConnectsClean(calls: seq<Call>) {
    forall i :: 0 <= i < |calls| && calls[i].Connect? ==> After(calls[..i]).cccdHandles == map[]
  }

  lemma {:induction false} CleanPrefix(chars: seq<GattCharacteristic>, calls: seq<Call>)
    requires CallsOn(chars, calls) && ConnectsClean(calls) && calls != []
    ensures CallsOn(chars, calls[..|calls| - 1]) && ConnectsClean(calls[..|calls| - 1])
  {
    var before := calls[..|calls| - 1];
    forall i | 0 <= i < |before| && before[i].Connect? ensures After(before[..i]).cccdHandles == map[] {
      assert before[..i] == calls[..i];
    }
  }

  /** A connection was made, and neither lost nor closed since. */
  predicate StaysConnected(calls: seq<Call>) {
    calls != [] &&
    match calls[|calls| - 1]
    case Connect(_) => true
    case Lost => false
    case Close => false
    case _ => StaysConnected(calls[..|calls| - 1])
  }

  lemma {:induction false} OnlineIff(calls: seq<Call>)
    ensures After(calls).online <==> StaysConnected(calls)
  {
    if calls != [] {
      OnlineIff(calls[..|calls| - 1]);
    }
  }

  /** The handler that was passed last to a start_notify for this value handle while connected. */
  function LastPassed(calls: seq<Call>, v: u16): Option<Handler> {
    if calls == [] then None
    else
      var before, last := calls[..|calls| - 1], calls[|calls| - 1];
      if last.Subscribe? && last.c.valueHandle == v && StaysConnected(before) then Some(last.handler)
      else LastPassed(before, v)
  }

  /** Every entry of the ledger has the handler passed last. */
  ghost predicate HandlersOfLedger(calls: seq<Call>) {
    var s := After(calls);
    forall v :: v in s.cccdHandles ==> v in s.notifyHandlers && LastPassed(calls, v) == Some(s.notifyHandlers[v])
  }

  lemma {:induction false} LedgerHandlersStep(calls: seq<Call>)
    requires calls != [] && HandlersOfLedger(calls[..|calls| - 1])
    requires calls[|calls| - 1].Connect? ==> After(calls[..|calls| - 1]).cccdHandles == map[]
    ensures HandlersOfLedger(calls)
  {
    var before, last := calls[..|calls| - 1], calls[|calls| - 1];
    OnlineIff(before);
    forall v | v in After(calls).cccdHandles
      ensures v in After(calls).notifyHandlers && LastPassed(calls, v) == Some(After(calls).notifyHandlers[v])
    {
      if last.Subscribe? && last.c.valueHandle == v && After(before).online {
        assert After(calls).notifyHandlers[v] == last.handler;
      } else {
        assert v in After(before).cccdHandles && LastPassed(calls, v) == LastPassed(before, v);
      }
    }
  }

  /**
   * Whatever writes fail: every ledger entry has the handler that was passed last, and on the server its CCCD has the
   * value for what the characteristic offers.
   */
  lemma {:induction false} LedgerIsSound(chars: seq<GattCharacteristic>, calls: seq<Call>)
    requires AllApart(chars) && CallsOn(chars, calls) && ConnectsClean(calls)
    ensures LedgerSound(chars, After(calls)) && HandlersOfLedger(calls)
  {
    if calls != [] {
      var last, s := calls[|calls| - 1], After(calls[..|calls| - 1]);
      CleanPrefix(chars, calls);
      LedgerIsSound(chars, calls[..|calls| - 1]);
      LedgerHandlersStep(calls);
      assert last in calls;
      match last
      case Subscribe(_, _, _) => SoundStep(chars, s, last);
      case Unsubscribe(_, _) => SoundStep(chars, s, last);
      case Connect(bonded) => SoundAfterConnectIff(chars, s, bonded);
      case Lost => assert forall c :: Subscribed(s, c) ==> Subscribed(Lose(s), c);
      case Close =>
    }
  }

  /** A subscription, a peer close and a reconnect: the ledger names a subscription that has no handler. */
  lemma {:induction false} ReconnectLeavesStale(c: GattCharacteristic, handler: Handler, bonded: bool)
    requires CccdOf(c).Some?
    ensures var calls := [Connect(bonded), Subscribe(c, handler, WriteOutcome(true, None)), Lost, Connect(bonded)];
            CallsOn([c], calls) && !LedgerSound([c], After(calls))
  {
    var calls := [Connect(bonded), Subscribe(c, handler, WriteOutcome(true, None)), Lost, Connect(bonded)];
    assert calls[..3][..2] == calls[..2] && calls[..2][..1] == calls[..1] && calls[..1][..0] == [];
    assert After(calls[..1]) == Attach(FRESH, bonded);
    assert After(calls[..2]) == Start(After(calls[..1]), c, handler, WriteOutcome(true, None));
    assert After(calls[..3]) == Lose(After(calls[..2]));
    assert After(calls).notifyHandlers == map[] && c.valueHandle in After(calls).cccdHandles;
  }

  // When the ledger is empty.

  /** The call subscribes the value handle. */
  predicate Subscribes(calls: seq<Call>, i: nat, v: u16)
    requires i < |calls|
  {
    && calls[i].Subscribe? && calls[i].c.valueHandle == v && After(calls[..i]).online
    && CccdOf(calls[i].c).Some? && calls[i].w.error.None?
  }

  /** The call takes it out of the ledger: a stop while online, or a disconnect. */
  predicate Releases(calls: seq<Call>, i: nat, v: u16)
    requires i < |calls|
  {
    calls[i].Close? || (calls[i].Unsubscribe? && calls[i].c.valueHandle == v && After(calls[..i]).online)
  }

  /** Subscribed at some time, and neither stopped nor explicitly disconnected since. */
  ghost predicate StillHeld(calls: seq<Call>, v: u16) {
    exists i :: 0 <= i < |calls| && Subscribes(calls, i, v) && forall j :: i < j < |calls| ==> !Releases(calls, j, v)
  }

  lemma {:induction false} SamePrefix(calls: seq<Call>, i: nat, v: u16)
    requires calls != [] && i < |calls| - 1
    ensures Subscribes(calls[..|calls| - 1], i, v) == Subscribes(calls, i, v)
    ensures Releases(calls[..|calls| - 1], i, v) == Releases(calls, i, v)
  {
    assert calls[..|calls| - 1][..i] == calls[..i];
  }

  lemma {:induction false} HeldBefore(calls: seq<Call>, v: u16)
    requires calls != [] && StillHeld(calls, v) && !Subscribes(calls, |calls| - 1, v)
    ensures StillHeld(calls[..|calls| - 1], v) && !Releases(calls, |calls| - 1, v)
  {
    var n := |calls| - 1;
    var i :| 0 <= i < |calls| && Subscribes(calls, i, v) && forall j :: i < j < |calls| ==> !Releases(calls, j, v);
    SamePrefix(calls, i, v);
    forall j | i < j < n ensures !Releases(calls[..n], j, v) {
      SamePrefix(calls, j, v);
    }
  }

  lemma {:induction false} HeldAfter(calls: seq<Call>, v: u16)
    requires calls != [] && StillHeld(calls[..|calls| - 1], v) && !Releases(calls, |calls| - 1, v)
    ensures StillHeld(calls, v)
  {
    var n := |calls| - 1;
    var i :| 0 <= i < n && Subscribes(calls[..n], i, v) && forall j :: i < j < n ==> !Releases(calls[..n], j, v);
    SamePrefix(calls, i, v);
    forall j | i < j < |calls| ensures !Releases(calls, j, v) {
      if j < n {
        SamePrefix(calls, j, v);
      }
    }
  }

  lemma {:induction false} StillHeldLast(calls: seq<Call>, v: u16)
    requires calls != []
    ensures var n := |calls| - 1;
            StillHeld(calls, v) <==>
              Subscribes(calls, n, v) || (StillHeld(calls[..n], v) && !Releases(calls, n, v))
  {
    var n := |calls| - 1;
    if StillHeld(calls, v) && !Subscribes(calls, n, v) {
      HeldBefore(calls, v);
    }
    if StillHeld(calls[..n], v) && !Releases(calls, n, v) {
      HeldAfter(calls, v);
    }
  }

  /** The ledger holds exactly what was subscribed and neither stopped nor explicitly disconnected since. */
  lemma {:induction false} LedgerHolds(calls: seq<Call>, v: u16)
    ensures v in After(calls).cccdHandles <==> StillHeld(calls, v)
  {
    if calls != [] {
      StillHeldLast(calls, v);
      LedgerHolds(calls[..|calls| - 1], v);
      assert calls[..|calls|] == calls;
    }
  }

  // Which handlers are registered.

  /** Errors that are no BleakError. */
  predicate Propagates(error: Option<Failure>) {
    match error
    case Some(StructError) => true
    case Some(IndexError) => true
    case Some(ValueError) => true
    case Some(OverflowError) => true
    case Some(OsError) => true
    case Some(TimedOut) => true
    case Some(Cancelled) => true
    case _ => false
  }

  /**
   * The handler passed last on this connection and not stopped since; a stop whose CCCD write raises anything but a
   * BleakError does not count.
   */
  ghost function Listening(calls: seq<Call>, v: u16): Option<Handler> {
    if calls == [] then None
    else
      var before := calls[..|calls| - 1];
      match calls[|calls| - 1]
      case Subscribe(c, k, _) => if c.valueHandle == v && StaysConnected(before) then Some(k) else Listening(before, v)
      case Unsubscribe(c, w) =>
        if c.valueHandle == v && StaysConnected(before) && !(StillHeld(before, v) && Propagates(w.error)) then None
        else Listening(before, v)
      case Connect(_) => None
      case _ => Listening(before, v)
  }

  /** The session's handlers are exactly those, whatever is called and whichever writes fail. */
  lemma {:induction false} HandlersHold(calls: seq<Call>, v: u16)
    ensures Listening(calls, v) ==
            var handlers := After(calls).notifyHandlers; if v in handlers then Some(handlers[v]) else None
  {
    if calls != [] {
      var before := calls[..|calls| - 1];
      HandlersHold(before, v);
      OnlineIff(before);
      LedgerHolds(before, v);
    }
  }

  ghost predicate InLedger(s: State, h: u16) {
    exists v :: v in s.cccdHandles && s.cccdHandles[v] == h
  }

  lemma {:induction false} StartCompletes(chars: seq<GattCharacteristic>, s: State, c: GattCharacteristic,
                                          handler: Handler, w: WriteOutcome, h: u16)
    requires AllApart(chars) && LedgerSound(chars, s) && c in chars && w.Possible() && w.error.None?
    requires IsOn(s.server, h) ==> InLedger(s, h)
    requires IsOn(Start(s, c, handler, w).server, h)
    ensures InLedger(Start(s, c, handler, w), h)
  {
    var s' := Start(s, c, handler, w);
    if s.online && CccdOf(c).Some? && CccdOf(c).value.handle == h {
      assert s'.cccdHandles[c.valueHandle] == h;
    } else {
      assert IsOn(s.server, h);
      StartKeepsEntry(chars, s, c, handler, w, h);
    }
  }

  lemma {:induction false} StartKeepsEntry(chars: seq<GattCharacteristic>, s: State, c: GattCharacteristic,
                                           handler: Handler, w: WriteOutcome, h: u16)
    requires AllApart(chars) && LedgerSound(chars, s) && c in chars && InLedger(s, h)
    ensures InLedger(Start(s, c, handler, w), h)
  {
    var v :| v in s.cccdHandles && s.cccdHandles[v] == h;
    if v == c.valueHandle {
      assert Subscribed(s, c);
    }
    StartKeepsKey(s, c, handler, w, v);
  }

  lemma {:induction false} StartKeepsKey(s: State, c: GattCharacteristic, handler: Handler, w: WriteOutcome, v: u16)
    requires v in s.cccdHandles
    requires v == c.valueHandle ==> CccdOf(c).Some? && s.cccdHandles[v] == CccdOf(c).value.handle
    ensures var s' := Start(s, c, handler, w); v in s'.cccdHandles && s'.cccdHandles[v] == s.cccdHandles[v]
  {
  }

  lemma {:induction false} StopCompletes(chars: seq<GattCharacteristic>, s: State, c: GattCharacteristic,
                                         w: WriteOutcome, h: u16)
    requires c in chars && w.Possible() && w.error.None?
    requires IsOn(s.server, h) ==> InLedger(s, h)
    requires IsOn(Stop(s, c, w).server, h)
    ensures InLedger(Stop(s, c, w), h)
  {
    var s' := Stop(s, c, w);
    var v :| v in s.cccdHandles && s.cccdHandles[v] == h;
    assert v in s'.cccdHandles && s'.cccdHandles[v] == h;
  }

  lemma {:induction false} CompleteStep(chars: seq<GattCharacteristic>, s: State, call: Call)
    requires AllApart(chars) && LedgerSound(chars, s) && LedgerComplete(s)
    requires IsNotify(call) && call.c in chars && call.w.Possible() && call.w.error.None?
    ensures LedgerComplete(Next(s, call))
  {
    forall h | IsOn(Next(s, call).server, h) ensures InLedger(Next(s, call), h) {
      match call
      case Subscribe(c, k, w) => StartCompletes(chars, s, c, k, w, h);
      case Unsubscribe(c, w) => StopCompletes(chars, s, c, w, h);
    }
  }

  /** No CCCD survives into the connection: the client is not bonded, or all of them are off. */
  ghost predicate StartsOff(s: State, bonded: bool) {
    bonded ==> forall h :: !IsOn(s.server, h)
  }

  /** The ledger is exact on a new session exactly if it was empty and no CCCD survives. */
  lemma {:induction false} ExactAfterConnectIff(chars: seq<GattCharacteristic>, s: State, bonded: bool)
    requires LedgerSound(chars, s)
    ensures LedgerSound(chars, Attach(s, bonded)) && LedgerComplete(Attach(s, bonded))
            <==> s.cccdHandles == map[] && StartsOff(s, bonded)
  {
    SoundAfterConnectIff(chars, s, bonded);
    var s' := Attach(s, bonded);
    if s.cccdHandles == map[] {
      forall h ensures !InLedger(s', h) {
      }
    }
  }

  ghost predicate AllStartOff(calls: seq<Call>) {
    forall i :: 0 <= i < |calls| && calls[i].Connect? ==> StartsOff(After(calls[..i]), calls[i].bonded)
  }

  lemma {:induction false} StartOffPrefix(calls: seq<Call>)
    requires AllStartOff(calls) && calls != []
    ensures AllStartOff(calls[..|calls| - 1])
  {
    var before := calls[..|calls| - 1];
    forall i | 0 <= i < |before| && before[i].Connect? ensures StartsOff(After(before[..i]), before[i].bonded) {
      assert before[..i] == calls[..i];
    }
  }

  ghost predicate NoWriteErrors(calls: seq<Call>) {
    forall call :: call in calls && IsNotify(call) ==> call.w.error.None?
  }

  lemma {:induction false} LedgerIsComplete(chars: seq<GattCharacteristic>, calls: seq<Call>)
    requires AllApart(chars) && CallsOn(chars, calls) && ConnectsClean(calls)
    requires AllStartOff(calls) && NoWriteErrors(calls)
    ensures After(calls).online ==> LedgerComplete(After(calls))
  {
    if calls != [] {
      var before, last := calls[..|calls| - 1], calls[|calls| - 1];
      CleanPrefix(chars, calls);
      StartOffPrefix(calls);
      LedgerIsComplete(chars, before);
      LedgerIsSound(chars, before);
      assert last in calls;
      match last
      case Subscribe(_, _, _) =>
        if After(before).online {
          CompleteStep(chars, After(before), last);
        }
      case Unsubscribe(_, _) =>
        if After(before).online {
          CompleteStep(chars, After(before), last);
        }
      case Connect(bonded) => ExactAfterConnectIff(chars, After(before), bonded);
      case Lost =>
      case Close =>
    }
  }

  /** With no write errors the enabled CCCDs of the server are, on every connection, exactly those of the ledger. */
  lemma {:induction false} LedgerIsExact(chars: seq<GattCharacteristic>, calls: seq<Call>, h: u16)
    requires AllApart(chars) && CallsOn(chars, calls) && ConnectsClean(calls)
    requires AllStartOff(calls) && NoWriteErrors(calls)
    ensures After(calls).online ==> (IsOn(After(calls).server, h) <==> h in After(calls).cccdHandles.Values)
  {
    LedgerIsComplete(chars, calls);
    LedgerIsSound(chars, calls);
  }
}

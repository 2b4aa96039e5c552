/**
 * What fails inside discovery and reads is raised: only the answers that mean "no more" end them early. All of it is
 * stated on the bytes of the answers, for any peer.
 */
module Failures {
  import opened Bytes
  import opened Att
  import opened Uuids
  import opened Gatt
  import opened Paging
  import opened Discovery
  import opened LongRead
  import opened Traces

  /** The errors that end a request quietly: Attribute Not Found; Invalid Offset and Attribute Not Long for a blob. */
  function QuietCodes(request: bytes): set<byte>
    requires request != []
  {
    if request[0] == 0x0A then {} else if request[0] == 0x0C then {0x07, 0x0B} else {0x0A}
  }

  /** A response to a discovery request has a header byte, which is the entry length except for Find Information. */
  predicate HasHeader(request: bytes, pdu: bytes)
    requires request != []
  {
    request[0] in {0x0A, 0x0C} || (|pdu| >= 2 && (request[0] == 0x04 || pdu[1] != 0))
  }

  /** The response that belongs to the request, or an error that ends it quietly. */
  predicate Passes(request: bytes, outcome: Outcome)
    requires request != []
  {
    match outcome
    case Exn(f) => f.AttError? && f.code in QuietCodes(request)
    case Data(pdu) =>
      if pdu == [] then false
      else if pdu[0] == 0x01 then |pdu| >= 5 && pdu[4] in QuietCodes(request)
      else pdu[0] as nat == request[0] as nat + 1 && HasHeader(request, pdu)
  }

  /** What any other answer raises. */
  function RaisedBy(request: bytes, outcome: Outcome): Failure
    requires request != [] && !Passes(request, outcome)
  {
    match outcome
    case Exn(f) => f
    case Data(pdu) =>
      if pdu == [] then IndexError
      else if pdu[0] == 0x01 then
        if |pdu| < 5 then StructError else AttError(pdu[1], pdu[2] as nat + 0x100 * pdu[3] as nat, pdu[4])
      else if pdu[0] as nat != request[0] as nat + 1 then UnexpectedOpcode(pdu[0])
      else if |pdu| < 2 then IndexError else ValueError
  }

  /** The transactions on the link whose answers pass. */
  function Passing(policy: Policy): Asked {
    (n: nat, request: bytes) => request != [] && Passes(request, policy(n, request))
  }

  /** All transactions but one: what asks for no others does not ask for that one. */
  function AllBut(m: nat, request: bytes): Asked {
    (n: nat, r: bytes) => n != m || r != request
  }

  /** This transaction fails on the link. */
  predicate FailsAt(policy: Policy, m: nat, request: bytes) {
    request != [] && !Passes(request, policy(m, request))
  }

  /** The three discovery requests as they go out. */
  lemma {:induction false} RequestsOnWire(start: u16, end: u16, typ: bytes)
    ensures var range := [start % 0x100, start / 0x100, end % 0x100, end / 0x100];
            && Request(Groups, start, end, typ) == [0x10] + range + typ
            && Request(ByType, start, end, typ) == [0x08] + range + typ
            && Request(Info, start, end, []) == [0x04] + range
    ensures PRIMARY_SERVICE == [0x00, 0x28] && CHARACTERISTIC == [0x03, 0x28]
  {
  }

  lemma {:induction false} ErrorFields(outcome: Outcome, expected: byte)
    requires outcome.Data? && |outcome.pdu| >= 5 && outcome.pdu[0] == 0x01
    ensures var pdu := outcome.pdu;
            Classify(outcome, expected) == Err(AttError(pdu[1], pdu[2] as nat + 0x100 * pdu[3] as nat, pdu[4]))
  {
    Field16OnWire(outcome.pdu, 2);
  }

  // Paging.

  lemma {:induction false} TurnOutcome(kind: Kind, policy: Policy, n: nat, start: u16, end: u16, typ: bytes)
    ensures var request := Request(kind, start, end, typ);
            var turn := TakeTurn(kind, policy, n, start, end, typ);
            && request != []
            && if Passes(request, policy(n, request)) then turn.Continue? || turn.result.Ok?
               else turn == Stop(Err(RaisedBy(request, policy(n, request))))
  {
    var request := Request(kind, start, end, typ);
    var outcome := policy(n, request);
    assert request[0] == kind.RequestOpcode();
    if outcome.Data? && |outcome.pdu| >= 5 && outcome.pdu[0] == 0x01 {
      ErrorFields(outcome, kind.ResponseOpcode());
    }
  }

  lemma {:induction false} PagesPass(kind: Kind, policy: Policy, n: nat, start: nat, end: u16, typ: bytes)
    ensures Pages(kind, policy, n, start, end, typ).result.Ok? <==>
              PagesAsk(Passing(policy), kind, policy, n, start, end, typ)
    decreases end + 1 - start
  {
    if start <= end {
      TurnOutcome(kind, policy, n, start, end, typ);
      var turn := TakeTurn(kind, policy, n, start, end, typ);
      PagesAfter(kind, policy, n, start, end, typ, turn);
      PagesAskAfter(Passing(policy), kind, policy, n, start, end, typ, turn);
      assert Passing(policy)(n, Request(kind, start, end, typ)) <==> turn.Continue? || turn.result.Ok?;
      if turn.Continue? {
        PagesPass(kind, policy, n + 1, turn.last as nat + 1, end, typ);
      }
    }
  }

  lemma {:induction false} PagesAskAfter(
      asked: Asked, kind: Kind, policy: Policy, n: nat, start: u16, end: u16, typ: bytes, turn: Turn)
    requires start <= end && TakeTurn(kind, policy, n, start, end, typ) == turn
    ensures PagesAsk(asked, kind, policy, n, start, end, typ) <==>
              asked(n, Request(kind, start, end, typ)) &&
              (turn.Continue? ==> PagesAsk(asked, kind, policy, n + 1, turn.last as nat + 1, end, typ))
  {
  }

  lemma {:induction false} PagesFail(
      kind: Kind, policy: Policy, n: nat, start: nat, end: u16, typ: bytes, m: nat, request: bytes)
    requires FailsAt(policy, m, request) && !PagesAsk(AllBut(m, request), kind, policy, n, start, end, typ)
    ensures Pages(kind, policy, n, start, end, typ).result == Err(RaisedBy(request, policy(m, request)))
    decreases end + 1 - start
  {
    TurnOutcome(kind, policy, n, start, end, typ);
    var turn := TakeTurn(kind, policy, n, start, end, typ);
    PagesAfter(kind, policy, n, start, end, typ, turn);
    PagesAskAfter(AllBut(m, request), kind, policy, n, start, end, typ, turn);
    if turn.Continue? && (n != m || Request(kind, start, end, typ) != request) {
      PagesFail(kind, policy, n + 1, turn.last as nat + 1, end, typ, m, request);
    }
  }

  // Discovery.

  lemma {:induction false} OnePasses(policy: Policy, n: nat, c: GattCharacteristic, end: int)
    requires end < 0x1_0000
    ensures DescribeOne(policy, n, c, end).result.Ok? <==> OneAsks(Passing(policy), policy, n, c, end)
  {
    if end > c.valueHandle {
      PagesPass(Info, policy, n, c.valueHandle as nat + 1, end, []);
    }
  }

  lemma {:induction false} OneFails(
      policy: Policy, n: nat, c: GattCharacteristic, end: int, m: nat, request: bytes)
    requires end < 0x1_0000 && FailsAt(policy, m, request) && !OneAsks(AllBut(m, request), policy, n, c, end)
    ensures DescribeOne(policy, n, c, end).result == Err(RaisedBy(request, policy(m, request)))
  {
    PagesFail(Info, policy, n, c.valueHandle as nat + 1, end, [], m, request);
  }

  lemma {:induction false} DescribePasses(policy: Policy, n: nat, chars: seq<GattCharacteristic>, serviceEnd: u16)
    ensures Describe(policy, n, chars, serviceEnd).result.Ok? <==>
              DescribeAsks(Passing(policy), policy, n, chars, serviceEnd)
    decreases |chars|
  {
    if chars != [] {
      var first := DescribeOne(policy, n, chars[0], RangeEnd(chars, 0, serviceEnd));
      OnePasses(policy, n, chars[0], RangeEnd(chars, 0, serviceEnd));
      if first.result.Ok? {
        DescribePasses(policy, first.next, chars[1..], serviceEnd);
      }
    }
  }

  lemma {:induction false} DescribeFails(
      policy: Policy, n: nat, chars: seq<GattCharacteristic>, serviceEnd: u16, m: nat, request: bytes)
    requires FailsAt(policy, m, request) && !DescribeAsks(AllBut(m, request), policy, n, chars, serviceEnd)
    ensures Describe(policy, n, chars, serviceEnd).result == Err(RaisedBy(request, policy(m, request)))
    decreases |chars|
  {
    var end := RangeEnd(chars, 0, serviceEnd);
    var first := DescribeOne(policy, n, chars[0], end);
    if !OneAsks(AllBut(m, request), policy, n, chars[0], end) {
      OneFails(policy, n, chars[0], end, m, request);
    } else {
      DescribeFails(policy, first.next, chars[1..], serviceEnd, m, request);
    }
  }

  /** Failures of decoding: a service or characteristic entry without a whole UUID. */
  predicate IsDecodeFailure(f: Failure) {
    f.IndexError? || f.ValueError?
  }

  lemma {:induction false} CollectOutcome<T>(decode: Entry -> Result<T, Failure>, entries: seq<Entry>)
    requires forall e :: decode(e).Err? ==> IsDecodeFailure(decode(e).error)
    ensures Collect(decode, entries).Err? ==> IsDecodeFailure(Collect(decode, entries).error)
  {
    if entries != [] {
      CollectOutcome(decode, entries[1..]);
    }
  }

  lemma {:induction false} UuidFails(data: bytes)
    ensures |data| in {2, 4, 16} <==> UuidFromBytes(data).Ok?
    ensures UuidFromBytes(data).Err? ==> UuidFromBytes(data).error == ValueError
  {
    if |data| in {2, 4, 16} {
      DecodesToWireValue(data);
    }
  }

  lemma {:induction false} EntriesDecode(e: Entry)
    ensures ServiceOf(e).Err? <==> |e.value| !in {2, 4, 16}
    ensures ServiceOf(e).Err? ==> ServiceOf(e).error == ValueError
    ensures CharacteristicOf(e).Err? <==> |e.value| !in {5, 7, 19}
    ensures CharacteristicOf(e).Err? ==> CharacteristicOf(e).error == if e.value == [] then IndexError else ValueError
  {
    UuidFails(e.value);
    UuidFails(From(e.value, 3));
  }

  lemma {:induction false} PopulatePasses(policy: Policy, n: nat, s: GattService)
    ensures var r := Populate(policy, n, s).result;
            && (r.Ok? ==> PopulateAsks(Passing(policy), policy, n, s))
            && (r.Err? && PopulateAsks(Passing(policy), policy, n, s) ==> IsDecodeFailure(r.error))
  {
    PagesPass(ByType, policy, n, s.handle, s.endHandle, CHARACTERISTIC);
    var pages := Pages(ByType, policy, n, s.handle, s.endHandle, CHARACTERISTIC);
    if pages.result.Ok? {
      forall e { EntriesDecode(e); }
      CollectOutcome(CharacteristicOf, pages.result.value);
      var chars := Collect(CharacteristicOf, pages.result.value);
      if chars.Ok? {
        DescribePasses(policy, pages.next, chars.value, s.endHandle);
      }
    }
  }

  lemma {:induction false} PopulateFails(policy: Policy, n: nat, s: GattService, m: nat, request: bytes)
    requires FailsAt(policy, m, request) && !PopulateAsks(AllBut(m, request), policy, n, s)
    ensures Populate(policy, n, s).result == Err(RaisedBy(request, policy(m, request)))
  {
    var pages := Pages(ByType, policy, n, s.handle, s.endHandle, CHARACTERISTIC);
    if !PagesAsk(AllBut(m, request), ByType, policy, n, s.handle, s.endHandle, CHARACTERISTIC) {
      PagesFail(ByType, policy, n, s.handle, s.endHandle, CHARACTERISTIC, m, request);
    } else {
      var chars := Collect(CharacteristicOf, pages.result.value);
      DescribeFails(policy, pages.next, chars.value, s.endHandle, m, request);
    }
  }

  lemma {:induction false} PopulateAllPasses(policy: Policy, n: nat, services: seq<GattService>)
    ensures var r := PopulateAll(policy, n, services).result;
            && (r.Ok? ==> PopulateAllAsks(Passing(policy), policy, n, services))
            && (r.Err? && PopulateAllAsks(Passing(policy), policy, n, services) ==> IsDecodeFailure(r.error))
    decreases |services|
  {
    if services != [] {
      PopulatePasses(policy, n, services[0]);
      var first := Populate(policy, n, services[0]);
      if first.result.Ok? {
        PopulateAllPasses(policy, first.next, services[1..]);
      }
    }
  }

  lemma {:induction false} PopulateAllFails(
      policy: Policy, n: nat, services: seq<GattService>, m: nat, request: bytes)
    requires FailsAt(policy, m, request) && !PopulateAllAsks(AllBut(m, request), policy, n, services)
    ensures PopulateAll(policy, n, services).result == Err(RaisedBy(request, policy(m, request)))
    decreases |services|
  {
    var first := Populate(policy, n, services[0]);
    if !PopulateAsks(AllBut(m, request), policy, n, services[0]) {
      PopulateFails(policy, n, services[0], m, request);
    } else {
      PopulateAllFails(policy, first.next, services[1..], m, request);
    }
  }

  /**
   * discover() returns a tree only if every transaction it asked for ended in its response or in Attribute Not Found;
   * and if all did, the only thing that can still fail is an entry that cannot be decoded.
   */
  lemma {:induction false} DiscoverPasses(policy: Policy, n: nat)
    ensures var r := Discover(policy, n).result;
            && (r.Ok? ==> DiscoverAsks(Passing(policy), policy, n))
            && (r.Err? && DiscoverAsks(Passing(policy), policy, n) ==> IsDecodeFailure(r.error))
  {
    PagesPass(Groups, policy, n, 1, 0xFFFF, PRIMARY_SERVICE);
    var pages := Pages(Groups, policy, n, 1, 0xFFFF, PRIMARY_SERVICE);
    if pages.result.Ok? {
      forall e { EntriesDecode(e); }
      CollectOutcome(ServiceOf, pages.result.value);
      var services := Collect(ServiceOf, pages.result.value);
      if services.Ok? {
        PopulateAllPasses(policy, pages.next, services.value);
      }
    }
  }

  /** Whatever else one of its transactions ends in, discover() raises exactly that, and no shortened tree. */
  lemma {:induction false} DiscoverFails(policy: Policy, n: nat, m: nat, request: bytes)
    requires FailsAt(policy, m, request) && !DiscoverAsks(AllBut(m, request), policy, n)
    ensures Discover(policy, n).result == Err(RaisedBy(request, policy(m, request)))
  {
    var pages := Pages(Groups, policy, n, 1, 0xFFFF, PRIMARY_SERVICE);
    if !PagesAsk(AllBut(m, request), Groups, policy, n, 1, 0xFFFF, PRIMARY_SERVICE) {
      PagesFail(Groups, policy, n, 1, 0xFFFF, PRIMARY_SERVICE, m, request);
    } else {
      var services := Collect(ServiceOf, pages.result.value);
      PopulateAllFails(policy, pages.next, services.value, m, request);
    }
  }

  /** The first request of every discovery, on the wire: what its answer raises, discover() raises. */
  lemma {:induction false} FirstRequestFails(policy: Policy, n: nat)
    requires FailsAt(policy, n, [0x10, 0x01, 0x00, 0xFF, 0xFF, 0x00, 0x28])
    ensures var request := [0x10, 0x01, 0x00, 0xFF, 0xFF, 0x00, 0x28];
            Discover(policy, n).result == Err(RaisedBy(request, policy(n, request)))
  {
    RequestsOnWire(1, 0xFFFF, PRIMARY_SERVICE);
    assert Request(Groups, 1, 0xFFFF, PRIMARY_SERVICE) == [0x10, 0x01, 0x00, 0xFF, 0xFF, 0x00, 0x28];
    DiscoverFails(policy, n, n, Request(Groups, 1, 0xFFFF, PRIMARY_SERVICE));
  }

  // Reads.

  lemma {:induction false} ReadRequestsOnWire(handle: u16, offset: u16)
    ensures ReadRequest(handle) == [0x0A, handle % 0x100, handle / 0x100]
    ensures BlobRequest(handle, offset) == [0x0C, handle % 0x100, handle / 0x100, offset % 0x100, offset / 0x100]
  {
  }

  lemma {:induction false} BlobOutcome(policy: Policy, n: nat, handle: u16, offset: u16)
    ensures var request := BlobRequest(handle, offset);
            && request != []
            && if Passes(request, policy(n, request)) then Blob(policy, n, handle, offset).result.Ok?
               else Blob(policy, n, handle, offset).result == Err(RaisedBy(request, policy(n, request)))
  {
    var outcome := policy(n, BlobRequest(handle, offset));
    if outcome.Data? && |outcome.pdu| >= 5 && outcome.pdu[0] == 0x01 {
      ErrorFields(outcome, READ_BLOB_RSP);
    }
  }

  lemma {:induction false} AccumulatePasses(policy: Policy, n: nat, handle: u16, value: bytes, mtu: nat)
    ensures var r := Accumulate(policy, n, handle, value, mtu).result;
            && (r.Ok? ==> AccumulateAsks(Passing(policy), policy, n, handle, value, mtu))
            && (r.Err? && AccumulateAsks(Passing(policy), policy, n, handle, value, mtu) ==> r.error == OverflowError)
    decreases 0x1_0000 - |value|
  {
    if mtu - 1 <= |value| <= 0xFFFF {
      BlobOutcome(policy, n, handle, |value|);
      var blob := Blob(policy, n, handle, |value|);
      if blob.result.Ok? && blob.result.value != [] {
        AccumulatePasses(policy, n + 1, handle, value + blob.result.value, mtu);
      }
    }
  }

  lemma {:induction false} AccumulateFails(
      policy: Policy, n: nat, handle: u16, value: bytes, mtu: nat, m: nat, request: bytes)
    requires FailsAt(policy, m, request) && !AccumulateAsks(AllBut(m, request), policy, n, handle, value, mtu)
    ensures Accumulate(policy, n, handle, value, mtu).result == Err(RaisedBy(request, policy(m, request)))
    decreases 0x1_0000 - |value|
  {
    BlobOutcome(policy, n, handle, |value|);
    var blob := Blob(policy, n, handle, |value|);
    if n != m || BlobRequest(handle, |value|) != request {
      AccumulateFails(policy, n + 1, handle, value + blob.result.value, mtu, m, request);
    }
  }

  lemma {:induction false} ReadFirstOutcome(policy: Policy, n: nat, handle: u16)
    ensures var request, first := ReadRequest(handle), Transact(policy, n, ReadRequest(handle), READ_RSP);
            && request != []
            && if Passes(request, policy(n, request)) then first.Ok?
               else first == Err(RaisedBy(request, policy(n, request)))
  {
    var outcome := policy(n, ReadRequest(handle));
    if outcome.Data? && |outcome.pdu| >= 5 && outcome.pdu[0] == 0x01 {
      ErrorFields(outcome, READ_RSP);
    }
  }

  /**
   * read() returns a value only if its Read Request got its response and every Read Blob Request its response or one
   * of the two errors that end a value; and if all did, only an offset beyond two bytes can still fail.
   */
  lemma {:induction false} ReadPasses(policy: Policy, mtuAfter: nat -> nat, n: nat, handle: u16)
    ensures var r := Read(policy, mtuAfter, n, handle).result;
            && (r.Ok? ==> ReadAsks(Passing(policy), policy, mtuAfter, n, handle))
            && (r.Err? && ReadAsks(Passing(policy), policy, mtuAfter, n, handle) ==> r.error == OverflowError)
  {
    ReadFirstOutcome(policy, n, handle);
    var first := Transact(policy, n, ReadRequest(handle), READ_RSP);
    if first.Ok? {
      AccumulatePasses(policy, n + 1, handle, From(first.value, 1), mtuAfter(n));
    }
  }

  lemma {:induction false} ReadFails(
      policy: Policy, mtuAfter: nat -> nat, n: nat, handle: u16, m: nat, request: bytes)
    requires FailsAt(policy, m, request) && !ReadAsks(AllBut(m, request), policy, mtuAfter, n, handle)
    ensures Read(policy, mtuAfter, n, handle).result == Err(RaisedBy(request, policy(m, request)))
  {
    ReadFirstOutcome(policy, n, handle);
    if n != m || ReadRequest(handle) != request {
      var first := Transact(policy, n, ReadRequest(handle), READ_RSP);
      AccumulateFails(policy, n + 1, handle, From(first.value, 1), mtuAfter(n), m, request);
    }
  }
}

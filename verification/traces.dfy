/**
 * What discovery and reads ask on a link, and that nothing else of the link matters: two links that treat the
 * requests asked alike give the same result.
 */
module Traces {
  import opened Bytes
  import opened Att
  import opened Gatt
  import opened Paging
  import opened Discovery
  import opened LongRead

  /** A set of transactions: the number on the link, and the request. */
  type Asked = (nat, bytes) -> bool

  /** The two links treat these transactions alike. */
  ghost predicate Agree(asked: Asked, p: Policy, q: Policy) {
    forall n, request :: asked(n, request) ==> p(n, request) == q(n, request)
  }

  // Every transaction of ... is among those asked.

  ghost predicate PagesAsk(asked: Asked, kind: Kind, p: Policy, n: nat, start: nat, end: u16, typ: bytes)
    decreases end + 1 - start
  {
    start <= end ==>
      && asked(n, Request(kind, start, end, typ))
      && match TakeTurn(kind, p, n, start, end, typ)
         case Stop(_) => true
         case Continue(_, last) => PagesAsk(asked, kind, p, n + 1, last + 1, end, typ)
  }

  ghost predicate OneAsks(asked: Asked, p: Policy, n: nat, c: GattCharacteristic, end: int)
    requires end < 0x1_0000
  {
    end > c.valueHandle ==> PagesAsk(asked, Info, p, n, c.valueHandle as nat + 1, end, [])
  }

  ghost predicate DescribeAsks(asked: Asked, p: Policy, n: nat, chars: seq<GattCharacteristic>, serviceEnd: u16)
    decreases |chars|
  {
    chars != [] ==>
      var first := DescribeOne(p, n, chars[0], RangeEnd(chars, 0, serviceEnd));
      && OneAsks(asked, p, n, chars[0], RangeEnd(chars, 0, serviceEnd))
      && (first.result.Ok? ==> DescribeAsks(asked, p, first.next, chars[1..], serviceEnd))
  }

  ghost predicate PopulateAsks(asked: Asked, p: Policy, n: nat, s: GattService) {
    var pages := Pages(ByType, p, n, s.handle, s.endHandle, CHARACTERISTIC);
    && PagesAsk(asked, ByType, p, n, s.handle, s.endHandle, CHARACTERISTIC)
    && (pages.result.Ok? ==>
          var chars := Collect(CharacteristicOf, pages.result.value);
          chars.Ok? ==> DescribeAsks(asked, p, pages.next, chars.value, s.endHandle))
  }

  ghost predicate PopulateAllAsks(asked: Asked, p: Policy, n: nat, services: seq<GattService>)
    decreases |services|
  {
    services != [] ==>
      var first := Populate(p, n, services[0]);
      && PopulateAsks(asked, p, n, services[0])
      && (first.result.Ok? ==> PopulateAllAsks(asked, p, first.next, services[1..]))
  }

  ghost predicate DiscoverAsks(asked: Asked, p: Policy, n: nat) {
    var pages := Pages(Groups, p, n, 1, 0xFFFF, PRIMARY_SERVICE);
    && PagesAsk(asked, Groups, p, n, 1, 0xFFFF, PRIMARY_SERVICE)
    && (pages.result.Ok? ==>
          var services := Collect(ServiceOf, pages.result.value);
          services.Ok? ==> PopulateAllAsks(asked, p, pages.next, services.value))
  }

  ghost predicate AccumulateAsks(asked: Asked, p: Policy, n: nat, handle: u16, value: bytes, mtu: nat)
    decreases 0x1_0000 - |value|
  {
    mtu - 1 <= |value| <= 0xFFFF ==>
      var blob := Blob(p, n, handle, |value|);
      && asked(n, BlobRequest(handle, |value|))
      && (blob.result.Ok? && blob.result.value != [] ==>
            AccumulateAsks(asked, p, n + 1, handle, value + blob.result.value, mtu))
  }

  ghost predicate ReadAsks(asked: Asked, p: Policy, mtuAfter: nat -> nat, n: nat, handle: u16) {
    var first := Transact(p, n, ReadRequest(handle), READ_RSP);
    && asked(n, ReadRequest(handle))
    && (first.Ok? ==> AccumulateAsks(asked, p, n + 1, handle, From(first.value, 1), mtuAfter(n)))
  }

  // The result depends on the transactions asked only.

  lemma {:induction false} TurnAgrees(
      asked: Asked, kind: Kind, p: Policy, q: Policy, n: nat, start: u16, end: u16, typ: bytes)
    requires Agree(asked, p, q) && asked(n, Request(kind, start, end, typ))
    ensures TakeTurn(kind, p, n, start, end, typ) == TakeTurn(kind, q, n, start, end, typ)
  {
  }

  lemma {:induction false} PagesFollow(
      kind: Kind, p: Policy, q: Policy, n: nat, start: u16, end: u16, typ: bytes, turn: Turn)
    requires start <= end
    requires TakeTurn(kind, p, n, start, end, typ) == turn == TakeTurn(kind, q, n, start, end, typ)
    requires turn.Continue? ==>
               var next := turn.last as nat + 1;
               Pages(kind, p, n + 1, next, end, typ) == Pages(kind, q, n + 1, next, end, typ)
    ensures Pages(kind, p, n, start, end, typ) == Pages(kind, q, n, start, end, typ)
  {
    PagesAfter(kind, p, n, start, end, typ, turn);
    PagesAfter(kind, q, n, start, end, typ, turn);
  }

  lemma {:induction false} PagesAfter(
      kind: Kind, p: Policy, n: nat, start: u16, end: u16, typ: bytes, turn: Turn)
    requires start <= end && TakeTurn(kind, p, n, start, end, typ) == turn
    ensures Pages(kind, p, n, start, end, typ) ==
            match turn
            case Stop(result) => Scan(result, n + 1)
            case Continue(page, last) => Prepend(page, Pages(kind, p, n + 1, last as nat + 1, end, typ))
  {
  }

  lemma {:induction false} PagesAgree(
      asked: Asked, kind: Kind, p: Policy, q: Policy, n: nat, start: nat, end: u16, typ: bytes)
    requires Agree(asked, p, q) && PagesAsk(asked, kind, p, n, start, end, typ)
    ensures Pages(kind, p, n, start, end, typ) == Pages(kind, q, n, start, end, typ)
    decreases end + 1 - start
  {
    if start <= end {
      TurnAgrees(asked, kind, p, q, n, start, end, typ);
      var turn := TakeTurn(kind, p, n, start, end, typ);
      if turn.Continue? {
        PagesAgree(asked, kind, p, q, n + 1, turn.last as nat + 1, end, typ);
      }
      PagesFollow(kind, p, q, n, start, end, typ, turn);
    }
  }

  lemma {:induction false} OneAgrees(asked: Asked, p: Policy, q: Policy, n: nat, c: GattCharacteristic, end: int)
    requires end < 0x1_0000 && Agree(asked, p, q) && OneAsks(asked, p, n, c, end)
    ensures DescribeOne(p, n, c, end) == DescribeOne(q, n, c, end)
  {
    if end > c.valueHandle {
      PagesAgree(asked, Info, p, q, n, c.valueHandle as nat + 1, end, []);
    }
  }

  lemma {:induction false} DescribeAgrees(
      asked: Asked, p: Policy, q: Policy, n: nat, chars: seq<GattCharacteristic>, serviceEnd: u16)
    requires Agree(asked, p, q) && DescribeAsks(asked, p, n, chars, serviceEnd)
    ensures Describe(p, n, chars, serviceEnd) == Describe(q, n, chars, serviceEnd)
    decreases |chars|
  {
    if chars != [] {
      var first := DescribeOne(p, n, chars[0], RangeEnd(chars, 0, serviceEnd));
      OneAgrees(asked, p, q, n, chars[0], RangeEnd(chars, 0, serviceEnd));
      if first.result.Ok? {
        DescribeAgrees(asked, p, q, first.next, chars[1..], serviceEnd);
      }
    }
  }

  lemma {:induction false} PopulateAgrees(asked: Asked, p: Policy, q: Policy, n: nat, s: GattService)
    requires Agree(asked, p, q) && PopulateAsks(asked, p, n, s)
    ensures Populate(p, n, s) == Populate(q, n, s)
  {
    PagesAgree(asked, ByType, p, q, n, s.handle, s.endHandle, CHARACTERISTIC);
    var pages := Pages(ByType, p, n, s.handle, s.endHandle, CHARACTERISTIC);
    if pages.result.Ok? {
      var chars := Collect(CharacteristicOf, pages.result.value);
      if chars.Ok? {
        DescribeAgrees(asked, p, q, pages.next, chars.value, s.endHandle);
      }
    }
  }

  lemma {:induction false} PopulateAllAgrees(asked: Asked, p: Policy, q: Policy, n: nat, services: seq<GattService>)
    requires Agree(asked, p, q) && PopulateAllAsks(asked, p, n, services)
    ensures PopulateAll(p, n, services) == PopulateAll(q, n, services)
    decreases |services|
  {
    if services != [] {
      var first := Populate(p, n, services[0]);
      PopulateAgrees(asked, p, q, n, services[0]);
      if first.result.Ok? {
        PopulateAllAgrees(asked, p, q, first.next, services[1..]);
      }
    }
  }

  lemma {:induction false} DiscoverAgrees(asked: Asked, p: Policy, q: Policy, n: nat)
    requires Agree(asked, p, q) && DiscoverAsks(asked, p, n)
    ensures Discover(p, n) == Discover(q, n)
  {
    PagesAgree(asked, Groups, p, q, n, 1, 0xFFFF, PRIMARY_SERVICE);
    var pages := Pages(Groups, p, n, 1, 0xFFFF, PRIMARY_SERVICE);
    if pages.result.Ok? {
      var services := Collect(ServiceOf, pages.result.value);
      if services.Ok? {
        PopulateAllAgrees(asked, p, q, pages.next, services.value);
      }
    }
  }

  lemma {:induction false} AccumulateAgrees(
      asked: Asked, p: Policy, q: Policy, n: nat, handle: u16, value: bytes, mtu: nat)
    requires Agree(asked, p, q) && AccumulateAsks(asked, p, n, handle, value, mtu)
    ensures Accumulate(p, n, handle, value, mtu) == Accumulate(q, n, handle, value, mtu)
    decreases 0x1_0000 - |value|
  {
    if mtu - 1 <= |value| <= 0xFFFF {
      var blob := Blob(p, n, handle, |value|);
      assert Blob(q, n, handle, |value|) == blob;
      if blob.result.Ok? && blob.result.value != [] {
        AccumulateAgrees(asked, p, q, n + 1, handle, value + blob.result.value, mtu);
      }
    }
  }

  lemma {:induction false} ReadAgrees(
      asked: Asked, p: Policy, q: Policy, mtuAfter: nat -> nat, n: nat, handle: u16)
    requires Agree(asked, p, q) && ReadAsks(asked, p, mtuAfter, n, handle)
    ensures Read(p, mtuAfter, n, handle) == Read(q, mtuAfter, n, handle)
  {
    var first := Transact(p, n, ReadRequest(handle), READ_RSP);
    if first.Ok? {
      AccumulateAgrees(asked, p, q, n + 1, handle, From(first.value, 1), mtuAfter(n));
    }
  }
}

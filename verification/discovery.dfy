/** discover(): the service, characteristic and descriptor tree of the peer. */
module Discovery {
  import opened Bytes
  import opened Seqs
  import opened Att
  import opened Uuids
  import opened Gatt
  import opened Paging
  import opened AttLink

  function ServiceOf(e: Entry): Result<GattService, Failure> {
    match UuidFromBytes(e.value)
    case Ok(uuid) => Ok(GattService(e.handle, e.last, uuid, []))
    case Err(f) => Err(f)
  }

  /** A characteristic declaration: properties, value handle and UUID. */
  function CharacteristicOf(e: Entry): Result<GattCharacteristic, Failure> {
    if e.value == [] then Err(IndexError)
    else
      match UuidFromBytes(From(e.value, 3))
      case Ok(uuid) => Ok(GattCharacteristic(e.handle, Field16(e.value, 1), uuid, e.value[0], 0, []))
      case Err(f) => Err(f)
  }

  /** Decode every entry, or fail like the first that fails. */
  function Collect<T>(decode: Entry -> Result<T, Failure>, entries: seq<Entry>): Result<seq<T>, Failure> {
    if entries == [] then Ok([])
    else
      match decode(entries[0])
      case Err(f) => Err(f)
      case Ok(x) =>
        match Collect(decode, entries[1..])
        case Err(f) => Err(f)
        case Ok(xs) => Ok([x] + xs)
  }

  /** A characteristic ends before the next declaration, the last one with its service. */
  function RangeEnd(chars: seq<GattCharacteristic>, i: nat, serviceEnd: u16): int
    requires i < |chars|
  {
    if i + 1 < |chars| then chars[i + 1].handle - 1 else serviceEnd
  }

  /** The end handle, and the descriptors between the value handle and it. */
  function DescribeOne(policy: Policy, n: nat, c: GattCharacteristic, end: int): Scan<GattCharacteristic>
    requires end < 0x1_0000
  {
    if end > c.valueHandle then
      var scan := Named(Pages(Info, policy, n, c.valueHandle as nat + 1, end, []));
      match scan.result
      case Ok(ds) => Scan(Ok(c.(endHandle := end, descriptors := ds)), scan.next)
      case Err(f) => Scan(Err(f), scan.next)
    else Scan(Ok(c.(endHandle := end)), n)
  }

  function Describe(policy: Policy, n: nat, chars: seq<GattCharacteristic>, serviceEnd: u16)
    : Scan<seq<GattCharacteristic>>
    decreases |chars|
  {
    if chars == [] then Scan(Ok([]), n)
    else
      var first := DescribeOne(policy, n, chars[0], RangeEnd(chars, 0, serviceEnd));
      match first.result
      case Err(f) => Scan(Err(f), first.next)
      case Ok(c) => Prepend([c], Describe(policy, first.next, chars[1..], serviceEnd))
  }

  function Populate(policy: Policy, n: nat, s: GattService): Scan<GattService> {
    var pages := Pages(ByType, policy, n, s.handle, s.endHandle, CHARACTERISTIC);
    match pages.result
    case Err(f) => Scan(Err(f), pages.next)
    case Ok(entries) =>
      match Collect(CharacteristicOf, entries)
      case Err(f) => Scan(Err(f), pages.next)
      case Ok(chars) =>
        var described := Describe(policy, pages.next, chars, s.endHandle);
        match described.result
        case Err(f) => Scan(Err(f), described.next)
        case Ok(cs) => Scan(Ok(s.(characteristics := cs)), described.next)
  }

  function PopulateAll(policy: Policy, n: nat, services: seq<GattService>): Scan<seq<GattService>>
    decreases |services|
  {
    if services == [] then Scan(Ok([]), n)
    else
      var first := Populate(policy, n, services[0]);
      match first.result
      case Err(f) => Scan(Err(f), first.next)
      case Ok(s) => Prepend([s], PopulateAll(policy, first.next, services[1..]))
  }

  function Discover(policy: Policy, n: nat): Scan<seq<GattService>> {
    var pages := Pages(Groups, policy, n, 1, 0xFFFF, PRIMARY_SERVICE);
    match pages.result
    case Err(f) => Scan(Err(f), pages.next)
    case Ok(entries) =>
      match Collect(ServiceOf, entries)
      case Err(f) => Scan(Err(f), pages.next)
      case Ok(services) => PopulateAll(policy, pages.next, services)
  }

  // Entries of a conformant server decode to the parts of its tree.

  function BareService(s: ServiceDef): GattService {
    GattService(s.handle, s.end, UuidString(s.uuid), [])
  }

  function BareCharacteristic(c: CharacteristicDef): GattCharacteristic {
    GattCharacteristic(c.decl, c.valueHandle, UuidString(c.uuid), c.properties, 0, [])
  }

  lemma {:induction false} CollectServices(services: seq<ServiceDef>)
    requires forall s :: s in services ==> IsWireUuid(s.uuid)
    ensures Collect(ServiceOf, EntriesOf(Groups, Map(ServiceDeclaration, services))) == Ok(Map(BareService, services))
  {
    if services != [] {
      assert services[0] in services;
      DecodesToWireValue(services[0].uuid);
      CollectServices(services[1..]);
    }
  }

  lemma {:induction false} DeclarationDecodes(c: CharacteristicDef)
    requires IsWireUuid(c.uuid)
    ensures CharacteristicOf(EntryOf(ByType, DeclarationOf(c))) == Ok(BareCharacteristic(c))
  {
    var value := DeclarationOf(c).value;
    assert value[1..3] == LE16(c.valueHandle) && value[3..] == c.uuid;
    Field16Decodes(value, 1, c.valueHandle);
    DecodesToWireValue(c.uuid);
  }

  lemma {:induction false} CollectCharacteristics(cs: seq<CharacteristicDef>)
    requires forall c :: c in cs ==> IsWireUuid(c.uuid)
    ensures Collect(CharacteristicOf, EntriesOf(ByType, Map(DeclarationOf, cs))) == Ok(Map(BareCharacteristic, cs))
  {
    if cs != [] {
      assert cs[0] in cs;
      DeclarationDecodes(cs[0]);
      CollectCharacteristics(cs[1..]);
    }
  }

  // The handle ranges of characteristics.

  /** Describing characteristics fills in their ends and descriptors, and nothing else, whatever the peer sends. */
  lemma {:induction false} DescribeKeeps(policy: Policy, n: nat, chars: seq<GattCharacteristic>, serviceEnd: u16)
    ensures var r := Describe(policy, n, chars, serviceEnd).result;
            r.Ok? ==>
              && |r.value| == |chars|
              && forall i :: 0 <= i < |chars| ==>
                   r.value[i] == chars[i].(endHandle := RangeEnd(chars, i, serviceEnd),
                                           descriptors := r.value[i].descriptors)
    decreases |chars|
  {
    if chars != [] {
      var first := DescribeOne(policy, n, chars[0], RangeEnd(chars, 0, serviceEnd));
      if first.result.Ok? {
        DescribeKeeps(policy, first.next, chars[1..], serviceEnd);
        assert forall i :: 0 < i < |chars| ==>
          RangeEnd(chars, i, serviceEnd) == RangeEnd(chars[1..], i - 1, serviceEnd);
      }
    }
  }

  predicate InRange(chars: seq<GattCharacteristic>, i: nat, serviceEnd: u16, h: int) {
    i < |chars| && chars[i].handle <= h <= RangeEnd(chars, i, serviceEnd)
  }

  ghost predicate IncreasingHandles(chars: seq<GattCharacteristic>, serviceEnd: u16) {
    && (forall i, j :: 0 <= i < j < |chars| ==> chars[i].handle < chars[j].handle)
    && (forall i :: 0 <= i < |chars| ==> chars[i].handle <= serviceEnd)
  }

  /** The ranges of increasing declarations tile the service from the first declaration to its end. */
  lemma {:induction false} RangesTile(chars: seq<GattCharacteristic>, serviceEnd: u16, h: int)
    requires IncreasingHandles(chars, serviceEnd) && chars != []
    ensures chars[0].handle <= h <= serviceEnd <==> exists i: nat :: InRange(chars, i, serviceEnd, h)
    ensures forall i: nat, j: nat :: InRange(chars, i, serviceEnd, h) && InRange(chars, j, serviceEnd, h) ==> i == j
    decreases |chars|
  {
    if chars[0].handle <= h <= serviceEnd {
      var i := RangeOf(chars, serviceEnd, h);
      assert InRange(chars, i, serviceEnd, h);
    }
  }

  /** The last declaration at or below the handle. */
  lemma {:induction false} RangeOf(chars: seq<GattCharacteristic>, serviceEnd: u16, h: int) returns (i: nat)
    requires chars != [] && chars[0].handle <= h <= serviceEnd
    ensures InRange(chars, i, serviceEnd, h)
    decreases |chars|
  {
    if |chars| == 1 || h < chars[1].handle {
      i := 0;
    } else {
      var k := RangeOf(chars[1..], serviceEnd, h);
      i := k + 1;
    }
  }
}

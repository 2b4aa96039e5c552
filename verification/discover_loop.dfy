/** discover() itself: the nested loops, in place, against any peer. */
module DiscoverLoop {
  import opened Bytes
  import opened Att
  import opened Gatt
  import opened Paging
  import opened AttLink
  import opened Discovery

  ghost predicate DecodedTo<T>(decode: Entry -> Result<T, Failure>, entries: seq<Entry>, xs: seq<T>) {
    |entries| == |xs| && forall i :: 0 <= i < |xs| ==> decode(entries[i]) == Ok(xs[i])
  }

  lemma {:induction false} CollectAll<T>(decode: Entry -> Result<T, Failure>, entries: seq<Entry>, xs: seq<T>)
    requires DecodedTo(decode, entries, xs)
    ensures Collect(decode, entries) == Ok(xs)
  {
    if entries != [] {
      CollectAll(decode, entries[1..], xs[1..]);
      assert xs == [xs[0]] + xs[1..];
    }
  }

  lemma {:induction false} CollectFails<T>(decode: Entry -> Result<T, Failure>, entries: seq<Entry>, i: nat, xs: seq<T>)
    requires i < |entries| && DecodedTo(decode, entries[..i], xs) && decode(entries[i]).Err?
    ensures Collect(decode, entries) == Err(decode(entries[i]).error)
  {
    if i > 0 {
      assert entries[1..][..i - 1] == entries[..i][1..];
      CollectFails(decode, entries[1..], i - 1, xs[1..]);
    }
  }

  /** Decode the entries one after the other; the first that cannot be decoded raises. */
  method DecodeAll<T>(decode: Entry -> Result<T, Failure>, entries: seq<Entry>) returns (r: Result<seq<T>, Failure>)
    ensures r == Collect(decode, entries)
  {
    var xs: seq<T> := [];
    for i := 0 to |entries|
      invariant DecodedTo(decode, entries[..i], xs)
    {
      var x := decode(entries[i]);
      if x.Err? {
        CollectFails(decode, entries, i, xs);
        return Err(x.error);
      }
      xs := xs + [x.value];
    }
    assert entries[..|entries|] == entries;
    CollectAll(decode, entries, xs);
    return Ok(xs);
  }

  ghost predicate DescribeRemains(policy: Policy, n: nat, chars: seq<GattCharacteristic>, serviceEnd: u16,
                                  done: seq<GattCharacteristic>, whole: Scan<seq<GattCharacteristic>>) {
    whole == Prepend(done, Describe(policy, n, chars, serviceEnd))
  }

  lemma {:induction false} DescribeAdvances(policy: Policy, n: nat, chars: seq<GattCharacteristic>, serviceEnd: u16,
                                            done: seq<GattCharacteristic>, whole: Scan<seq<GattCharacteristic>>)
    requires chars != [] && DescribeRemains(policy, n, chars, serviceEnd, done, whole)
    ensures var first := DescribeOne(policy, n, chars[0], RangeEnd(chars, 0, serviceEnd));
            match first.result
            case Err(f) => whole == Scan(Err(f), first.next)
            case Ok(c) => DescribeRemains(policy, first.next, chars[1..], serviceEnd, done + [c], whole)
  {
    var first := DescribeOne(policy, n, chars[0], RangeEnd(chars, 0, serviceEnd));
    if first.result.Ok? {
      var rest := Describe(policy, first.next, chars[1..], serviceEnd);
      if rest.result.Ok? {
        assert done + ([first.result.value] + rest.result.value) == done + [first.result.value] + rest.result.value;
      }
    }
  }

  method DescribeCharacteristic(link: Link, c: GattCharacteristic, end: int)
    returns (r: Result<GattCharacteristic, Failure>)
    requires end < 0x1_0000
    modifies link
    ensures Scan(r, link.next) == DescribeOne(link.policy, old(link.next), c, end)
  {
    if end > c.valueHandle {
      var found := link.FindInformation(c.valueHandle as nat + 1, end);
      match found
      case Err(f) => return Err(f);
      case Ok(ds) => return Ok(c.(endHandle := end, descriptors := ds));
    }
    return Ok(c.(endHandle := end));
  }

  method DescribeCharacteristics(link: Link, chars: seq<GattCharacteristic>, serviceEnd: u16)
    returns (r: Result<seq<GattCharacteristic>, Failure>)
    modifies link
    ensures Scan(r, link.next) == Describe(link.policy, old(link.next), chars, serviceEnd)
  {
    ghost var whole := Describe(link.policy, link.next, chars, serviceEnd);
    var done: seq<GattCharacteristic> := [];
    PrependUnits(done, whole, link.next);
    var i := 0;
    while i < |chars|
      invariant 0 <= i <= |chars|
      invariant DescribeRemains(link.policy, link.next, chars[i..], serviceEnd, done, whole)
    {
      DescribeAdvances(link.policy, link.next, chars[i..], serviceEnd, done, whole);
      var end := if i + 1 < |chars| then chars[i + 1].handle - 1 else serviceEnd;
      var described := DescribeCharacteristic(link, chars[i], end);
      if described.Err? {
        return Err(described.error);
      }
      assert chars[i..][1..] == chars[i + 1..];
      done := done + [described.value];
      i := i + 1;
    }
    PrependUnits(done, whole, link.next);
    return Ok(done);
  }

  method PopulateService(link: Link, svc: GattService) returns (r: Result<GattService, Failure>)
    modifies link
    ensures Scan(r, link.next) == Populate(link.policy, old(link.next), svc)
  {
    var entries := link.ReadPages(ByType, svc.handle, svc.endHandle, CHARACTERISTIC);
    if entries.Err? {
      return Err(entries.error);
    }
    var chars := DecodeAll(CharacteristicOf, entries.value);
    if chars.Err? {
      return Err(chars.error);
    }
    var described := DescribeCharacteristics(link, chars.value, svc.endHandle);
    if described.Err? {
      return Err(described.error);
    }
    return Ok(svc.(characteristics := described.value));
  }

  ghost predicate PopulateRemains(policy: Policy, n: nat, services: seq<GattService>,
                                  done: seq<GattService>, whole: Scan<seq<GattService>>) {
    whole == Prepend(done, PopulateAll(policy, n, services))
  }

  lemma {:induction false} PopulateAdvances(policy: Policy, n: nat, services: seq<GattService>,
                                            done: seq<GattService>, whole: Scan<seq<GattService>>)
    requires services != [] && PopulateRemains(policy, n, services, done, whole)
    ensures var first := Populate(policy, n, services[0]);
            match first.result
            case Err(f) => whole == Scan(Err(f), first.next)
            case Ok(s) => PopulateRemains(policy, first.next, services[1..], done + [s], whole)
  {
    var first := Populate(policy, n, services[0]);
    if first.result.Ok? {
      var rest := PopulateAll(policy, first.next, services[1..]);
      if rest.result.Ok? {
        assert done + ([first.result.value] + rest.result.value) == done + [first.result.value] + rest.result.value;
      }
    }
  }

  method PopulateServices(link: Link, services: seq<GattService>) returns (r: Result<seq<GattService>, Failure>)
    modifies link
    ensures Scan(r, link.next) == PopulateAll(link.policy, old(link.next), services)
  {
    ghost var whole := PopulateAll(link.policy, link.next, services);
    var done: seq<GattService> := [];
    PrependUnits(done, whole, link.next);
    var i := 0;
    while i < |services|
      invariant 0 <= i <= |services|
      invariant PopulateRemains(link.policy, link.next, services[i..], done, whole)
    {
      PopulateAdvances(link.policy, link.next, services[i..], done, whole);
      var populated := PopulateService(link, services[i]);
      if populated.Err? {
        return Err(populated.error);
      }
      assert services[i..][1..] == services[i + 1..];
      done := done + [populated.value];
      i := i + 1;
    }
    PrependUnits(done, whole, link.next);
    return Ok(done);
  }

  /** Against any peer; against a conformant one DiscoverIsExact says what the result is. */
  method DiscoverTree(link: Link) returns (r: Result<seq<GattService>, Failure>)
    modifies link
    ensures Scan(r, link.next) == Discover(link.policy, old(link.next))
  {
    var entries := link.ReadPages(Groups, 1, 0xFFFF, PRIMARY_SERVICE);
    if entries.Err? {
      return Err(entries.error);
    }
    var services := DecodeAll(ServiceOf, entries.value);
    if services.Err? {
      return Err(services.error);
    }
    r := PopulateServices(link, services.value);
  }
}

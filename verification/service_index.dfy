/** BleakGATTServiceCollection: the lookup indexes over the discovered tree. */
module ServiceIndex {
  import opened Bytes
  import opened Att
  import opened Uuids
  import opened Gatt

  function Characteristics(services: seq<GattService>): seq<GattCharacteristic> {
    if services == [] then [] else services[0].characteristics + Characteristics(services[1..])
  }

  function Descriptors(chars: seq<GattCharacteristic>): seq<GattDescriptor> {
    if chars == [] then [] else chars[0].descriptors + Descriptors(chars[1..])
  }

  // What the indexes stand for: searching the tree in order.

  function FirstByUuid(chars: seq<GattCharacteristic>, uuid: string): Option<GattCharacteristic> {
    if chars == [] then None
    else if chars[0].uuid == uuid then Some(chars[0])
    else FirstByUuid(chars[1..], uuid)
  }

  function LastByHandle(chars: seq<GattCharacteristic>, handle: u16): Option<GattCharacteristic> {
    if chars == [] then None
    else
      var last := chars[|chars| - 1];
      if last.handle == handle then Some(last) else LastByHandle(chars[..|chars| - 1], handle)
  }

  function LastDescriptor(ds: seq<GattDescriptor>, handle: u16): Option<GattDescriptor> {
    if ds == [] then None
    else
      var last := ds[|ds| - 1];
      if last.handle == handle then Some(last) else LastDescriptor(ds[..|ds| - 1], handle)
  }

  function Lookup<K, V>(m: map<K, V>, k: K): Option<V> {
    if k in m then Some(m[k]) else None
  }

  /** The first match from the front, the last from the back. */
  lemma {:induction false} FirstByUuidIs(chars: seq<GattCharacteristic>, uuid: string, i: nat)
    requires i <= |chars| && (forall j :: 0 <= j < i ==> chars[j].uuid != uuid)
    requires i < |chars| ==> chars[i].uuid == uuid
    ensures FirstByUuid(chars, uuid) == if i < |chars| then Some(chars[i]) else None
  {
    if i > 0 {
      FirstByUuidIs(chars[1..], uuid, i - 1);
    }
  }

  lemma {:induction false} LastByHandleIs(chars: seq<GattCharacteristic>, handle: u16, i: nat)
    requires i <= |chars| && (forall j :: i <= j < |chars| ==> chars[j].handle != handle)
    requires i > 0 ==> chars[i - 1].handle == handle
    ensures LastByHandle(chars, handle) == if i > 0 then Some(chars[i - 1]) else None
  {
    if i < |chars| {
      LastByHandleIs(chars[..|chars| - 1], handle, i);
    }
  }

  lemma {:induction false} LastDescriptorIs(ds: seq<GattDescriptor>, handle: u16, i: nat)
    requires i <= |ds| && (forall j :: i <= j < |ds| ==> ds[j].handle != handle)
    requires i > 0 ==> ds[i - 1].handle == handle
    ensures LastDescriptor(ds, handle) == if i > 0 then Some(ds[i - 1]) else None
  {
    if i < |ds| {
      LastDescriptorIs(ds[..|ds| - 1], handle, i);
    }
  }

  lemma {:induction false} FirstByUuidAppend(chars: seq<GattCharacteristic>, c: GattCharacteristic, uuid: string)
    ensures FirstByUuid(chars + [c], uuid) ==
            if FirstByUuid(chars, uuid).Some? then FirstByUuid(chars, uuid)
            else if c.uuid == uuid then Some(c) else None
  {
    if chars != [] {
      assert (chars + [c])[1..] == chars[1..] + [c];
      FirstByUuidAppend(chars[1..], c, uuid);
    } else {
      assert [c][1..] == [];
    }
  }

  ghost predicate CharacteristicsIndexed(
      byHandle: map<u16, GattCharacteristic>, byUuid: map<string, GattCharacteristic>,
      chars: seq<GattCharacteristic>) {
    && (forall h: u16 :: Lookup(byHandle, h) == LastByHandle(chars, h))
    && (forall u: string :: Lookup(byUuid, u) == FirstByUuid(chars, u))
  }

  ghost predicate DescriptorsIndexed(byHandle: map<u16, GattDescriptor>, ds: seq<GattDescriptor>) {
    forall h: u16 :: Lookup(byHandle, h) == LastDescriptor(ds, h)
  }

  lemma {:induction false} ServiceSplits(services: seq<GattService>, i: nat, chars: seq<GattCharacteristic>)
    requires i < |services|
    ensures chars + Characteristics(services[i..])
         == (chars + services[i].characteristics) + Characteristics(services[i + 1..])
  {
    assert services[i..][1..] == services[i + 1..];
  }

  class ServiceCollection {
    var services: seq<GattService>
    var byCharHandle: map<u16, GattCharacteristic>
    var byCharUuid: map<string, GattCharacteristic>
    var byDescHandle: map<u16, GattDescriptor>

    ghost predicate Valid()
      reads this
    {
      && CharacteristicsIndexed(byCharHandle, byCharUuid, Characteristics(services))
      && DescriptorsIndexed(byDescHandle, Descriptors(Characteristics(services)))
    }

    constructor (services: seq<GattService>)
      ensures Valid() && this.services == services
    {
      this.services := services;
      byCharHandle, byCharUuid, byDescHandle := map[], map[], map[];
      new;
      ghost var chars: seq<GattCharacteristic> := [];
      for i := 0 to |services|
        invariant this.services == services
        invariant chars + Characteristics(services[i..]) == Characteristics(services)
        invariant CharacteristicsIndexed(byCharHandle, byCharUuid, chars)
        invariant DescriptorsIndexed(byDescHandle, Descriptors(chars))
      {
        AddService(services[i].characteristics, chars);
        ServiceSplits(services, i, chars);
        chars := chars + services[i].characteristics;
      }
      assert chars + [] == chars;
    }

    method AddService(own: seq<GattCharacteristic>, ghost before: seq<GattCharacteristic>)
      requires CharacteristicsIndexed(byCharHandle, byCharUuid, before)
      requires DescriptorsIndexed(byDescHandle, Descriptors(before))
      modifies this`byCharHandle, this`byCharUuid, this`byDescHandle
      ensures CharacteristicsIndexed(byCharHandle, byCharUuid, before + own)
      ensures DescriptorsIndexed(byDescHandle, Descriptors(before + own))
    {
      ghost var chars := before;
      for j := 0 to |own|
        invariant chars == before + own[..j]
        invariant CharacteristicsIndexed(byCharHandle, byCharUuid, chars)
        invariant DescriptorsIndexed(byDescHandle, Descriptors(chars))
      {
        AddCharacteristic(own[j], chars);
        AddDescriptors(own[j].descriptors, Descriptors(chars));
        DescriptorsAppend(chars, own[j]);
        assert own[..j + 1] == own[..j] + [own[j]];
        chars := chars + [own[j]];
      }
      assert own[..|own|] == own;
    }

    method AddCharacteristic(c: GattCharacteristic, ghost chars: seq<GattCharacteristic>)
      requires CharacteristicsIndexed(byCharHandle, byCharUuid, chars)
      modifies this`byCharHandle, this`byCharUuid
      ensures CharacteristicsIndexed(byCharHandle, byCharUuid, chars + [c])
    {
      byCharHandle := byCharHandle[c.handle := c];
      if c.uuid !in byCharUuid {
        byCharUuid := byCharUuid[c.uuid := c];
      }
      assert (chars + [c])[..|chars|] == chars;
      forall u: string ensures Lookup(byCharUuid, u) == FirstByUuid(chars + [c], u) {
        FirstByUuidAppend(chars, c, u);
        assert Lookup(old(byCharUuid), u) == FirstByUuid(chars, u);
        assert Lookup(old(byCharUuid), c.uuid) == FirstByUuid(chars, c.uuid);
      }
    }

    method AddDescriptors(ds: seq<GattDescriptor>, ghost before: seq<GattDescriptor>)
      requires DescriptorsIndexed(byDescHandle, before)
      modifies this`byDescHandle
      ensures DescriptorsIndexed(byDescHandle, before + ds)
    {
      assert before + ds[..0] == before;
      for i := 0 to |ds|
        invariant DescriptorsIndexed(byDescHandle, before + ds[..i])
      {
        byDescHandle := byDescHandle[ds[i].handle := ds[i]];
        var longer := before + ds[..i + 1];
        assert longer[..|longer| - 1] == before + ds[..i];
      }
      assert ds[..|ds|] == ds;
    }

    method GetCharacteristicByHandle(handle: u16) returns (c: Option<GattCharacteristic>)
      requires Valid()
      ensures c == LastByHandle(Characteristics(services), handle)
    {
      c := Lookup(byCharHandle, handle);
    }

    /** A string is normalised first; a malformed one raises ValueError. */
    method GetCharacteristicByUuid(specifier: string) returns (c: Result<Option<GattCharacteristic>, Failure>)
      requires Valid()
      ensures c == match NormalizeUuidStr(specifier)
                   case Ok(uuid) => Ok(FirstByUuid(Characteristics(services), uuid))
                   case Err(f) => Err(f)
    {
      var uuid := NormalizeUuidStr(specifier);
      match uuid
      case Err(f) => return Err(f);
      case Ok(u) => return Ok(Lookup(byCharUuid, u));
    }

    method GetDescriptor(handle: u16) returns (d: Option<GattDescriptor>)
      requires Valid()
      ensures d == LastDescriptor(Descriptors(Characteristics(services)), handle)
    {
      d := Lookup(byDescHandle, handle);
    }
  }

  lemma {:induction false} DescriptorsAppend(chars: seq<GattCharacteristic>, c: GattCharacteristic)
    ensures Descriptors(chars + [c]) == Descriptors(chars) + c.descriptors
  {
    if chars == [] {
      assert [c][1..] == [];
      assert c.descriptors + [] == c.descriptors;
    } else {
      assert (chars + [c])[1..] == chars[1..] + [c];
      DescriptorsAppend(chars[1..], c);
    }
  }
}

/** The handles of a discovered tree: strictly increasing, so lookups and subscriptions never collide. */
module TreeOrder {
  import opened Bytes
  import opened Seqs
  import opened Gatt
  import opened DiscoveryExact
  import opened ServiceIndex
  import Subscriptions

  function DescriptorHandles(ds: seq<GattDescriptor>): set<u16> {
    set d | d in ds :: d.handle
  }

  /** Every handle that belongs to a characteristic. */
  function Handles(c: GattCharacteristic): set<u16> {
    {c.handle, c.valueHandle} + DescriptorHandles(c.descriptors)
  }

  function AllHandles(chars: seq<GattCharacteristic>): set<u16> {
    set c, h | c in chars && h in Handles(c) :: h
  }

  ghost predicate Below(xs: set<u16>, ys: set<u16>) {
    forall x, y :: x in xs && y in ys ==> x < y
  }

  ghost predicate IncreasingDescriptors(ds: seq<GattDescriptor>) {
    forall i, j :: 0 <= i < j < |ds| ==> ds[i].handle < ds[j].handle
  }

  /** Characteristics follow one another, and so do the descriptors of each. */
  ghost predicate Spaced(chars: seq<GattCharacteristic>) {
    && (forall i, j :: 0 <= i < j < |chars| ==> Below(Handles(chars[i]), Handles(chars[j])))
    && (forall i :: 0 <= i < |chars| ==> IncreasingDescriptors(chars[i].descriptors))
  }

  lemma {:induction false} SpacedConcat(xs: seq<GattCharacteristic>, ys: seq<GattCharacteristic>)
    requires Spaced(xs) && Spaced(ys) && Below(AllHandles(xs), AllHandles(ys))
    ensures Spaced(xs + ys) && AllHandles(xs + ys) == AllHandles(xs) + AllHandles(ys)
  {
    var all := xs + ys;
    forall i, j | 0 <= i < j < |all| ensures Below(Handles(all[i]), Handles(all[j])) {
      if i < |xs| <= j {
        assert all[i] in xs && all[j] in ys;
        assert Handles(all[i]) <= AllHandles(xs) && Handles(all[j]) <= AllHandles(ys);
      }
    }
  }

  function AttributeHandles(attributes: seq<Attribute>): set<u16> {
    set a | a in attributes :: a.handle
  }

  lemma {:induction false} HandlesBelow(xs: seq<Attribute>, ys: seq<Attribute>)
    requires Ordered(xs + ys)
    ensures Ordered(xs) && Ordered(ys) && Below(AttributeHandles(xs), AttributeHandles(ys))
    ensures AttributeHandles(xs + ys) == AttributeHandles(xs) + AttributeHandles(ys)
  {
    OrderedParts(xs, ys);
  }

  lemma {:induction false} DescriptorsIncrease(ds: seq<Attribute>)
    requires Ordered(ds)
    ensures IncreasingDescriptors(Map(TreeOfDescriptor, ds))
    ensures DescriptorHandles(Map(TreeOfDescriptor, ds)) == AttributeHandles(ds)
  {
    var tree := Map(TreeOfDescriptor, ds);
    forall i | 0 <= i < |ds| ensures tree[i].handle == ds[i].handle {
      MapAt(TreeOfDescriptor, ds, i);
    }
    forall h | h in AttributeHandles(ds) ensures h in DescriptorHandles(tree) {
      var i :| 0 <= i < |ds| && ds[i].handle == h;
      assert tree[i] in tree;
    }
  }

  lemma {:induction false} OneSpaced(c: CharacteristicDef, end: int)
    requires Ordered(CharacteristicAttributes(c))
    ensures Spaced([FullCharacteristic(c, end)])
    ensures AllHandles([FullCharacteristic(c, end)]) == AttributeHandles(CharacteristicAttributes(c))
  {
    var own := [DeclarationOf(c), Attribute(c.valueHandle, c.uuid, c.value, 0)];
    HandlesBelow(own, c.descriptors);
    DescriptorsIncrease(c.descriptors);
    assert AttributeHandles(own) == {c.decl, c.valueHandle} by {
      assert own[0] in own && own[1] in own;
    }
    var full := FullCharacteristic(c, end);
    assert full in [full];
    assert AllHandles([full]) == Handles(full);
  }

  lemma {:induction false} CharacteristicsSpaced(cs: seq<CharacteristicDef>, serviceEnd: u16)
    requires Ordered(CharacteristicsAttributes(cs))
    ensures Spaced(TreeOfCharacteristics(cs, serviceEnd))
    ensures AllHandles(TreeOfCharacteristics(cs, serviceEnd)) == AttributeHandles(CharacteristicsAttributes(cs))
  {
    if cs != [] {
      var first, rest := CharacteristicAttributes(cs[0]), CharacteristicsAttributes(cs[1..]);
      HandlesBelow(first, rest);
      OneSpaced(cs[0], EndHandle(cs, 0, serviceEnd));
      CharacteristicsSpaced(cs[1..], serviceEnd);
      SpacedConcat([FullCharacteristic(cs[0], EndHandle(cs, 0, serviceEnd))],
                   TreeOfCharacteristics(cs[1..], serviceEnd));
    }
  }

  lemma {:induction false} SectionSpaced(section: Section)
    requires Ordered(SectionAttributes(section))
    ensures Spaced(Characteristics(TreeOf([section])))
    ensures AllHandles(Characteristics(TreeOf([section]))) <= AttributeHandles(SectionAttributes(section))
  {
    assert Services([section][1..]) == [];
    match section
    case Other(_) => assert Services([section]) == [];
    case Primary(s) =>
      assert Services([section]) == [s];
      assert [s][1..] == [];
      var chars := TreeOfCharacteristics(s.characteristics, s.end);
      assert Characteristics(TreeOf([section])) == chars + Characteristics(Map(TreeOfService, []));
      assert chars + [] == chars;
      var head := [ServiceDeclaration(s)] + s.includes;
      assert ServiceAttributes(s) == head + CharacteristicsAttributes(s.characteristics);
      HandlesBelow(head, CharacteristicsAttributes(s.characteristics));
      CharacteristicsSpaced(s.characteristics, s.end);
  }

  lemma {:induction false} CharacteristicsConcat(xs: seq<GattService>, ys: seq<GattService>)
    ensures Characteristics(xs + ys) == Characteristics(xs) + Characteristics(ys)
  {
    if xs == [] {
      assert xs + ys == ys;
    } else {
      assert (xs + ys)[1..] == xs[1..] + ys;
      CharacteristicsConcat(xs[1..], ys);
    }
  }

  lemma {:induction false} TreeSplits(db: Database)
    requires db != []
    ensures Characteristics(TreeOf(db)) == Characteristics(TreeOf([db[0]])) + Characteristics(TreeOf(db[1..]))
  {
    var first, rest := [db[0]], db[1..];
    assert Services(first[1..]) == [];
    assert Services(db) == Services(first) + Services(rest);
    MapConcat(TreeOfService, Services(first), Services(rest));
    CharacteristicsConcat(TreeOf(first), TreeOf(rest));
  }

  lemma {:induction false} BelowSubsets(xs: set<u16>, ys: set<u16>, xs': set<u16>, ys': set<u16>)
    requires Below(xs, ys) && xs' <= xs && ys' <= ys
    ensures Below(xs', ys')
  {
  }

  /** The characteristics of a well-formed database follow one another with all their handles. */
  lemma {:induction false} TreeSpaced(db: Database)
    requires Ordered(Attributes(db))
    ensures Spaced(Characteristics(TreeOf(db)))
    ensures AllHandles(Characteristics(TreeOf(db))) <= AttributeHandles(Attributes(db))
  {
    if db != [] {
      var first, rest := Characteristics(TreeOf([db[0]])), Characteristics(TreeOf(db[1..]));
      HandlesBelow(SectionAttributes(db[0]), Attributes(db[1..]));
      SectionSpaced(db[0]);
      TreeSpaced(db[1..]);
      TreeSplits(db);
      BelowSubsets(AttributeHandles(SectionAttributes(db[0])), AttributeHandles(Attributes(db[1..])),
                   AllHandles(first), AllHandles(rest));
      SpacedConcat(first, rest);
    }
  }

  lemma {:induction false} BelowIsApart(c: GattCharacteristic, d: GattCharacteristic)
    requires Below(Handles(c), Handles(d))
    ensures Subscriptions.Apart(c, d)
  {
    forall x, y | x in c.descriptors && y in d.descriptors ensures x.handle != y.handle {
      assert x.handle in Handles(c) && y.handle in Handles(d);
    }
  }

  /** On a discovered tree no two characteristics share a value handle or a descriptor. */
  lemma {:induction false} TreeIsDistinct(db: Database)
    requires Ordered(Attributes(db))
    ensures Subscriptions.AllApart(Characteristics(TreeOf(db)))
  {
    TreeSpaced(db);
    var chars := Characteristics(TreeOf(db));
    forall i, j | 0 <= i < j < |chars| ensures Subscriptions.Apart(chars[i], chars[j]) {
      BelowIsApart(chars[i], chars[j]);
    }
  }

  lemma {:induction false} LastByHandleUnique(chars: seq<GattCharacteristic>, i: nat)
    requires Spaced(chars) && i < |chars|
    ensures LastByHandle(chars, chars[i].handle) == Some(chars[i])
  {
    var last := |chars| - 1;
    if i < last {
      assert Below(Handles(chars[i]), Handles(chars[last]));
      LastByHandleUnique(chars[..last], i);
    }
  }

  lemma {:induction false} HeadBelowTail(chars: seq<GattCharacteristic>)
    requires Spaced(chars) && chars != []
    ensures Below(Handles(chars[0]), AllHandles(chars[1..]))
    ensures AllHandles(chars) == Handles(chars[0]) + AllHandles(chars[1..])
  {
    forall h | h in AllHandles(chars[1..]) ensures Below(Handles(chars[0]), {h}) {
      var c :| c in chars[1..] && h in Handles(c);
      var k :| 0 <= k < |chars[1..]| && chars[1..][k] == c;
      assert Below(Handles(chars[0]), Handles(chars[k + 1]));
    }
    forall x, y | x in Handles(chars[0]) && y in AllHandles(chars[1..]) ensures x < y {
      assert Below(Handles(chars[0]), {y});
    }
    assert chars == [chars[0]] + chars[1..];
  }

  lemma {:induction false} DescriptorsJoin(xs: seq<GattDescriptor>, ys: seq<GattDescriptor>)
    requires IncreasingDescriptors(xs) && IncreasingDescriptors(ys)
    requires Below(DescriptorHandles(xs), DescriptorHandles(ys))
    ensures IncreasingDescriptors(xs + ys)
    ensures DescriptorHandles(xs + ys) == DescriptorHandles(xs) + DescriptorHandles(ys)
  {
    var all := xs + ys;
    forall i, j | 0 <= i < j < |all| ensures all[i].handle < all[j].handle {
      if i < |xs| <= j {
        assert all[i] in xs && all[j] in ys;
        assert all[i].handle in DescriptorHandles(xs) && all[j].handle in DescriptorHandles(ys);
      }
    }
  }

  lemma {:induction false} DescriptorsSpaced(chars: seq<GattCharacteristic>)
    requires Spaced(chars)
    ensures IncreasingDescriptors(Descriptors(chars))
    ensures DescriptorHandles(Descriptors(chars)) <= AllHandles(chars)
  {
    if chars != [] {
      var first, rest := chars[0].descriptors, Descriptors(chars[1..]);
      DescriptorsSpaced(chars[1..]);
      HeadBelowTail(chars);
      BelowSubsets(Handles(chars[0]), AllHandles(chars[1..]), DescriptorHandles(first), DescriptorHandles(rest));
      DescriptorsJoin(first, rest);
    }
  }

  lemma {:induction false} LastDescriptorUnique(ds: seq<GattDescriptor>, i: nat)
    requires IncreasingDescriptors(ds) && i < |ds|
    ensures LastDescriptor(ds, ds[i].handle) == Some(ds[i])
  {
    if i < |ds| - 1 {
      LastDescriptorUnique(ds[..|ds| - 1], i);
    }
  }

  /** On a discovered tree the handle lookups return the one characteristic, or descriptor, with that handle. */
  lemma {:induction false} LookupsAreUnique(db: Database, c: GattCharacteristic, d: GattDescriptor)
    requires Ordered(Attributes(db))
    ensures var chars := Characteristics(TreeOf(db));
            && (c in chars ==> LastByHandle(chars, c.handle) == Some(c))
            && (d in Descriptors(chars) ==> LastDescriptor(Descriptors(chars), d.handle) == Some(d))
  {
    var chars := Characteristics(TreeOf(db));
    TreeSpaced(db);
    DescriptorsSpaced(chars);
    if c in chars {
      var i :| 0 <= i < |chars| && chars[i] == c;
      LastByHandleUnique(chars, i);
    }
    if d in Descriptors(chars) {
      var i :| 0 <= i < |Descriptors(chars)| && Descriptors(chars)[i] == d;
      LastDescriptorUnique(Descriptors(chars), i);
    }
  }

  /**
   * So over any connections that begin with an empty ledger, and any calls on a discovered tree, the ledger is sound;
   * and it is exact while connected if no write fails and no enabled CCCD survives into a connection.
   */
  lemma {:induction false} LedgerOnDiscoveredTree(db: Database, calls: seq<Subscriptions.Call>, h: u16)
    requires WellFormed(db) && Subscriptions.CallsOn(Characteristics(TreeOf(db)), calls)
    requires Subscriptions.ConnectsClean(calls)
    ensures Subscriptions.LedgerSound(Characteristics(TreeOf(db)), Subscriptions.After(calls))
    ensures Subscriptions.HandlersOfLedger(calls)
    ensures Subscriptions.AllStartOff(calls) && Subscriptions.NoWriteErrors(calls) ==>
              var s := Subscriptions.After(calls);
              s.online ==> (Subscriptions.IsOn(s.server, h) <==> h in s.cccdHandles.Values)
  {
    var chars := Characteristics(TreeOf(db));
    TreeIsDistinct(db);
    Subscriptions.LedgerIsSound(chars, calls);
    if Subscriptions.AllStartOff(calls) && Subscriptions.NoWriteErrors(calls) {
      Subscriptions.LedgerIsExact(chars, calls, h);
    }
  }
}

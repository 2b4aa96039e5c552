/** Discovery against a conformant server yields exactly the tree of its database. */
module DiscoveryExact {
  import opened Bytes
  import opened Seqs
  import opened Gatt
  import opened Paging
  import opened AttLink
  import opened Discovery

  lemma {:induction false} TypesDiffer()
    ensures !SameUuid(PRIMARY_SERVICE, CHARACTERISTIC)
  {
    assert PRIMARY_SERVICE[1..] == [0x28] && CHARACTERISTIC[1..] == [0x28];
    assert FromLE(CHARACTERISTIC) == FromLE(PRIMARY_SERVICE) + 3;
  }

  // Which attributes match a request.

  lemma {:induction false} CharacteristicsTypes(cs: seq<CharacteristicDef>)
    requires forall c :: c in cs ==> WellFormedCharacteristic(c)
    ensures forall a :: a in CharacteristicsAttributes(cs) ==> IsWireUuid(a.typ) && !IsGroup(a)
  {
    if cs != [] {
      TypesDiffer();
      assert cs[0] in cs;
      CharacteristicsTypes(cs[1..]);
    }
  }

  lemma {:induction false} ServicesAreWellFormed(db: Database)
    requires WellFormedSections(db)
    ensures forall s :: s in Services(db) ==> WellFormedService(s)
  {
    if db != [] {
      ServicesAreWellFormed(db[1..]);
    }
  }

  lemma {:induction false} TypesAreWireUuids(db: Database)
    requires WellFormedSections(db)
    ensures forall a :: a in Attributes(db) ==> IsWireUuid(a.typ)
  {
    if db != [] {
      TypesAreWireUuids(db[1..]);
      match db[0]
      case Primary(s) => CharacteristicsTypes(s.characteristics);
      case Other(_) =>
    }
  }

  /** A service's declaration is the only group among its attributes. */
  lemma {:induction false} OneGroup(s: ServiceDef)
    requires WellFormedService(s)
    ensures forall a :: a in ServiceAttributes(s)[1..] ==> !IsGroup(a)
    ensures s.handle <= s.end
  {
    CharacteristicsTypes(s.characteristics);
    var rest := s.includes + CharacteristicsAttributes(s.characteristics);
    assert ServiceAttributes(s) == [ServiceDeclaration(s)] + rest;
    assert forall a :: a in rest ==> a in s.includes || a in CharacteristicsAttributes(s.characteristics);
    assert ServiceDeclaration(s) in ServiceAttributes(s);
  }

  lemma {:induction false} SectionMatches(section: Section)
    requires WellFormedSections([section]) && forall a :: a in SectionAttributes(section) ==> 1 <= a.handle
    ensures Matching(Groups, 1, 0xFFFF, SectionAttributes(section))
         == match section case Primary(s) => [ServiceDeclaration(s)] case Other(_) => []
  {
    var p, all := Matcher(Groups, 1, 0xFFFF), SectionAttributes(section);
    match section
    case Primary(s) =>
      OneGroup(s);
      FilterNone(p, all[1..]);
      assert all[0] in all;
    case Other(_) => FilterNone(p, all);
  }

  /** The primary service declarations of a database are the declarations of its services. */
  lemma {:induction false} PrimaryMatches(db: Database)
    requires WellFormedSections(db) && forall a :: a in Attributes(db) ==> 1 <= a.handle
    ensures Matching(Groups, 1, 0xFFFF, Attributes(db)) == Map(ServiceDeclaration, Services(db))
  {
    if db != [] {
      PrimaryMatches(db[1..]);
      FilterConcat(Matcher(Groups, 1, 0xFFFF), SectionAttributes(db[0]), Attributes(db[1..]));
      assert Attributes([db[0]][1..]) == [];
      SectionMatches(db[0]);
      var first := match db[0] case Primary(s) => [s] case Other(_) => [];
      MapConcat(ServiceDeclaration, first, Services(db[1..]));
    }
  }

  lemma {:induction false} DisjointAppend(xs: seq<Attribute>, ys: seq<Attribute>)
    requires DisjointGroups(Groups, xs) && DisjointGroups(Groups, ys)
    requires forall a, b :: a in xs && IsGroup(a) && b in ys ==> a.groupEnd < b.handle
    ensures DisjointGroups(Groups, xs + ys)
  {
    var all := xs + ys;
    assert forall i :: 0 <= i < |xs| ==> all[i] == xs[i] && xs[i] in xs;
    assert forall i :: |xs| <= i < |all| ==> all[i] == ys[i - |xs|] && all[i] in ys;
  }

  lemma {:induction false} SectionGroups(section: Section)
    requires WellFormedSections([section])
    ensures DisjointGroups(Groups, SectionAttributes(section))
    ensures forall a :: a in SectionAttributes(section) && IsGroup(a) ==>
              section.Primary? && a == ServiceDeclaration(section.service)
  {
    var all := SectionAttributes(section);
    match section
    case Primary(s) =>
      OneGroup(s);
      assert forall i :: 1 <= i < |all| ==> all[i] == all[1..][i - 1];
    case Other(_) => assert forall i :: 0 <= i < |all| ==> all[i] in all;
  }

  /** Service groups are disjoint, so the loop over them may resume behind a group's end. */
  lemma {:induction false} GroupsAreDisjoint(db: Database)
    requires WellFormedSections(db)
    ensures DisjointGroups(Groups, Attributes(db))
  {
    if db != [] {
      GroupsAreDisjoint(db[1..]);
      assert Attributes([db[0]][1..]) == [];
      SectionGroups(db[0]);
      DisjointAppend(SectionAttributes(db[0]), Attributes(db[1..]));
    }
  }

  /** The characteristic declarations among the attributes of some characteristics. */
  lemma {:induction false} DeclarationMatches(cs: seq<CharacteristicDef>, start: nat, end: nat)
    requires forall c :: c in cs ==> WellFormedCharacteristic(c)
    requires forall a :: a in CharacteristicsAttributes(cs) ==> start <= a.handle <= end
    ensures Matching(ByType, start, end, CharacteristicsAttributes(cs)) == Map(DeclarationOf, cs)
  {
    if cs != [] {
      var p, c := Matcher(ByType, start, end), cs[0];
      assert c in cs;
      DeclarationMatches(cs[1..], start, end);
      FilterConcat(p, CharacteristicAttributes(c), CharacteristicsAttributes(cs[1..]));
      OneDeclaration(c, start, end);
    }
  }

  lemma {:induction false} OneDeclaration(c: CharacteristicDef, start: nat, end: nat)
    requires WellFormedCharacteristic(c)
    requires forall a :: a in CharacteristicAttributes(c) ==> start <= a.handle <= end
    ensures Matching(ByType, start, end, CharacteristicAttributes(c)) == [DeclarationOf(c)]
  {
    var rest := [Attribute(c.valueHandle, c.uuid, c.value, 0)] + c.descriptors;
    assert CharacteristicAttributes(c) == [DeclarationOf(c)] + rest;
    assert DeclarationOf(c) in CharacteristicAttributes(c);
    FilterNone(Matcher(ByType, start, end), rest);
  }

  lemma {:induction false} OrderedParts(xs: seq<Attribute>, ys: seq<Attribute>)
    requires Ordered(xs + ys)
    ensures Ordered(xs) && Ordered(ys)
    ensures forall a, b :: a in xs && b in ys ==> a.handle < b.handle
  {
    var all := xs + ys;
    assert forall i :: 0 <= i < |xs| ==> all[i] == xs[i];
    assert forall j :: 0 <= j < |ys| ==> all[|xs| + j] == ys[j];
  }

  /** Exactly a characteristic's descriptors lie between its value handle and its end. */
  lemma {:induction false} DescriptorMatches(
      before: seq<Attribute>, c: CharacteristicDef, after: seq<Attribute>, end: nat)
    requires Ordered(before + CharacteristicAttributes(c) + after)
    requires forall a :: a in CharacteristicAttributes(c) ==> a.handle <= end
    requires forall a :: a in after ==> end < a.handle
    ensures Matching(Info, c.valueHandle + 1, end, before + CharacteristicAttributes(c) + after) == c.descriptors
    ensures c.descriptors != [] ==> c.valueHandle < end
  {
    var own := [DeclarationOf(c), Attribute(c.valueHandle, c.uuid, c.value, 0)];
    var p := Matcher(Info, c.valueHandle + 1, end);
    var all := before + CharacteristicAttributes(c) + after;
    assert all == (before + own) + c.descriptors + after;
    OrderedParts(before + own + c.descriptors, after);
    OrderedParts(before + own, c.descriptors);
    OrderedParts(before, own);
    assert own[1] in before + own && own[0].handle < own[1].handle;
    assert forall a :: a in c.descriptors ==> a in CharacteristicAttributes(c);
    FilterMiddle(p, before + own, c.descriptors, after);
    FilterAll(p, c.descriptors);
    if c.descriptors != [] {
      assert c.descriptors[0] in c.descriptors;
    }
  }

  lemma {:induction false} NamedDescriptors(ds: seq<Attribute>)
    ensures Map(NamedEntry, EntriesOf(Info, ds)) == Map(TreeOfDescriptor, ds)
  {
    if ds != [] {
      NamedDescriptors(ds[1..]);
    }
  }

  function FullCharacteristic(c: CharacteristicDef, end: int): GattCharacteristic {
    GattCharacteristic(c.decl, c.valueHandle, UuidString(c.uuid), c.properties, end,
                       Map(TreeOfDescriptor, c.descriptors))
  }

  /** The attributes the server holds, and that it answers as a conformant server over them. */
  ghost predicate Serves(policy: Policy, attributes: seq<Attribute>) {
    && Conformant(attributes, policy)
    && Ordered(attributes)
    && forall a :: a in attributes ==> IsWireUuid(a.typ)
  }

  lemma {:induction false} FoundDescriptors(
      policy: Policy, n: nat, attributes: seq<Attribute>, c: CharacteristicDef, end: u16)
    requires Serves(policy, attributes) && c.valueHandle < end
    requires Matching(Info, c.valueHandle + 1, end, attributes) == c.descriptors
    ensures Named(Pages(Info, policy, n, c.valueHandle as nat + 1, end, [])).result
         == Ok(Map(TreeOfDescriptor, c.descriptors))
  {
    PagesAreExact(Info, policy, n, c.valueHandle as nat + 1, end, attributes);
    NamedDescriptors(c.descriptors);
  }

  lemma {:induction false} DescribesWith(
      policy: Policy, n: nat, c: GattCharacteristic, end: u16, ds: seq<GattDescriptor>)
    requires c.descriptors == [] && (c.valueHandle >= end ==> ds == [])
    requires c.valueHandle < end ==>
               Named(Pages(Info, policy, n, c.valueHandle as nat + 1, end, [])).result == Ok(ds)
    ensures DescribeOne(policy, n, c, end).result == Ok(c.(endHandle := end, descriptors := ds))
  {
  }

  lemma {:induction false} DescribeOneExact(policy: Policy, n: nat, attributes: seq<Attribute>,
                         before: seq<Attribute>, c: CharacteristicDef, after: seq<Attribute>, end: u16)
    requires Serves(policy, attributes) && attributes == before + CharacteristicAttributes(c) + after
    requires forall a :: a in CharacteristicAttributes(c) ==> a.handle <= end
    requires forall a :: a in after ==> end < a.handle
    ensures DescribeOne(policy, n, BareCharacteristic(c), end).result == Ok(FullCharacteristic(c, end))
  {
    DescriptorMatches(before, c, after, end);
    if end > c.valueHandle {
      FoundDescriptors(policy, n, attributes, c, end);
    }
    DescribesWith(policy, n, BareCharacteristic(c), end, Map(TreeOfDescriptor, c.descriptors));
  }

  lemma {:induction false} FirstThenRest(
      before: seq<Attribute>, first: seq<Attribute>, rest: seq<Attribute>, after: seq<Attribute>)
    requires Ordered(before + (first + rest) + after)
    ensures Ordered(rest) && forall a, b :: a in first && b in rest ==> a.handle < b.handle
  {
    OrderedParts(before + (first + rest), after);
    OrderedParts(before, first + rest);
    OrderedParts(first, rest);
  }

  lemma {:induction false} NextComesFirst(cs: seq<CharacteristicDef>)
    requires cs != [] && Ordered(CharacteristicsAttributes(cs))
    ensures DeclarationOf(cs[0]) in CharacteristicsAttributes(cs)
    ensures forall a :: a in CharacteristicsAttributes(cs) ==> cs[0].decl <= a.handle
  {
    assert CharacteristicsAttributes(cs)[0] == DeclarationOf(cs[0]);
  }

  lemma {:induction false} EndsBeforeNext(
      before: seq<Attribute>, cs: seq<CharacteristicDef>, after: seq<Attribute>, serviceEnd: u16)
    requires cs != []
    requires Ordered(before + CharacteristicsAttributes(cs) + after)
    requires forall a :: a in CharacteristicsAttributes(cs) ==> a.handle <= serviceEnd
    requires forall a :: a in after ==> serviceEnd < a.handle
    ensures var end := EndHandle(cs, 0, serviceEnd);
            && 0 <= end < 0x1_0000
            && (forall a :: a in CharacteristicAttributes(cs[0]) ==> a.handle <= end)
            && (forall a :: a in CharacteristicsAttributes(cs[1..]) + after ==> end < a.handle)
  {
    var first, rest := CharacteristicAttributes(cs[0]), CharacteristicsAttributes(cs[1..]);
    assert CharacteristicsAttributes(cs) == first + rest;
    FirstThenRest(before, first, rest, after);
    assert DeclarationOf(cs[0]) in first;
    if |cs| > 1 {
      NextComesFirst(cs[1..]);
      assert DeclarationOf(cs[1]) in first + rest;
    }
  }

  lemma {:induction false} DescribeExact(policy: Policy, n: nat, attributes: seq<Attribute>,
                                         before: seq<Attribute>, cs: seq<CharacteristicDef>, after: seq<Attribute>,
                                         serviceEnd: u16)
    requires Serves(policy, attributes) && attributes == before + CharacteristicsAttributes(cs) + after
    requires forall a :: a in CharacteristicsAttributes(cs) ==> a.handle <= serviceEnd
    requires forall a :: a in after ==> serviceEnd < a.handle
    ensures Describe(policy, n, Map(BareCharacteristic, cs), serviceEnd).result
         == Ok(TreeOfCharacteristics(cs, serviceEnd))
    decreases |cs|
  {
    if cs != [] {
      var c, end := cs[0], EndHandle(cs, 0, serviceEnd);
      var rest := CharacteristicsAttributes(cs[1..]);
      var chars := Map(BareCharacteristic, cs);
      EndsBeforeNext(before, cs, after, serviceEnd);
      if |cs| > 1 {
        MapAt(BareCharacteristic, cs, 1);
      }
      assert RangeEnd(chars, 0, serviceEnd) == end;
      assert attributes == before + CharacteristicAttributes(c) + (rest + after);
      DescribeOneExact(policy, n, attributes, before, c, rest + after, end);
      var first := DescribeOne(policy, n, BareCharacteristic(c), end);
      assert attributes == (before + CharacteristicAttributes(c)) + rest + after;
      DescribeExact(policy, first.next, attributes, before + CharacteristicAttributes(c), cs[1..], after, serviceEnd);
    }
  }

  lemma {:induction false} CharacteristicMatches(before: seq<Attribute>, s: ServiceDef, after: seq<Attribute>)
    requires WellFormedService(s) && Ordered(before + ServiceAttributes(s) + after)
    requires forall a :: a in after ==> s.end < a.handle
    ensures Matching(ByType, s.handle, s.end, before + ServiceAttributes(s) + after)
         == Map(DeclarationOf, s.characteristics)
  {
    var p, chars := Matcher(ByType, s.handle, s.end), CharacteristicsAttributes(s.characteristics);
    var head := [ServiceDeclaration(s)] + s.includes;
    assert before + ServiceAttributes(s) + after == (before + head) + chars + after;
    HeadDoesNotMatch(before, s, after);
    FilterMiddle(p, before + head, chars, after);
    DeclarationMatches(s.characteristics, s.handle, s.end);
  }

  /** The declaration of a service comes first, behind everything before it. */
  lemma {:induction false} DeclarationIsFirst(before: seq<Attribute>, s: ServiceDef, after: seq<Attribute>)
    requires Ordered(before + ServiceAttributes(s) + after)
    ensures forall a :: a in before ==> a.handle < s.handle
    ensures forall a :: a in s.includes + CharacteristicsAttributes(s.characteristics) ==> s.handle < a.handle
  {
    var own, rest := [ServiceDeclaration(s)], s.includes + CharacteristicsAttributes(s.characteristics);
    OrderedParts(before + ServiceAttributes(s), after);
    OrderedParts(before, ServiceAttributes(s));
    assert ServiceAttributes(s) == own + rest;
    OrderedParts(own, rest);
    assert ServiceDeclaration(s) in own && ServiceDeclaration(s) in own + rest;
  }

  lemma {:induction false} HeadDoesNotMatch(before: seq<Attribute>, s: ServiceDef, after: seq<Attribute>)
    requires WellFormedService(s) && Ordered(before + ServiceAttributes(s) + after)
    ensures forall a :: a in before + ([ServiceDeclaration(s)] + s.includes) ==> !Matches(ByType, s.handle, s.end, a)
    ensures forall a :: a in CharacteristicsAttributes(s.characteristics) ==> s.handle <= a.handle <= s.end
  {
    DeclarationIsFirst(before, s, after);
    TypesDiffer();
    forall a | a in CharacteristicsAttributes(s.characteristics)
      ensures a in ServiceAttributes(s) && a in s.includes + CharacteristicsAttributes(s.characteristics)
    {
    }
  }

  lemma {:induction false} FoundCharacteristics(policy: Policy, n: nat, attributes: seq<Attribute>,
                                                before: seq<Attribute>, s: ServiceDef, after: seq<Attribute>)
    requires Serves(policy, attributes) && attributes == before + ServiceAttributes(s) + after
    requires WellFormedService(s) && forall a :: a in after ==> s.end < a.handle
    ensures Pages(ByType, policy, n, s.handle, s.end, CHARACTERISTIC).result
         == Ok(EntriesOf(ByType, Map(DeclarationOf, s.characteristics)))
  {
    assert ServiceDeclaration(s) in attributes;
    PagesAreExact(ByType, policy, n, s.handle, s.end, attributes);
    CharacteristicMatches(before, s, after);
  }

  lemma {:induction false} DescribedIn(policy: Policy, n: nat, attributes: seq<Attribute>,
                                       before: seq<Attribute>, s: ServiceDef, after: seq<Attribute>)
    requires Serves(policy, attributes) && attributes == before + ServiceAttributes(s) + after
    requires WellFormedService(s) && forall a :: a in after ==> s.end < a.handle
    ensures Describe(policy, n, Map(BareCharacteristic, s.characteristics), s.end).result
         == Ok(TreeOfCharacteristics(s.characteristics, s.end))
  {
    var chars := CharacteristicsAttributes(s.characteristics);
    var head := before + ([ServiceDeclaration(s)] + s.includes);
    assert attributes == head + chars + after;
    forall a | a in chars ensures a.handle <= s.end {
      assert a in ServiceAttributes(s);
    }
    DescribeExact(policy, n, attributes, head, s.characteristics, after, s.end);
  }

  lemma {:induction false} PopulateExact(policy: Policy, n: nat, attributes: seq<Attribute>,
                      before: seq<Attribute>, s: ServiceDef, after: seq<Attribute>)
    requires Serves(policy, attributes) && attributes == before + ServiceAttributes(s) + after
    requires WellFormedService(s) && forall a :: a in after ==> s.end < a.handle
    ensures Populate(policy, n, BareService(s)).result == Ok(TreeOfService(s))
  {
    FoundCharacteristics(policy, n, attributes, before, s, after);
    CollectCharacteristics(s.characteristics);
    var pages := Pages(ByType, policy, n, s.handle, s.end, CHARACTERISTIC);
    DescribedIn(policy, pages.next, attributes, before, s, after);
  }

  lemma {:induction false} PopulateAllExact(policy: Policy, n: nat, attributes: seq<Attribute>,
                                            before: seq<Attribute>, db: Database)
    requires Serves(policy, attributes) && attributes == before + Attributes(db) && WellFormedSections(db)
    ensures PopulateAll(policy, n, Map(BareService, Services(db))).result == Ok(TreeOf(db))
    decreases |db|
  {
    if db != [] {
      var section, rest := SectionAttributes(db[0]), Attributes(db[1..]);
      assert attributes == (before + section) + rest;
      match db[0]
      case Other(_) =>
        assert Services(db) == Services(db[1..]);
        PopulateAllExact(policy, n, attributes, before + section, db[1..]);
      case Primary(s) =>
        assert attributes == before + ServiceAttributes(s) + rest;
        PopulateExact(policy, n, attributes, before, s, rest);
        var first := Populate(policy, n, BareService(s));
        assert Services(db) == [s] + Services(db[1..]);
        PopulateAllExact(policy, first.next, attributes, before + section, db[1..]);
    }
  }

  /**
   * For every well-formed database and every conformant server over it, whatever page sizes it chooses,
   * discover() returns precisely the tree of the database: every primary service, every characteristic and
   * every descriptor under its own characteristic, in handle order, nothing missing and nothing repeated.
   */
  lemma {:induction false} DiscoverIsExact(policy: Policy, n: nat, db: Database)
    requires WellFormed(db) && Conformant(Attributes(db), policy)
    ensures Discover(policy, n).result == Ok(TreeOf(db))
  {
    TypesAreWireUuids(db);
    ServicesAreWellFormed(db);
    GroupsAreDisjoint(db);
    assert forall a :: a in Attributes(db) ==> 1 <= a.handle;
    PrimaryMatches(db);
    PagesAreExact(Groups, policy, n, 1, 0xFFFF, Attributes(db));
    CollectServices(Services(db));
    var pages := Pages(Groups, policy, n, 1, 0xFFFF, PRIMARY_SERVICE);
    PopulateAllExact(policy, pages.next, Attributes(db), [], db);
  }
}

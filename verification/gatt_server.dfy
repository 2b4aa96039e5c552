/** A conformant server exists for every database, for every choice of page sizes. */
module GattServer {
  import opened Bytes
  import opened Seqs
  import opened Att
  import opened Gatt
  import opened Paging
  import Discovery
  import opened DiscoveryExact

  function KindOf(opcode: byte): Option<Kind> {
    if opcode == READ_BY_GROUP_TYPE_REQ then Some(Groups)
    else if opcode == READ_BY_TYPE_REQ then Some(ByType)
    else if opcode == FIND_INFO_REQ then Some(Info)
    else None
  }

  /** How many leading attributes, at most limit, have entries of this length. */
  function UniformPrefix(kind: Kind, attributes: seq<Attribute>, length: nat, limit: nat): (k: nat)
    ensures k <= |attributes| && k <= limit && Uniform(kind, attributes[..k], length)
    ensures limit > 0 && attributes != [] && |Encode(kind, attributes[0])| == length ==> k > 0
  {
    if limit == 0 || attributes == [] || |Encode(kind, attributes[0])| != length then 0
    else
      var k := UniformPrefix(kind, attributes[1..], length, limit - 1);
      assert attributes[..k + 1] == [attributes[0]] + attributes[1..][..k];
      k + 1
  }

  function Answer(kind: Kind, matching: seq<Attribute>, start: u16, limit: nat): Outcome {
    if matching == [] then Data(ErrorPdu(kind.RequestOpcode(), start, ATT_ERR_ATTRIBUTE_NOT_FOUND))
    else
      var length := |Encode(kind, matching[0])|;
      if length >= 0x100 then Exn(TimedOut)
      else
        var k := UniformPrefix(kind, matching, length, limit + 1);
        Data([kind.ResponseOpcode(), Header(kind, length)] + EncodeAll(kind, matching[..k]))
  }

  /** A server that reads the request off the wire and answers its n-th one with up to limit(n) + 1 entries. */
  function ServerOf(attributes: seq<Attribute>, limit: nat -> nat): Policy {
    (n: nat, request: bytes) =>
      if |request| < 5 || KindOf(request[0]).None? then Exn(TimedOut)
      else
        var kind := KindOf(request[0]).value;
        var start, end := Field16(request, 1), Field16(request, 3);
        Answer(kind, Matching(kind, start, end, attributes), start, limit(n))
  }

  lemma {:induction false} RequestDecodes(kind: Kind, start: u16, end: u16, typ: bytes)
    ensures var r := Request(kind, start, end, typ);
            |r| >= 5 && KindOf(r[0]) == Some(kind) && Field16(r, 1) == start && Field16(r, 3) == end
  {
    var r := Request(kind, start, end, typ);
    assert r[1..3] == LE16(start) && r[3..5] == LE16(end);
    Field16Decodes(r, 1, start);
    Field16Decodes(r, 3, end);
  }

  /** Declarations are short, so their entries always fit a response. */
  predicate HasShortEntry(a: Attribute) {
    IsWireUuid(a.typ) && (IsGroup(a) || SameUuid(a.typ, CHARACTERISTIC) ==> |a.value| <= 19)
  }

  ghost predicate ShortEntries(attributes: seq<Attribute>) {
    forall a :: a in attributes ==> HasShortEntry(a)
  }

  lemma {:induction false} AnswerConforms(attributes: seq<Attribute>, kind: Kind, start: u16, end: u16, limit: nat)
    requires ShortEntries(attributes)
    ensures ConformantAnswer(attributes, kind, start, end,
                             Answer(kind, Matching(kind, start, end, attributes), start, limit))
  {
    var m := Matching(kind, start, end, attributes);
    if m != [] {
      FilterMembers(Matcher(kind, start, end), attributes);
      assert m[0] in m && HasShortEntry(m[0]);
      var k := UniformPrefix(kind, m, |Encode(kind, m[0])|, limit + 1);
      assert IsPage(kind, m, k, Answer(kind, m, start, limit).pdu);
    }
  }

  lemma {:induction false} ServerConforms(attributes: seq<Attribute>, limit: nat -> nat)
    requires ShortEntries(attributes)
    ensures Conformant(attributes, ServerOf(attributes, limit))
  {
    var policy := ServerOf(attributes, limit);
    forall n: nat, kind: Kind, start: u16, end: u16 | 1 <= start <= end
      ensures ConformantAnswer(attributes, kind, start, end, policy(n, Request(kind, start, end, kind.RequestType())))
    {
      RequestDecodes(kind, start, end, kind.RequestType());
      AnswerConforms(attributes, kind, start, end, limit(n));
    }
  }

  lemma {:induction false} CharacteristicsAreShort(cs: seq<CharacteristicDef>)
    requires forall c :: c in cs ==> WellFormedCharacteristic(c)
    ensures ShortEntries(CharacteristicsAttributes(cs))
  {
    if cs != [] {
      TypesDiffer();
      assert cs[0] in cs;
      CharacteristicsAreShort(cs[1..]);
    }
  }

  lemma {:induction false} DatabaseIsShort(db: Database)
    requires WellFormedSections(db)
    ensures ShortEntries(Attributes(db))
  {
    if db != [] {
      DatabaseIsShort(db[1..]);
      match db[0]
      case Primary(s) => CharacteristicsAreShort(s.characteristics);
      case Other(_) =>
    }
  }

  /** Serving any well-formed database, with any page sizes, and discovering it again is the identity on its tree. */
  lemma {:induction false} DiscoverOfServe(db: Database, limit: nat -> nat, n: nat)
    requires WellFormed(db)
    ensures Discovery.Discover(ServerOf(Attributes(db), limit), n).result == Ok(TreeOf(db))
  {
    DatabaseIsShort(db);
    ServerConforms(Attributes(db), limit);
    DiscoverIsExact(ServerOf(Attributes(db), limit), n, db);
  }
}

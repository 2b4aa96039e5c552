/**
 * GATT: the tree a client discovers, the attribute database a server holds, and what a
 * conformant server may answer to the three discovery requests
 * (Core Specification Vol 3 Part F sections 3.4.3.1-2, 3.4.4.1-2 and 3.4.4.9-10, Part G section 3).
 */
module Gatt {
  import opened Bytes
  import opened Seqs
  import opened Att
  import opened Uuids

  datatype GattDescriptor = GattDescriptor(handle: u16, uuid: string)

  datatype GattCharacteristic = GattCharacteristic(
    handle: u16, valueHandle: u16, uuid: string, properties: byte, endHandle: int, descriptors: seq<GattDescriptor>)

  datatype GattService = GattService(
    handle: u16, endHandle: u16, uuid: string, characteristics: seq<GattCharacteristic>)

  const PRIMARY_SERVICE: bytes := [0x00, 0x28]
  const CHARACTERISTIC: bytes := [0x03, 0x28]

  /** One attribute; groupEnd is the end group handle of a service declaration. */
  datatype Attribute = Attribute(handle: u16, typ: bytes, value: bytes, groupEnd: u16)

  // The structure the attributes of a server are laid out in.

  datatype CharacteristicDef = CharacteristicDef(
    decl: u16, properties: byte, valueHandle: u16, uuid: bytes, value: bytes, descriptors: seq<Attribute>)

  /** A primary service: its declaration, include and other attributes, then its characteristics. */
  datatype ServiceDef = ServiceDef(
    handle: u16, end: u16, uuid: bytes, includes: seq<Attribute>, characteristics: seq<CharacteristicDef>)

  /** A primary service, or attributes outside every primary service (a secondary service, say). */
  datatype Section = Primary(service: ServiceDef) | Other(attributes: seq<Attribute>)

  type Database = seq<Section>

  function DeclarationOf(c: CharacteristicDef): Attribute {
    Attribute(c.decl, CHARACTERISTIC, [c.properties] + LE16(c.valueHandle) + c.uuid, 0)
  }

  function CharacteristicAttributes(c: CharacteristicDef): seq<Attribute> {
    [DeclarationOf(c), Attribute(c.valueHandle, c.uuid, c.value, 0)] + c.descriptors
  }

  function CharacteristicsAttributes(cs: seq<CharacteristicDef>): seq<Attribute> {
    if cs == [] then [] else CharacteristicAttributes(cs[0]) + CharacteristicsAttributes(cs[1..])
  }

  function ServiceDeclaration(s: ServiceDef): Attribute {
    Attribute(s.handle, PRIMARY_SERVICE, s.uuid, s.end)
  }

  function ServiceAttributes(s: ServiceDef): seq<Attribute> {
    [ServiceDeclaration(s)] + s.includes + CharacteristicsAttributes(s.characteristics)
  }

  function SectionAttributes(section: Section): seq<Attribute> {
    match section
    case Primary(s) => ServiceAttributes(s)
    case Other(attributes) => attributes
  }

  function Attributes(db: Database): seq<Attribute> {
    if db == [] then [] else SectionAttributes(db[0]) + Attributes(db[1..])
  }

  /** Handles start at 1 and strictly increase. */
  ghost predicate Ordered(attributes: seq<Attribute>) {
    && (forall i, j :: 0 <= i < j < |attributes| ==> attributes[i].handle < attributes[j].handle)
    && (forall i :: 0 <= i < |attributes| ==> 1 <= attributes[i].handle)
  }

  predicate IsWireUuid(uuid: bytes) {
    |uuid| in {2, 16}
  }

  predicate SameUuid(a: bytes, b: bytes) {
    WireValue(a) == WireValue(b)
  }

  /** An attribute type that is neither a primary service nor a characteristic declaration. */
  predicate IsPlainType(typ: bytes) {
    IsWireUuid(typ) && !SameUuid(typ, PRIMARY_SERVICE) && !SameUuid(typ, CHARACTERISTIC)
  }

  ghost predicate WellFormedCharacteristic(c: CharacteristicDef) {
    IsPlainType(c.uuid) && (forall d :: d in c.descriptors ==> IsPlainType(d.typ))
  }

  ghost predicate WellFormedService(s: ServiceDef) {
    && IsWireUuid(s.uuid)
    && (forall a :: a in s.includes ==> IsPlainType(a.typ))
    && (forall c :: c in s.characteristics ==> WellFormedCharacteristic(c))
    && (forall a :: a in ServiceAttributes(s) ==> a.handle <= s.end)
  }

  ghost predicate WellFormedSections(db: Database) {
    db != [] ==>
      && WellFormedSections(db[1..])
      && match db[0]
         case Primary(s) => WellFormedService(s) && (forall a :: a in Attributes(db[1..]) ==> s.end < a.handle)
         case Other(attributes) =>
           forall a :: a in attributes ==>
             && IsWireUuid(a.typ) && !SameUuid(a.typ, PRIMARY_SERVICE)
             && (SameUuid(a.typ, CHARACTERISTIC) ==> |a.value| <= 19)
  }

  ghost predicate WellFormed(db: Database) {
    Ordered(Attributes(db)) && WellFormedSections(db)
  }

  // The tree of a database.

  function UuidString(wire: bytes): string {
    Canonical(WireValue(wire))
  }

  function EndHandle(cs: seq<CharacteristicDef>, i: nat, serviceEnd: u16): int
    requires i < |cs|
  {
    if i + 1 < |cs| then cs[i + 1].decl - 1 else serviceEnd
  }

  function TreeOfDescriptor(d: Attribute): GattDescriptor {
    GattDescriptor(d.handle, UuidString(d.typ))
  }

  function TreeOfCharacteristics(cs: seq<CharacteristicDef>, serviceEnd: u16): seq<GattCharacteristic> {
    if cs == [] then []
    else
      var c := cs[0];
      [GattCharacteristic(c.decl, c.valueHandle, UuidString(c.uuid), c.properties, EndHandle(cs, 0, serviceEnd),
                          Map(TreeOfDescriptor, c.descriptors))]
      + TreeOfCharacteristics(cs[1..], serviceEnd)
  }

  function TreeOfService(s: ServiceDef): GattService {
    GattService(s.handle, s.end, UuidString(s.uuid), TreeOfCharacteristics(s.characteristics, s.end))
  }

  /** Every primary service of the database, in handle order. */
  function Services(db: Database): seq<ServiceDef> {
    if db == [] then []
    else (match db[0] case Primary(s) => [s] case Other(_) => []) + Services(db[1..])
  }

  function TreeOf(db: Database): seq<GattService> {
    Map(TreeOfService, Services(db))
  }

  // Requests and conformant answers.

  /** The three discovery requests: Read By Group Type, Read By Type and Find Information. */
  datatype Kind = Groups | ByType | Info
  {
    function RequestOpcode(): byte {
      match this
      case Groups => READ_BY_GROUP_TYPE_REQ
      case ByType => READ_BY_TYPE_REQ
      case Info => FIND_INFO_REQ
    }

    function ResponseOpcode(): byte {
      RequestOpcode() + 1
    }

    /** The attribute type discovery asks for; Find Information carries none. */
    function RequestType(): bytes {
      match this
      case Groups => PRIMARY_SERVICE
      case ByType => CHARACTERISTIC
      case Info => []
    }
  }

  function Request(kind: Kind, start: u16, end: u16, typ: bytes): bytes {
    [kind.RequestOpcode()] + LE16(start) + LE16(end) + typ
  }

  predicate Matches(kind: Kind, start: nat, end: nat, a: Attribute) {
    start <= a.handle <= end && (kind.Info? || SameUuid(a.typ, kind.RequestType()))
  }

  function Matcher(kind: Kind, start: nat, end: nat): Attribute -> bool {
    a => Matches(kind, start, end, a)
  }

  function Matching(kind: Kind, start: nat, end: nat, attributes: seq<Attribute>): seq<Attribute> {
    Filter(Matcher(kind, start, end), attributes)
  }

  /** One entry of a response. */
  function Encode(kind: Kind, a: Attribute): bytes {
    match kind
    case Groups => LE16(a.handle) + LE16(a.groupEnd) + a.value
    case ByType => LE16(a.handle) + a.value
    case Info => LE16(a.handle) + a.typ
  }

  /** The second byte of a response: the entry length, or the UUID format for Find Information. */
  function Header(kind: Kind, entryLength: nat): byte
    requires entryLength < 0x100
  {
    if kind.Info? then (if entryLength == 4 then 1 else 2) else entryLength
  }

  function EncodeAll(kind: Kind, page: seq<Attribute>): bytes {
    if page == [] then [] else Encode(kind, page[0]) + EncodeAll(kind, page[1..])
  }

  ghost predicate Uniform(kind: Kind, page: seq<Attribute>, length: nat) {
    forall a :: a in page ==> |Encode(kind, a)| == length
  }

  /** A response with any non-empty prefix of the matching attributes whose entries have one length. */
  ghost predicate IsPage(kind: Kind, matching: seq<Attribute>, k: nat, pdu: bytes) {
    && 1 <= k <= |matching|
    && |Encode(kind, matching[0])| < 0x100
    && Uniform(kind, matching[..k], |Encode(kind, matching[0])|)
    && pdu == [kind.ResponseOpcode(), Header(kind, |Encode(kind, matching[0])|)] + EncodeAll(kind, matching[..k])
  }

  ghost predicate ConformantAnswer(attributes: seq<Attribute>, kind: Kind, start: u16, end: u16, answer: Outcome) {
    var matching := Matching(kind, start, end, attributes);
    answer.Data? &&
    if matching == []
    then exists h: u16 :: answer.pdu == ErrorPdu(kind.RequestOpcode(), h, ATT_ERR_ATTRIBUTE_NOT_FOUND)
    else exists k: nat :: IsPage(kind, matching, k, answer.pdu)
  }

  /** How the n-th transaction on a link ends, given its request: any peer, adaptive or not. */
  type Policy = (nat, bytes) -> Outcome

  ghost predicate Conformant(attributes: seq<Attribute>, policy: Policy) {
    forall n: nat, kind: Kind, start: u16, end: u16
      {:trigger ConformantAnswer(attributes, kind, start, end,
                                 policy(n, Request(kind, start, end, kind.RequestType())))}
      :: 1 <= start <= end ==>
        ConformantAnswer(attributes, kind, start, end, policy(n, Request(kind, start, end, kind.RequestType())))
  }
}

/** UUID strings and their wire form. */
module Uuids {
  import opened Bytes
  import opened Att
  import opened Hex
  import opened PythonInt

  /** The Bluetooth Base UUID without its first eight digits. */
  const BASE_SUFFIX: string := "-" + "0000" + "-" + "1000" + "-" + "8000" + "-" + "00805f9b34fb"
  const BASE_TAIL: string := "0000" + "1000" + "8000" + "00805f9b34fb"
  const SLOT: nat := 0x1_0000_0000_0000_0000_0000_0000   // 1 << 96
  const SPACE: nat := 0x1_0000_0000_0000_0000_0000_0000_0000_0000   // 1 << 128

  const UUID_DIGITS: nat := 32

  /** BASE_UUID.int. */
  const BASE: nat := FromHex(BASE_TAIL)

  /** What str.strip() removes from ASCII strings. */
  const WHITESPACE: string := " \t\n\r\U{000B}\U{000C}\U{001C}\U{001D}\U{001E}\U{001F}"

  /** The 8-4-4-4-12 grouping. */
  function Dashed(h: string): (s: string)
    requires |h| == 32
    ensures |s| == 36
  {
    h[..8] + "-" + h[8..12] + "-" + h[12..16] + "-" + h[16..20] + "-" + h[20..]
  }

  /** str(uuid.UUID(int=v)). */
  function Canonical(v: nat): (s: string)
    ensures |s| == 36
  {
    Dashed(ToHex(v, UUID_DIGITS))
  }

  /** uuid.UUID(s).int: 32 characters behind the usual decorations, read by int(h, 16), in 128 bits. */
  function ParseUuid(s: string): Result<nat, Failure> {
    var h := RemoveAll(Strip(RemoveAll(RemoveAll(s, "urn:"), "uuid:"), "{}"), "-");
    if |h| != 32 then Err(ValueError)
    else
      match IntBase16(h)
      case Ok(v) => if 0 <= v < SPACE then Ok(v) else Err(ValueError)
      case Err(f) => Err(f)
  }

  /** normalize_uuid_str before the final parse. */
  function Expand(uuid: string): string {
    var s := RemoveAll(Lower(Strip(uuid, WHITESPACE)), "0x");
    if |s| == 4 then "0000" + s + BASE_SUFFIX
    else if |s| == 8 then s + BASE_SUFFIX
    else s
  }

  function NormalizeUuidStr(uuid: string): Result<string, Failure> {
    match ParseUuid(Expand(uuid))
    case Ok(v) => Ok(Canonical(v))
    case Err(f) => Err(f)
  }

  function UuidFromBytes(data: bytes): Result<string, Failure> {
    if |data| == 2 then NormalizeUuidStr(ToHex(FromLE(data), 4))
    else if |data| == 4 then NormalizeUuidStr(ToHex(FromLE(data), 8))
    else if |data| == 16 then Ok(Canonical(FromLE(data)))
    else Err(ValueError)
  }

  /** Only the 16-bit slot differs from the Base UUID. */
  predicate IsShort(v: nat) {
    v - v / SLOT % 0x1_0000 * SLOT == BASE
  }

  /** Little-endian: two bytes if the value has a 16-bit form, sixteen otherwise. */
  function WireForm(v: nat): bytes {
    if IsShort(v) then LE16(v / SLOT % 0x1_0000) else ToLE(v, 16)
  }

  function UuidToBytes(uuid: string): Result<bytes, Failure> {
    match NormalizeUuidStr(uuid)
    case Err(f) => Err(f)
    case Ok(canonical) =>
      match ParseUuid(canonical)
      case Err(f) => Err(f)
      case Ok(v) => Ok(WireForm(v))
  }

  predicate IsDigits(h: string) {
    |h| == 32 && AllLowerHex(h)
  }

  lemma {:induction false} PowersOf16()
    ensures Pow16(4) == 0x1_0000 && Pow16(8) == 0x1_0000_0000 && Pow16(24) == SLOT && Pow16(32) == SPACE
  {
    assert Pow16(2) == 0x100;
    Pow16Adds(2, 2);
    Pow16Adds(4, 4);
    Pow16Adds(8, 8);
    Pow16Adds(16, 8);
    Pow16Adds(16, 16);
  }

  lemma {:induction false} Pow256IsPow16(n: nat)
    ensures Pow256(n) == Pow16(2 * n)
  {
    if n > 0 {
      Pow256IsPow16(n - 1);
      assert Pow16(2 * n) == 16 * (16 * Pow16(2 * n - 2));
    }
  }

  lemma {:induction false} HasNoDash(h: string)
    requires AllLowerHex(h)
    ensures RemoveAll(h, "-") == h
  {
    RemoveAbsent(h, "-", 0);
  }

  lemma {:induction false} UndashStep(a: string, b: string)
    requires AllLowerHex(a)
    ensures RemoveAll(a + "-" + b, "-") == a + RemoveAll(b, "-")
  {
    assert a + "-" + b == a + ("-" + b);
    RemoveCharConcat(a, "-" + b, '-');
    HasNoDash(a);
    assert ("-" + b)[..1] == "-" && ("-" + b)[1..] == b;
  }

  lemma {:induction false} Undash(h: string)
    requires IsDigits(h)
    ensures RemoveAll(Dashed(h), "-") == h
  {
    var t4 := h[20..];
    var t3 := h[16..20] + "-" + t4;
    var t2 := h[12..16] + "-" + t3;
    var t1 := h[8..12] + "-" + t2;
    assert Dashed(h) == h[..8] + "-" + t1;
    UndashStep(h[..8], t1);
    UndashStep(h[8..12], t2);
    UndashStep(h[12..16], t3);
    UndashStep(h[16..20], t4);
    HasNoDash(t4);
    Regrouped(h);
  }

  lemma {:induction false} Regrouped(h: string)
    requires |h| == 32
    ensures h == h[..8] + (h[8..12] + (h[12..16] + (h[16..20] + h[20..])))
  {
    assert h[16..20] + h[20..] == h[16..];
    assert h[12..16] + h[16..] == h[12..];
    assert h[8..12] + h[12..] == h[8..];
  }

  lemma {:induction false} DashedChars(h: string)
    requires IsDigits(h)
    ensures forall i :: 0 <= i < 36 ==> IsLowerHexDigit(Dashed(h)[i]) || Dashed(h)[i] == '-'
    ensures Dashed(h)[0] == h[0] && Dashed(h)[35] == h[31]
  {
  }

  lemma {:induction false} DashedExpands(h: string)
    requires IsDigits(h)
    ensures Expand(Dashed(h)) == Dashed(h)
  {
    var d := Dashed(h);
    DashedChars(h);
    assert Strip(d, WHITESPACE) == d;
    LowerFixes(d);
    RemoveAbsent(d, "0x", 1);
  }

  /** Nothing but the dashes is removed from a dashed numeral, and its digits are what is parsed. */
  lemma {:induction false} ParseDashed(h: string)
    requires IsDigits(h)
    ensures Expand(Dashed(h)) == Dashed(h)
    ensures ParseUuid(Dashed(h)) == Ok(FromHex(h))
  {
    DashedExpands(h);
    DashedIsBare(h);
    DigitsFit(h);
  }

  lemma {:induction false} DashedIsBare(h: string)
    requires IsDigits(h)
    ensures RemoveAll(Strip(RemoveAll(RemoveAll(Dashed(h), "urn:"), "uuid:"), "{}"), "-") == h
  {
    var d := Dashed(h);
    DashedChars(h);
    RemoveAbsent(d, "urn:", 0);
    RemoveAbsent(d, "uuid:", 0);
    assert Strip(d, "{}") == d;
    Undash(h);
  }

  lemma {:induction false} DigitsFit(h: string)
    requires IsDigits(h)
    ensures IntBase16(h) == Ok(FromHex(h)) && FromHex(h) < SPACE
  {
    IntOfHex(h);
    FromHexBound(h);
    PowersOf16();
  }

  /** A canonical string is its own normal form, and parses to the value it shows. */
  lemma {:induction false} CanonicalIsNormal(v: nat)
    requires v < SPACE
    ensures ParseUuid(Canonical(v)) == Ok(v)
    ensures NormalizeUuidStr(Canonical(v)) == Ok(Canonical(v))
  {
    var h := ToHex(v, UUID_DIGITS);
    ParseDashed(h);
    PowersOf16();
    FromHexOfToHex(v, UUID_DIGITS);
  }

  /** Normalisation is idempotent, and its results are exactly the canonical strings. */
  lemma {:induction false} NormalFormIsCanonical(uuid: string)
    ensures NormalizeUuidStr(uuid).Ok? ==>
              exists v :: 0 <= v < SPACE && NormalizeUuidStr(uuid) == Ok(Canonical(v))
    ensures NormalizeUuidStr(uuid).Ok? ==>
              NormalizeUuidStr(NormalizeUuidStr(uuid).value) == NormalizeUuidStr(uuid)
  {
    if ParseUuid(Expand(uuid)).Ok? {
      CanonicalIsNormal(ParseUuid(Expand(uuid)).value);
    }
  }

  lemma {:induction false} CanonicalInjective(v: nat, w: nat)
    requires v < SPACE && w < SPACE && Canonical(v) == Canonical(w)
    ensures v == w
  {
    CanonicalIsNormal(v);
    CanonicalIsNormal(w);
  }

  /** The strings that are their own normal form are the lower-case dashed ones. */
  lemma {:induction false} NormalIffDashed(s: string)
    ensures NormalizeUuidStr(s) == Ok(s) <==> exists h :: IsDigits(h) && s == Dashed(h)
  {
    if NormalizeUuidStr(s) == Ok(s) {
      NormalFormIsCanonical(s);
      var v :| 0 <= v < SPACE && s == Canonical(v);
      assert IsDigits(ToHex(v, UUID_DIGITS)) && s == Dashed(ToHex(v, UUID_DIGITS));
    }
    if exists h :: IsDigits(h) && s == Dashed(h) {
      var h :| IsDigits(h) && s == Dashed(h);
      ParseDashed(h);
      ToHexOfFromHex(h);
    }
  }

  lemma {:induction false} ShortDigits(head: string)
    requires AllLowerHex(head) && |head| == 8
    ensures IsDigits(head + BASE_TAIL)
  {
  }

  lemma {:induction false} ShortValue(head: string)
    requires AllLowerHex(head) && |head| == 8
    ensures IsDigits(head + BASE_TAIL)
    ensures FromHex(head + BASE_TAIL) == FromHex(head) * SLOT + BASE < SPACE
  {
    ShortDigits(head);
    PowersOf16();
    FromHexConcat(head, BASE_TAIL);
    FromHexBound(head + BASE_TAIL);
  }

  lemma {:induction false} PaddedValue(digits: string)
    requires AllLowerHex(digits)
    ensures AllLowerHex("0000" + digits) && FromHex("0000" + digits) == FromHex(digits)
  {
    FromHexConcat("0000", digits);
    assert "0000"[..3] == "000" && "000"[..2] == "00" && "00"[..1] == "0" && "0"[..0] == "";
  }

  lemma {:induction false} DashedGroups(a: string, b: string, c: string, d: string, e: string)
    requires |a| == 8 && |b| == |c| == |d| == 4 && |e| == 12
    ensures Dashed(a + (b + c + d + e)) == a + ("-" + b + "-" + c + "-" + d + "-" + e)
  {
    var h := a + (b + c + d + e);
    assert h[..8] == a && h[8..12] == b && h[12..16] == c && h[16..20] == d && h[20..] == e;
  }

  lemma {:induction false} ShortExpands(digits: string)
    requires AllLowerHex(digits) && (|digits| == 4 || |digits| == 8)
    ensures |Padded(digits) + BASE_TAIL| == 32 && Expand(digits) == Dashed(Padded(digits) + BASE_TAIL)
  {
    assert Strip(digits, WHITESPACE) == digits;
    LowerFixes(digits);
    RemoveAbsent(digits, "0x", 1);
    DashedGroups(Padded(digits), "0000", "1000", "8000", "00805f9b34fb");
  }

  lemma {:induction false} NormalizeAs(uuid: string, h: string, v: nat)
    requires IsDigits(h) && Expand(uuid) == Dashed(h) && FromHex(h) == v
    ensures NormalizeUuidStr(uuid) == Ok(Canonical(v))
  {
    ParseDashed(h);
  }

  /** The eight digits in front of the base suffix. */
  function Padded(digits: string): string {
    if |digits| == 4 then "0000" + digits else digits
  }

  lemma {:induction false} PaddedShort(digits: string)
    requires AllLowerHex(digits) && (|digits| == 4 || |digits| == 8)
    ensures IsDigits(Padded(digits) + BASE_TAIL)
    ensures FromHex(Padded(digits) + BASE_TAIL) == FromHex(digits) * SLOT + BASE < SPACE
  {
    PaddedValue(digits);
    ShortValue(Padded(digits));
  }

  /** A 16- or 32-bit UUID is the Base UUID with its leading digits replaced. */
  lemma {:induction false} ShortFormNormalizes(digits: string, v: nat)
    requires AllLowerHex(digits) && (|digits| == 4 || |digits| == 8)
    requires v == FromHex(digits) * SLOT + BASE
    ensures v < SPACE
    ensures NormalizeUuidStr(digits) == Ok(Canonical(v))
  {
    PaddedShort(digits);
    ShortExpands(digits);
    NormalizeAs(digits, Padded(digits) + BASE_TAIL, v);
  }

  /** Bare, in braces, or as a URN: a 128-bit string is its digits. */
  lemma {:induction false} DecorationsParse(h: string)
    requires IsDigits(h)
    ensures ParseUuid(h) == Ok(FromHex(h))
    ensures ParseUuid("{" + Dashed(h) + "}") == Ok(FromHex(h))
    ensures ParseUuid("urn:uuid:" + Dashed(h)) == Ok(FromHex(h))
  {
    BareParses(h);
    BracesParse(h);
    UrnParses(h);
  }

  lemma {:induction false} BareParses(h: string)
    requires IsDigits(h)
    ensures ParseUuid(h) == Ok(FromHex(h))
  {
    RemoveAbsent(h, "urn:", 0);
    RemoveAbsent(h, "uuid:", 0);
    assert IsLowerHexDigit(h[0]) && IsLowerHexDigit(h[31]);
    assert Strip(h, "{}") == h;
    HasNoDash(h);
    DigitsFit(h);
  }

  lemma {:induction false} BracesParse(h: string)
    requires IsDigits(h)
    ensures ParseUuid("{" + Dashed(h) + "}") == Ok(FromHex(h))
  {
    var d := Dashed(h);
    DashedChars(h);
    RemoveAbsent("{" + d + "}", "urn:", 0);
    RemoveAbsent("{" + d + "}", "uuid:", 0);
    StripEnds("{", d, "}", "{}");
    Undash(h);
    DigitsFit(h);
  }

  lemma {:induction false} UrnParses(h: string)
    requires IsDigits(h)
    ensures ParseUuid("urn:uuid:" + Dashed(h)) == Ok(FromHex(h))
  {
    var d := Dashed(h);
    DashedChars(h);
    assert ("urn:uuid:" + d)[..4] == "urn:" && ("urn:uuid:" + d)[4..] == "uuid:" + d;
    UuidRemains(d);
    assert ("uuid:" + d)[..5] == "uuid:" && ("uuid:" + d)[5..] == d;
    RemoveAbsent(d, "uuid:", 0);
    StripEnds("", d, "", "{}");
    assert "" + d + "" == d;
    Undash(h);
    DigitsFit(h);
  }

  lemma {:induction false} UuidRemains(d: string)
    requires 'r' !in d && 'n' !in d
    ensures RemoveAll("uuid:" + d, "urn:") == "uuid:" + d
  {
    RemoveAbsent("uuid:" + d, "urn:", 1);
  }

  /** The case of letters does not matter. */
  lemma {:induction false} NormalizeIgnoresCase(s: string, t: string)
    requires SameLetters(s, t)
    ensures NormalizeUuidStr(s) == NormalizeUuidStr(t)
  {
    StripIgnoresCase(s, t, WHITESPACE);
    LowerIgnoresCase(Strip(s, WHITESPACE), Strip(t, WHITESPACE));
  }

  lemma {:induction false} BarePrefix(prefix: string, digits: string)
    requires prefix in {"", "0x", "0X"} && AllHex(digits)
    ensures RemoveAll(Lower(prefix + digits), "0x") == Lower(digits)
  {
    var low := Lower(digits);
    LowerHexDigits(digits);
    RemoveAbsent(low, "0x", 1);
    if prefix == "" {
      assert prefix + digits == digits;
    } else {
      var all := Lower(prefix + digits);
      assert all[..2] == "0x" && all[2..] == low;
    }
  }

  lemma {:induction false} Stripped(left: string, s: string, right: string)
    requires forall c :: c in left || c in right ==> c in " \t\r\n"
    requires s != "" && IsHexDigit(s[0]) && IsHexDigit(s[|s| - 1])
    ensures Strip(left + s + right, WHITESPACE) == s
  {
    StripEnds(left, s, right, WHITESPACE);
  }

  lemma {:induction false} SameCore(s: string, t: string)
    requires RemoveAll(Lower(Strip(s, WHITESPACE)), "0x") == RemoveAll(Lower(Strip(t, WHITESPACE)), "0x")
    ensures NormalizeUuidStr(s) == NormalizeUuidStr(t)
  {
  }

  lemma {:induction false} CoreOfShort(left: string, prefix: string, digits: string, right: string)
    requires forall c :: c in left || c in right ==> c in " \t\r\n"
    requires prefix in {"", "0x", "0X"} && AllHex(digits) && digits != ""
    ensures RemoveAll(Lower(Strip(left + (prefix + digits) + right, WHITESPACE)), "0x") == Lower(digits)
  {
    var s := prefix + digits;
    assert IsHexDigit(s[0]) && s[|s| - 1] == digits[|digits| - 1] && IsHexDigit(digits[|digits| - 1]);
    Stripped(left, s, right);
    BarePrefix(prefix, digits);
  }

  /** Nor do blanks around the digits and 0x before them: in every case it is the Base UUID with its head replaced. */
  lemma {:induction false} ShortStringNormalizes(left: string, prefix: string, digits: string, right: string, v: nat)
    requires forall c :: c in left || c in right ==> c in " \t\r\n"
    requires prefix in {"", "0x", "0X"} && AllHex(digits) && |digits| in {4, 8}
    requires v == FromHex(digits) * SLOT + BASE
    ensures v < SPACE && NormalizeUuidStr(left + (prefix + digits) + right) == Ok(Canonical(v))
  {
    var low := Lower(digits);
    LowerHexDigits(digits);
    ShortFormNormalizes(low, v);
    CoreOfShort(left, prefix, digits, right);
    BareExpands(low);
    SameCore(left + (prefix + digits) + right, low);
  }

  lemma {:induction false} BareExpands(low: string)
    requires low != "" && AllLowerHex(low)
    ensures RemoveAll(Lower(Strip(low, WHITESPACE)), "0x") == low
  {
    assert IsLowerHexDigit(low[0]) && IsLowerHexDigit(low[|low| - 1]);
    assert Strip(low, WHITESPACE) == low;
    LowerFixes(low);
    RemoveAbsent(low, "0x", 1);
  }

  lemma {:induction false} BaseFits()
    ensures BASE < SLOT
  {
    FromHexBound(BASE_TAIL);
    PowersOf16();
  }

  /** The short values are the Base UUID with some 16-bit value in the slot. */
  lemma {:induction false} ShortIff(v: nat)
    requires v < SPACE
    ensures IsShort(v) <==> v / SLOT < 0x1_0000 && v % SLOT == BASE
    ensures IsShort(v) ==> v == v / SLOT % 0x1_0000 * SLOT + BASE
  {
    BaseFits();
    var q, r := v / SLOT, v % SLOT;
    assert v == q * SLOT + r;
    assert v - q % 0x1_0000 * SLOT == q / 0x1_0000 * 0x1_0000 * SLOT + r;
  }

  /** The value a wire UUID denotes. */
  function WireValue(data: bytes): nat {
    if |data| == 16 then FromLE(data) else FromLE(data) * SLOT + BASE
  }

  lemma {:induction false} DecodesToWireValue(data: bytes)
    requires |data| in {2, 4, 16}
    ensures WireValue(data) < SPACE
    ensures UuidFromBytes(data) == Ok(Canonical(WireValue(data)))
  {
    FromLEBound(data);
    Pow256IsPow16(|data|);
    PowersOf16();
    if |data| != 16 {
      FromHexOfToHex(FromLE(data), 2 * |data|);
      ShortFormNormalizes(ToHex(FromLE(data), 2 * |data|), WireValue(data));
    }
  }

  /** Wire UUIDs of any lengths decode to the same string exactly when they denote the same value. */
  lemma {:induction false} DecodeAlikeIffSameValue(a: bytes, b: bytes)
    requires |a| in {2, 4, 16} && |b| in {2, 4, 16}
    ensures UuidFromBytes(a) == UuidFromBytes(b) <==> WireValue(a) == WireValue(b)
  {
    DecodesToWireValue(a);
    DecodesToWireValue(b);
    if UuidFromBytes(a) == UuidFromBytes(b) {
      CanonicalInjective(WireValue(a), WireValue(b));
    }
  }

  lemma {:induction false} WireFormDenotes(v: nat)
    requires v < SPACE
    ensures |WireForm(v)| in {2, 16} && WireValue(WireForm(v)) == v
  {
    if IsShort(v) {
      ShortIff(v);
      LE16Decodes(v / SLOT % 0x1_0000);
    } else {
      PowersOf16();
      Pow256IsPow16(16);
      FromLEOfToLE(v, 16);
    }
  }

  lemma {:induction false} EncodesWireForm(uuid: string, v: nat)
    requires v < SPACE && NormalizeUuidStr(uuid) == Ok(Canonical(v))
    ensures UuidToBytes(uuid) == Ok(WireForm(v))
  {
    CanonicalIsNormal(v);
  }

  /** Decoding the encoding of any UUID string gives its normal form; both fail on the same strings. */
  lemma {:induction false} DecodeOfEncode(uuid: string)
    ensures UuidToBytes(uuid).Ok? <==> NormalizeUuidStr(uuid).Ok?
    ensures UuidToBytes(uuid).Ok? ==> UuidFromBytes(UuidToBytes(uuid).value) == NormalizeUuidStr(uuid)
  {
    NormalFormIsCanonical(uuid);
    if NormalizeUuidStr(uuid).Ok? {
      var v :| 0 <= v < SPACE && NormalizeUuidStr(uuid) == Ok(Canonical(v));
      EncodesWireForm(uuid, v);
      WireFormDenotes(v);
      DecodesToWireValue(WireForm(v));
    }
  }

  /** Two UUID strings have the same encoding exactly when they have the same normal form. */
  lemma {:induction false} EncodeAlikeIffSameUuid(a: string, b: string)
    requires UuidToBytes(a).Ok? && UuidToBytes(b).Ok?
    ensures UuidToBytes(a) == UuidToBytes(b) <==> NormalizeUuidStr(a) == NormalizeUuidStr(b)
  {
    DecodeOfEncode(a);
    DecodeOfEncode(b);
  }

  /** A wire UUID is the wire form of its value, unless that is shorter. */
  lemma {:induction false} WireFormOfValue(data: bytes)
    requires |data| in {2, 4, 16}
    ensures |data| == 2 ==> WireForm(WireValue(data)) == data
    ensures |data| == 16 && |WireForm(WireValue(data))| != 2 ==> WireForm(WireValue(data)) == data
  {
    if |data| == 2 {
      BaseFits();
      FromLE16Bound(data);
      ToLEOfFromLE(data);
      SlotValue(FromLE(data));
      TwoBytes(FromLE(data));
    } else if |data| == 16 {
      ToLEOfFromLE(data);
    }
  }

  /** Re-encoding a decoded UUID yields two bytes exactly when it is the Base UUID with only the 16-bit slot changed. */
  lemma {:induction false} EncodeOfDecode(data: bytes)
    requires |data| in {2, 4, 16}
    ensures UuidFromBytes(data).Ok? && UuidToBytes(UuidFromBytes(data).value).Ok?
    ensures var again, v := UuidToBytes(UuidFromBytes(data).value).value, WireValue(data);
            && WireValue(again) == v
            && (|again| == 2 <==> v / SLOT < 0x1_0000 && v % SLOT == BASE)
            && (|data| == 2 ==> again == data)
            && (|data| == 16 && |again| != 2 ==> again == data)
  {
    var v := WireValue(data);
    DecodesToWireValue(data);
    CanonicalIsNormal(v);
    EncodesWireForm(Canonical(v), v);
    WireFormDenotes(v);
    ShortIff(v);
    WireFormOfValue(data);
  }

  lemma {:induction false} SlotValue(x: nat)
    requires x < 0x1_0000
    ensures (x * SLOT + BASE) / SLOT == x && (x * SLOT + BASE) % SLOT == BASE
  {
    BaseFits();
  }

  lemma {:induction false} TwoBytes(x: u16)
    ensures ToLE(x, 2) == LE16(x)
  {
    assert ToLE(x, 2) == [x % 0x100] + ToLE(x / 0x100, 1);
    assert ToLE(x / 0x100, 1) == [x / 0x100 % 0x100] + ToLE(x / 0x100 / 0x100, 0);
  }
}

/** Bluetooth addresses as strings and in wire order. */
module Addresses {
  import opened Bytes
  import opened Att
  import opened Hex
  import opened PythonInt
  import Uuids

  function UpperDigit(v: nat): (c: char)
    requires v < 16
    ensures IsHexDigit(c) && HexValue(c) == v
  {
    if v < 10 then '0' + (v as char) else 'A' + ((v - 10) as char)
  }

  /** "%02X" % b */
  function HexPair(b: byte): (s: string)
    ensures |s| == 2 && AllHex(s) && FromHex(s) == b
  {
    var high := [UpperDigit(b / 16)];
    var s := high + [UpperDigit(b % 16)];
    assert high[..|high| - 1] == "" && FromHex(high) == b / 16;
    assert s[..|s| - 1] == high;
    s
  }

  function Reversed<T>(xs: seq<T>): (r: seq<T>)
    ensures |r| == |xs| && forall i :: 0 <= i < |xs| ==> r[i] == xs[|xs| - 1 - i]
  {
    if xs == [] then [] else Reversed(xs[1..]) + [xs[0]]
  }

  lemma {:induction false} ReversedTwice<T>(xs: seq<T>)
    ensures Reversed(Reversed(xs)) == xs
  {
  }

  function Pairs(bs: bytes): (parts: seq<string>)
    ensures |parts| == |bs| && forall i :: 0 <= i < |bs| ==> parts[i] == HexPair(bs[i])
  {
    if bs == [] then [] else [HexPair(bs[0])] + Pairs(bs[1..])
  }

  /** ":".join(parts) */
  function Join(parts: seq<string>): string {
    if parts == [] then ""
    else if |parts| == 1 then parts[0]
    else parts[0] + ":" + Join(parts[1..])
  }

  /** s.split(":") */
  function Split(s: string): (parts: seq<string>)
    ensures parts != []
  {
    if s == "" then [""]
    else
      var rest := Split(s[1..]);
      if s[0] == ':' then [""] + rest else [[s[0]] + rest[0]] + rest[1..]
  }

  function BdaddrToStr(data: bytes): Result<string, Failure> {
    if |data| != 6 then Err(ValueError) else Ok(Join(Pairs(Reversed(data))))
  }

  /** bytes(int(p, 16) for p in parts) */
  function ParseParts(parts: seq<string>): Result<bytes, Failure> {
    if parts == [] then Ok([])
    else
      match IntBase16(parts[0])
      case Err(f) => Err(f)
      case Ok(v) =>
        if v < 0 || v > 0xFF then Err(ValueError)
        else
          match ParseParts(parts[1..])
          case Ok(bs) => Ok([v as byte] + bs)
          case Err(f) => Err(f)
  }

  function StrToBdaddr(addr: string): Result<bytes, Failure> {
    var parts := Split(Strip(addr, Uuids.WHITESPACE));
    if |parts| != 6 then Err(ValueError) else ParseParts(Reversed(parts))
  }

  /** The parts are what is between the colons. */
  lemma {:induction false} JoinOfSplit(s: string)
    ensures Join(Split(s)) == s && forall p :: p in Split(s) ==> ':' !in p
  {
    if s != "" {
      var rest := Split(s[1..]);
      JoinOfSplit(s[1..]);
      assert s == [s[0]] + s[1..];
      if s[0] == ':' {
        assert Split(s)[1..] == rest;
      } else {
        assert Split(s)[1..] == rest[1..] && Split(s)[0] == [s[0]] + rest[0];
        JoinHead(s[0], rest);
      }
    }
  }

  lemma {:induction false} JoinHead(c: char, parts: seq<string>)
    requires parts != []
    ensures Join([[c] + parts[0]] + parts[1..]) == [c] + Join(parts)
  {
    var longer := [[c] + parts[0]] + parts[1..];
    assert longer[1..] == parts[1..];
    if |parts| > 1 {
      assert [c] + parts[0] + ":" + Join(parts[1..]) == [c] + (parts[0] + ":" + Join(parts[1..]));
    }
  }

  predicate IsByte(part: string) {
    IntBase16(part).Ok? && 0 <= IntBase16(part).value <= 0xFF
  }

  predicate AreBytes(parts: seq<string>) {
    forall i :: 0 <= i < |parts| ==> IsByte(parts[i])
  }

  predicate Denote(parts: seq<string>, bs: bytes) {
    |bs| == |parts| && forall i :: 0 <= i < |parts| ==> IntBase16(parts[i]) == Ok(bs[i])
  }

  lemma {:induction false} PartsParse(parts: seq<string>)
    ensures var r := ParseParts(parts);
            if AreBytes(parts) then r.Ok? && Denote(parts, r.value) else r == Err(ValueError)
    decreases |parts|
  {
    if parts != [] {
      PartsParse(parts[1..]);
      HeadIsByte(parts);
      if AreBytes(parts) {
        var b, rest := IntBase16(parts[0]).value, ParseParts(parts[1..]).value;
        DenoteCons(parts, b, rest);
      }
    }
  }

  lemma {:induction false} HeadIsByte(parts: seq<string>)
    requires parts != []
    ensures AreBytes(parts) <==> IsByte(parts[0]) && AreBytes(parts[1..])
  {
    assert forall i :: 0 < i < |parts| ==> parts[i] == parts[1..][i - 1];
  }

  lemma {:induction false} DenoteCons(parts: seq<string>, b: byte, rest: bytes)
    requires parts != [] && IntBase16(parts[0]) == Ok(b) && Denote(parts[1..], rest)
    ensures Denote(parts, [b] + rest)
  {
    var bs := [b] + rest;
    forall i | 0 <= i < |parts| ensures IntBase16(parts[i]) == Ok(bs[i]) {
      if i > 0 {
        assert parts[i] == parts[1..][i - 1] && bs[i] == rest[i - 1];
      }
    }
  }

  /** An address is read exactly if it has six parts that are numerals of a byte; blanks around it are ignored. */
  lemma {:induction false} StrToBdaddrIff(addr: string, parts: seq<string>)
    requires parts == Split(Strip(addr, " \t\n\r\U{000B}\U{000C}\U{001C}\U{001D}\U{001E}\U{001F}"))
    ensures var r := StrToBdaddr(addr);
            && (r.Ok? <==> |parts| == 6 && forall i :: 0 <= i < 6 ==> IsByte(parts[i]))
            && (r.Ok? ==> |r.value| == 6 && forall i :: 0 <= i < 6 ==> IntBase16(parts[i]) == Ok(r.value[5 - i]))
            && (r.Err? ==> r.error == ValueError)
  {
    PartsParse(Reversed(parts));
    if |parts| == 6 {
      assert forall i :: 0 <= i < 6 ==> parts[i] == Reversed(parts)[5 - i];
    }
  }

  lemma {:induction false} SplitPart(part: string, rest: string)
    requires ':' !in part
    ensures Split(part + ":" + rest) == [part] + Split(rest)
  {
    if part == "" {
      assert (part + ":" + rest)[1..] == rest;
    } else {
      assert (part + ":" + rest)[1..] == part[1..] + ":" + rest;
      SplitPart(part[1..], rest);
      assert part == [part[0]] + part[1..];
    }
  }

  lemma {:induction false} SplitWhole(part: string)
    requires ':' !in part
    ensures Split(part) == [part]
  {
    if part != "" {
      SplitWhole(part[1..]);
      assert part == [part[0]] + part[1..];
    }
  }

  lemma {:induction false} SplitOfJoin(parts: seq<string>)
    requires parts != [] && forall p :: p in parts ==> ':' !in p
    ensures Split(Join(parts)) == parts
  {
    assert parts[0] in parts;
    if |parts| == 1 {
      SplitWhole(parts[0]);
    } else {
      SplitOfJoin(parts[1..]);
      SplitPart(parts[0], Join(parts[1..]));
    }
  }

  lemma {:induction false} ParseCons(part: string, b: byte, rest: seq<string>, bs: bytes)
    requires part != "" && AllHex(part) && FromHex(part) == b && ParseParts(rest) == Ok(bs)
    ensures ParseParts([part] + rest) == Ok([b] + bs)
  {
    assert ([part] + rest)[1..] == rest;
    IntOfHex(part);
  }

  lemma {:induction false} ParseOfPairs(bs: bytes)
    ensures ParseParts(Pairs(bs)) == Ok(bs)
  {
    if bs != [] {
      ParseOfPairs(bs[1..]);
      ParseCons(HexPair(bs[0]), bs[0], Pairs(bs[1..]), bs[1..]);
      assert bs == [bs[0]] + bs[1..];
    }
  }

  lemma {:induction false} ReversedPairs(bs: bytes)
    ensures Reversed(Pairs(bs)) == Pairs(Reversed(bs))
  {
  }

  /** An address survives being shown and read back. */
  lemma {:induction false} StrToBdaddrOfStr(data: bytes)
    requires |data| == 6
    ensures BdaddrToStr(data).Ok? && StrToBdaddr(BdaddrToStr(data).value) == Ok(data)
  {
    var parts := Pairs(Reversed(data));
    var s := Join(parts);
    forall p | p in parts ensures ':' !in p {
      var i :| 0 <= i < |parts| && parts[i] == p;
      assert forall j :: 0 <= j < |p| ==> IsHexDigit(p[j]);
    }
    SplitOfJoin(parts);
    JoinEnds(parts);
    assert Strip(s, Uuids.WHITESPACE) == s;
    ReversedPairs(Reversed(data));
    ReversedTwice(data);
    ParseOfPairs(data);
  }

  /** A joined list of hex pairs begins and ends with a hex digit. */
  lemma {:induction false} JoinEnds(parts: seq<string>)
    requires parts != [] && forall i :: 0 <= i < |parts| ==> |parts[i]| == 2 && AllHex(parts[i])
    ensures var s := Join(parts); s != "" && IsHexDigit(s[0]) && IsHexDigit(s[|s| - 1])
  {
    if |parts| > 1 {
      JoinEnds(parts[1..]);
    }
  }

  function UpperDigits(): string {
    "0123456789ABCDEF"
  }

  lemma {:induction false} JoinLength(parts: seq<string>)
    requires parts != [] && forall i :: 0 <= i < |parts| ==> |parts[i]| == 2
    ensures |Join(parts)| == 3 * |parts| - 1
  {
    if |parts| > 1 {
      JoinLength(parts[1..]);
    }
  }

  /** From the i-th part on, a joined list is the joined rest. */
  lemma {:induction false} JoinedFrom(parts: seq<string>, i: nat)
    requires i < |parts| && forall i :: 0 <= i < |parts| ==> |parts[i]| == 2
    ensures 3 * i < |Join(parts)| && Join(parts)[3 * i..] == Join(parts[i..])
    decreases i
  {
    JoinLength(parts);
    if i == 0 {
      assert parts[0..] == parts;
    } else {
      JoinedFrom(parts[1..], i - 1);
      assert Join(parts)[3..] == Join(parts[1..]);
      assert Join(parts)[3..][3 * (i - 1)..] == Join(parts)[3 * i..];
      assert parts[1..][i - 1..] == parts[i..];
    }
  }

  /** "%02X": two digits, in upper case. */
  lemma {:induction false} HexPairDigits(b: byte)
    ensures HexPair(b) == [UpperDigits()[b / 16], UpperDigits()[b % 16]]
  {
    assert forall v :: 0 <= v < 16 ==> UpperDigit(v) == UpperDigits()[v];
  }

  lemma {:induction false} PairsLead(parts: seq<string>, s: string)
    requires parts != [] && |parts[0]| == 2 && s == Join(parts)
    ensures |s| >= 2 && s[0] == parts[0][0] && s[1] == parts[0][1]
    ensures |parts| > 1 ==> |s| >= 3 && s[2] == ':'
  {
  }

  /** An address is shown as six pairs of upper-case digits between colons, the last byte on the wire first. */
  lemma {:induction false} AddressFormat(data: bytes, i: nat)
    requires |data| == 6 && i < 6
    ensures BdaddrToStr(data).Ok?
    ensures var s, b := BdaddrToStr(data).value, data[5 - i];
            && |s| == 17 && (i < 5 ==> s[3 * i + 2] == ':')
            && s[3 * i] == UpperDigits()[b / 16] && s[3 * i + 1] == UpperDigits()[b % 16]
  {
    var parts := Pairs(Reversed(data));
    JoinLength(parts);
    JoinedFrom(parts, i);
    PairsLead(parts[i..], BdaddrToStr(data).value[3 * i..]);
    HexPairDigits(data[5 - i]);
  }
}

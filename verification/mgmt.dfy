/** The management packet codecs: headers, advertising data and device-found reports. */
module Mgmt {
  import opened Bytes
  import opened Seqs
  import opened Att
  import opened Addresses

  const MGMT_EV_DEVICE_FOUND: u16 := 0x0012

  /** struct.pack("<HHH", ...) raises struct.error for a field that does not fit. */
  function EncodeCommand(opcode: nat, index: nat, params: bytes): Result<bytes, Failure> {
    if opcode > 0xFFFF || index > 0xFFFF || |params| > 0xFFFF then Err(StructError)
    else Ok(LE16(opcode) + LE16(index) + LE16(|params|) + params)
  }

  datatype Packet = Packet(event: u16, index: u16, params: bytes)

  function ParsePacket(data: bytes): Result<Packet, Failure> {
    if |data| < 6 then Err(StructError)
    else
      var plen := Field16(data, 4);
      Ok(Packet(Field16(data, 0), Field16(data, 2), Slice(data, 6, 6 + plen)))
  }

  lemma {:induction false} ParseOfEncode(event: u16, index: u16, params: bytes)
    requires |params| <= 0xFFFF
    ensures EncodeCommand(event, index, params).Ok?
    ensures ParsePacket(EncodeCommand(event, index, params).value) == Ok(Packet(event, index, params))
  {
    var data := EncodeCommand(event, index, params).value;
    assert data[0..2] == LE16(event) && data[2..4] == LE16(index) && data[4..6] == LE16(|params|);
    Field16Decodes(data, 0, event);
    Field16Decodes(data, 2, index);
    Field16Decodes(data, 4, |params|);
    assert data[6..6 + |params|] == params;
  }

  /** Of any packet: three little-endian fields, and as many parameters as there are; a short header raises. */
  lemma {:induction false} PacketOnWire(data: bytes)
    ensures |data| < 6 ==> ParsePacket(data) == Err(StructError)
    ensures |data| >= 6 ==>
              var length := data[4] as nat + 0x100 * data[5] as nat;
              && ParsePacket(data).Ok?
              && var p := ParsePacket(data).value;
                 && p.event == data[0] as nat + 0x100 * data[1] as nat
                 && p.index == data[2] as nat + 0x100 * data[3] as nat
                 && p.params == data[6..Min(|data|, 6 + length)]
  {
    if |data| >= 6 {
      Field16OnWire(data, 0);
      Field16OnWire(data, 2);
      Field16OnWire(data, 4);
    }
  }

  // Advertising data (Core Specification Vol 3 Part C section 11).

  /** One AD structure: a type and at most 254 bytes of value. */
  datatype AdStructure = AdStructure(adType: byte, value: bytes)

  predicate Fits(ad: AdStructure) {
    |ad.value| <= 254
  }

  function EncodeAd(ad: AdStructure): bytes
    requires Fits(ad)
  {
    [|ad.value| + 1, ad.adType] + ad.value
  }

  predicate AllFit(ads: seq<AdStructure>) {
    forall i :: 0 <= i < |ads| ==> Fits(ads[i])
  }

  function EncodeAds(ads: seq<AdStructure>): bytes
    requires AllFit(ads)
  {
    if ads == [] then [] else EncodeAd(ads[0]) + EncodeAds(ads[1..])
  }

  /** No whole structure starts here: the data ends, a zero length follows, or the length runs past the end. */
  predicate Stops(eir: bytes) {
    eir == [] || eir[0] == 0 || 1 + eir[0] > |eir|
  }

  /** The structures before the first place where parsing stops. */
  function Structures(eir: bytes): (ads: seq<AdStructure>)
    ensures AllFit(ads)
  {
    if Stops(eir) then []
    else [AdStructure(eir[1], eir[2..1 + eir[0]])] + Structures(eir[1 + eir[0]..])
  }

  /** Later structures of a type replace earlier ones. */
  function LastWins(ads: seq<AdStructure>): map<byte, bytes> {
    if ads == [] then map[]
    else
      var last := ads[|ads| - 1];
      LastWins(ads[..|ads| - 1])[last.adType := last.value]
  }

  lemma {:induction false} LastWinsAppend(ads: seq<AdStructure>, ad: AdStructure)
    ensures LastWins(ads + [ad]) == LastWins(ads)[ad.adType := ad.value]
  {
    assert (ads + [ad])[..|ads|] == ads;
  }

  lemma {:induction false} StructuresStep(eir: bytes, i: nat, done: seq<AdStructure>)
    requires i <= |eir| && !Stops(eir[i..])
    ensures var ad := AdStructure(eir[i + 1], eir[i + 2..i + 1 + eir[i]]);
            done + Structures(eir[i..]) == (done + [ad]) + Structures(eir[i + 1 + eir[i]..])
  {
    var rest := eir[i..];
    var ad := AdStructure(eir[i + 1], eir[i + 2..i + 1 + eir[i]]);
    assert rest[2..1 + rest[0]] == ad.value;
    assert rest[1 + rest[0]..] == eir[i + 1 + eir[i]..];
    assert Structures(rest) == [ad] + Structures(eir[i + 1 + eir[i]..]);
    Assoc(done, [ad], Structures(eir[i + 1 + eir[i]..]));
  }

  /** The structures before i are done, and out holds them. */
  ghost predicate Parsed(eir: bytes, i: nat, done: seq<AdStructure>, out: map<byte, bytes>) {
    i <= |eir| && done + Structures(eir[i..]) == Structures(eir) && out == LastWins(done)
  }

  lemma {:induction false} ParsedStep(eir: bytes, i: nat, done: seq<AdStructure>, out: map<byte, bytes>)
    requires Parsed(eir, i, done, out) && !Stops(eir[i..])
    ensures var ad := AdStructure(eir[i + 1], eir[i + 2..i + 1 + eir[i]]);
            Parsed(eir, i + 1 + eir[i], done + [ad], out[ad.adType := ad.value])
  {
    var ad := AdStructure(eir[i + 1], eir[i + 2..i + 1 + eir[i]]);
    StructuresStep(eir, i, done);
    LastWinsAppend(done, ad);
  }

  lemma {:induction false} ParsedEnd(eir: bytes, i: nat, done: seq<AdStructure>, out: map<byte, bytes>)
    requires Parsed(eir, i, done, out) && Stops(eir[i..])
    ensures out == LastWins(Structures(eir))
  {
    assert done + [] == done;
  }

  method ParseEir(eir: bytes) returns (out: map<byte, bytes>)
    ensures out == LastWins(Structures(eir))
  {
    out := map[];
    var i := 0;
    var n := |eir|;
    ghost var done: seq<AdStructure> := [];
    assert eir[0..] == eir;
    while i < n
      invariant 0 <= i <= n
      invariant Parsed(eir, i, done, out)
    {
      var length := eir[i];
      if length == 0 || i + 1 + length > n {
        break;
      }
      ParsedStep(eir, i, done, out);
      var adType := eir[i + 1];
      out := out[adType := eir[i + 2..i + 1 + length]];
      done := done + [AdStructure(adType, eir[i + 2..i + 1 + length])];
      i := i + 1 + length;
    }
    ParsedEnd(eir, i, done, out);
  }

  lemma {:induction false} StructuresCons(ad: AdStructure, rest: bytes)
    requires Fits(ad)
    ensures Structures(EncodeAd(ad) + rest) == [ad] + Structures(rest)
  {
    var eir := EncodeAd(ad) + rest;
    assert eir[2..1 + eir[0]] == ad.value;
    assert eir[1 + eir[0]..] == rest;
  }

  /** Parsing gives back any list of structures that is followed by nothing or by zero padding. */
  lemma {:induction false} StructuresOfEncode(ads: seq<AdStructure>, padding: bytes)
    requires AllFit(ads) && Stops(padding)
    ensures Structures(EncodeAds(ads) + padding) == ads
  {
    if ads == [] {
      assert EncodeAds(ads) + padding == padding;
    } else {
      var rest := EncodeAds(ads[1..]) + padding;
      Assoc(EncodeAd(ads[0]), EncodeAds(ads[1..]), padding);
      StructuresCons(ads[0], rest);
      StructuresOfEncode(ads[1..], padding);
      assert [ads[0]] + ads[1..] == ads;
    }
  }

  lemma {:induction false} PrefixCons(head: bytes, tail: bytes, rest: bytes)
    requires tail <= rest
    ensures head + tail <= head + rest && (head + rest)[|head + tail|..] == rest[|tail|..]
  {
  }

  lemma {:induction false} EncodeCons(ad: AdStructure, ads: seq<AdStructure>)
    requires Fits(ad) && AllFit(ads)
    ensures AllFit([ad] + ads) && EncodeAds([ad] + ads) == EncodeAd(ad) + EncodeAds(ads)
  {
    assert ([ad] + ads)[1..] == ads;
  }

  /** On arbitrary bytes: what is kept is a prefix of the data, and parsing stops only where no structure starts. */
  lemma {:induction false} StructuresArePrefix(eir: bytes)
    ensures var kept := EncodeAds(Structures(eir));
            kept <= eir && Stops(eir[|kept|..])
  {
    if !Stops(eir) {
      var ad, rest := AdStructure(eir[1], eir[2..1 + eir[0]]), eir[1 + eir[0]..];
      StructuresArePrefix(rest);
      assert eir == EncodeAd(ad) + rest;
      EncodeCons(ad, Structures(rest));
      PrefixCons(EncodeAd(ad), EncodeAds(Structures(rest)), rest);
    }
  }

  /** No longer list of structures is a prefix of the data. */
  lemma {:induction false} StructuresAreMaximal(eir: bytes, ads: seq<AdStructure>)
    requires AllFit(ads) && EncodeAds(ads) <= eir
    ensures ads <= Structures(eir)
  {
    if ads != [] {
      var ad, rest := ads[0], eir[1 + eir[0]..];
      assert EncodeAds(ads) == EncodeAd(ad) + EncodeAds(ads[1..]);
      assert eir[..|EncodeAds(ads)|] == EncodeAds(ads);
      assert eir[0] == EncodeAds(ads)[0] && eir[1] == EncodeAds(ads)[1];
      assert eir[2..1 + eir[0]] == EncodeAds(ads)[2..1 + eir[0]] == ad.value;
      assert rest[..|EncodeAds(ads[1..])|] == EncodeAds(ads)[1 + eir[0]..] == EncodeAds(ads[1..]);
      StructuresAreMaximal(rest, ads[1..]);
      assert ads == [ad] + ads[1..];
    }
  }

  // Device-found reports.

  datatype DeviceFound = DeviceFound(address: string, addressType: byte, rssi: int, flags: nat, eir: map<byte, bytes>)

  /** struct "<b": two's complement. */
  function Signed(b: byte): int {
    if b < 0x80 then b else b - 0x100
  }

  function ParseDeviceFound(params: bytes): Result<DeviceFound, Failure> {
    match BdaddrToStr(Slice(params, 0, 6))
    case Err(f) => Err(f)
    case Ok(address) =>
      if |params| < 7 then Err(IndexError)
      else if |params| < 14 then Err(StructError)
      else
        var eirLength := Field16(params, 12);
        Ok(DeviceFound(address, params[6], Signed(params[7]), FromLE(params[8..12]),
                       LastWins(Structures(Slice(params, 14, 14 + eirLength)))))
  }

  /** A report is decoded exactly if its fixed part is there; else the first field that is missing raises. */
  lemma {:induction false} ReportDecodesIff(params: bytes)
    ensures var r := ParseDeviceFound(params);
            && (r.Ok? <==> |params| >= 14)
            && (r.Err? ==>
                  r.error == if |params| < 6 then ValueError else if |params| == 6 then IndexError else StructError)
  {
  }

  /** A report as the kernel lays it out. */
  function EncodeReport(address: bytes, addressType: byte, rssi: int, flags: nat, eir: bytes): bytes
    requires |address| == 6 && -0x80 <= rssi < 0x80 && |eir| <= 0xFFFF
  {
    address + [addressType, if rssi < 0 then rssi + 0x100 else rssi] + ToLE(flags, 4) + LE16(|eir|) + eir
  }

  lemma {:induction false} ReportFields(address: bytes, addressType: byte, rssi: int, flags: nat, eir: bytes)
    requires |address| == 6 && -0x80 <= rssi < 0x80 && |eir| <= 0xFFFF
    ensures var r := EncodeReport(address, addressType, rssi, flags, eir);
            && |r| == 14 + |eir|
            && r[0..6] == address && r[6] == addressType && Signed(r[7]) == rssi
            && r[8..12] == ToLE(flags, 4) && r[12..14] == LE16(|eir|) && r[14..14 + |eir|] == eir
  {
  }

  /**
   * A packed report comes back field by field through the packet header, the report and the advertising
   * data: the address reads back to the same bytes, and the AD structures as their last-wins map.
   */
  lemma {:induction false} ReportRoundTrip(
      index: u16, address: bytes, addressType: byte, rssi: int, flags: nat, ads: seq<AdStructure>, padding: bytes)
    requires |address| == 6 && -0x80 <= rssi < 0x80 && flags < 0x1_0000_0000
    requires AllFit(ads) && Stops(padding) && 14 + |EncodeAds(ads) + padding| <= 0xFFFF
    ensures var eir := EncodeAds(ads) + padding;
            var report := EncodeReport(address, addressType, rssi, flags, eir);
            var packet := EncodeCommand(MGMT_EV_DEVICE_FOUND, index, report);
            && packet.Ok? && ParsePacket(packet.value) == Ok(Packet(MGMT_EV_DEVICE_FOUND, index, report))
            && var found := ParseDeviceFound(report);
               && found.Ok? && StrToBdaddr(found.value.address) == Ok(address)
               && found.value == DeviceFound(found.value.address, addressType, rssi, flags, LastWins(ads))
  {
    var eir := EncodeAds(ads) + padding;
    var report := EncodeReport(address, addressType, rssi, flags, eir);
    ReportFields(address, addressType, rssi, flags, eir);
    ParseOfEncode(MGMT_EV_DEVICE_FOUND, index, report);
    Field16Decodes(report, 12, |eir|);
    assert Pow256(4) == 0x1_0000_0000;
    FromLEOfToLE(flags, 4);
    StructuresOfEncode(ads, padding);
    StrToBdaddrOfStr(address);
  }
}

/** Reading an attribute: Read Request, then Read Blob while the value may go on. */
module LongRead {
  import opened Bytes
  import opened Att
  import opened Gatt
  import opened Paging
  import opened AttLink

  function ReadRequest(handle: u16): bytes {
    [READ_REQ] + LE16(handle)
  }

  function BlobRequest(handle: u16, offset: u16): bytes {
    [READ_BLOB_REQ] + LE16(handle) + LE16(offset)
  }

  /** Two errors mean that there is nothing at this offset. */
  predicate IsEndOfValue(f: Failure) {
    f.AttError? && f.code in {ATT_ERR_INVALID_OFFSET, ATT_ERR_ATTRIBUTE_NOT_LONG}
  }

  /** _read_blob: an offset that does not fit two bytes raises before anything is sent. */
  function Blob(policy: Policy, n: nat, handle: u16, offset: nat): Scan<bytes> {
    if offset > 0xFFFF then Scan(Err(OverflowError), n)
    else
      match Transact(policy, n, BlobRequest(handle, offset), READ_BLOB_RSP)
      case Ok(data) => Scan(Ok(From(data, 1)), n + 1)
      case Err(f) => Scan(if IsEndOfValue(f) then Ok([]) else Err(f), n + 1)
  }

  /** The loop of read, with the MTU it noted before its first turn. */
  function Accumulate(policy: Policy, n: nat, handle: u16, value: bytes, mtu: nat): Scan<bytes>
    decreases 0x1_0000 - |value|
  {
    if |value| < mtu - 1 then Scan(Ok(value), n)
    else
      var blob := Blob(policy, n, handle, |value|);
      match blob.result
      case Err(f) => Scan(Err(f), blob.next)
      case Ok(more) =>
        if more == [] then Scan(Ok(value), blob.next)
        else Accumulate(policy, blob.next, handle, value + more, mtu)
  }

  /** read: the MTU is noted when the first response has been consumed. */
  function Read(policy: Policy, mtuAfter: nat -> nat, n: nat, handle: u16): Scan<bytes> {
    match Transact(policy, n, ReadRequest(handle), READ_RSP)
    case Err(f) => Scan(Err(f), n + 1)
    case Ok(data) => Accumulate(policy, n + 1, handle, From(data, 1), mtuAfter(n))
  }

  method ReadBlob(link: Link, handle: u16, offset: nat) returns (r: Result<bytes, Failure>)
    modifies link
    ensures Scan(r, link.next) == Blob(link.policy, old(link.next), handle, offset)
  {
    if offset > 0xFFFF {
      return Err(OverflowError);
    }
    var data := link.Request(BlobRequest(handle, offset), READ_BLOB_RSP);
    match data
    case Ok(pdu) => return Ok(From(pdu, 1));
    case Err(f) =>
      if IsEndOfValue(f) {
        return Ok([]);
      }
      return Err(f);
  }

  method ReadValue(link: Link, handle: u16) returns (r: Result<bytes, Failure>)
    modifies link
    ensures Scan(r, link.next) == Read(link.policy, link.mtuAfter, old(link.next), handle)
  {
    var data := link.Request(ReadRequest(handle), READ_RSP);
    if data.Err? {
      return Err(data.error);
    }
    var value := From(data.value, 1);
    var mtu: int := link.mtu;
    ghost var whole := Accumulate(link.policy, link.next, handle, value, mtu);
    while |value| >= mtu - 1
      invariant whole == Accumulate(link.policy, link.next, handle, value, mtu)
      decreases 0x1_0000 - |value|
    {
      var blob := ReadBlob(link, handle, |value|);
      if blob.Err? {
        return Err(blob.error);
      }
      if blob.value == [] {
        break;
      }
      value := value + blob.value;
    }
    return Ok(value);
  }

  // A server that holds one constant value behind the handle, and whose MTU is mtus(k) at the k-th transaction.

  ghost predicate NotLong(answer: Outcome) {
    exists h: u16 :: answer == Data(ErrorPdu(READ_BLOB_REQ, h, ATT_ERR_ATTRIBUTE_NOT_LONG))
  }

  ghost predicate InvalidOffset(answer: Outcome) {
    exists h: u16 :: answer == Data(ErrorPdu(READ_BLOB_REQ, h, ATT_ERR_INVALID_OFFSET))
  }

  /**
   * From inside the value a blob is any non-empty piece of it; at its end it is empty, or one of two errors. A value
   * that one response can carry may be refused as not long at any offset.
   */
  ghost predicate HonestBlob(v: bytes, offset: nat, mtu: nat, answer: Outcome)
    requires offset <= |v|
  {
    if offset < |v| then
      || (&& answer.Data? && 2 <= |answer.pdu| <= 1 + |v| - offset
          && answer.pdu == [READ_BLOB_RSP] + v[offset..offset + |answer.pdu| - 1])
      || (|v| < mtu && NotLong(answer))
    else
      answer == Data([READ_BLOB_RSP]) || NotLong(answer) || InvalidOffset(answer)
  }

  /** From this transaction on. */
  ghost predicate HonestBlobs(policy: Policy, from: nat, handle: u16, v: bytes, mtus: nat -> nat) {
    forall k: nat, offset: u16 {:trigger HonestBlob(v, offset, mtus(k), policy(k, BlobRequest(handle, offset)))} ::
      from <= k && offset <= |v| ==> HonestBlob(v, offset, mtus(k), policy(k, BlobRequest(handle, offset)))
  }

  /** The first response carries as much of the value as the MTU the server has at that moment allows. */
  function FirstPart(v: bytes, serverMtu: nat): bytes
    requires serverMtu >= DEFAULT_MTU
  {
    v[..Min(|v|, serverMtu - 1)]
  }

  ghost predicate HoldsValue(policy: Policy, n: nat, handle: u16, v: bytes, mtus: nat -> nat) {
    && mtus(n) >= DEFAULT_MTU
    && |v| <= 0xFFFF
    && policy(n, ReadRequest(handle)) == Data([READ_RSP] + FirstPart(v, mtus(n)))
    && HonestBlobs(policy, n + 1, handle, v, mtus)
  }

  lemma {:induction false} EndOfValueBlob(policy: Policy, n: nat, handle: u16, offset: u16)
    requires var answer := policy(n, BlobRequest(handle, offset)); NotLong(answer) || InvalidOffset(answer)
    ensures Blob(policy, n, handle, offset).result == Ok([])
  {
    var answer := policy(n, BlobRequest(handle, offset));
    var h: u16, code: byte :| code in {ATT_ERR_INVALID_OFFSET, ATT_ERR_ATTRIBUTE_NOT_LONG}
                              && answer == Data(ErrorPdu(READ_BLOB_REQ, h, code));
    ErrorPduClassifies(READ_BLOB_REQ, h, code, READ_BLOB_RSP);
  }

  /** A blob is a piece of the value, and empty at its end; inside the value it is empty only if that is not long. */
  lemma {:induction false} BlobIsPiece(policy: Policy, n: nat, handle: u16, v: bytes, offset: u16, mtu: nat)
    requires offset <= |v| && HonestBlob(v, offset, mtu, policy(n, BlobRequest(handle, offset)))
    ensures var r := Blob(policy, n, handle, offset).result;
            && r.Ok?
            && (r.value == [] ==> offset == |v| || |v| < mtu)
            && (offset == |v| ==> r.value == [])
            && offset + |r.value| <= |v|
            && r.value == v[offset..offset + |r.value|]
  {
    var answer := policy(n, BlobRequest(handle, offset));
    if NotLong(answer) || InvalidOffset(answer) {
      EndOfValueBlob(policy, n, handle, offset);
    } else if offset < |v| {
      assert answer.pdu[1..] == v[offset..offset + |answer.pdu| - 1];
    }
  }

  /** The transactions that may still find the read inside the value: each before them brought at least one byte. */
  ghost predicate LongEnough(v: bytes, mtus: nat -> nat, from: nat, count: nat) {
    forall k :: from <= k < from + count ==> mtus(k) <= |v|
  }

  /** From any prefix that the loop continues, the whole value is accumulated, whatever the sizes of the pieces. */
  lemma {:induction false} AccumulateCompletes(
      policy: Policy, n: nat, handle: u16, v: bytes, mtus: nat -> nat, length: nat, mtu: nat)
    requires length <= |v| <= 0xFFFF && (length == |v| || length >= mtu - 1)
    requires HonestBlobs(policy, n, handle, v, mtus) && LongEnough(v, mtus, n, |v| - length)
    ensures Accumulate(policy, n, handle, v[..length], mtu).result == Ok(v)
    decreases |v| - length
  {
    if length >= mtu - 1 {
      BlobIsPiece(policy, n, handle, v, length, mtus(n));
      var blob := Blob(policy, n, handle, length);
      var more := blob.result.value;
      if more != [] {
        assert v[..length] + more == v[..length + |more|];
        AccumulateCompletes(policy, blob.next, handle, v, mtus, length + |more|, mtu);
      }
    }
    assert v[..|v|] == v;
  }

  /**
   * The first response carries the whole value; or the MTU noted is at most the one that sized it, and as long as
   * the read may be inside the value no response could carry it whole.
   */
  ghost predicate AlwaysComplete(v: bytes, mtus: nat -> nat, n: nat, noted: nat) {
    || |v| <= mtus(n) - 1
    || (noted <= mtus(n) && LongEnough(v, mtus, n + 1, |v| - (mtus(n) - 1)))
  }

  lemma {:induction false} ReadFirst(
      policy: Policy, mtuAfter: nat -> nat, n: nat, handle: u16, v: bytes, mtus: nat -> nat)
    requires HoldsValue(policy, n, handle, v, mtus)
    ensures Read(policy, mtuAfter, n, handle)
         == Accumulate(policy, n + 1, handle, FirstPart(v, mtus(n)), mtuAfter(n))
  {
    var pdu := [READ_RSP] + FirstPart(v, mtus(n));
    assert From(pdu, 1) == FirstPart(v, mtus(n));
  }

  lemma {:induction false} ReadCompletes(
      policy: Policy, mtuAfter: nat -> nat, n: nat, handle: u16, v: bytes, mtus: nat -> nat)
    requires HoldsValue(policy, n, handle, v, mtus) && AlwaysComplete(v, mtus, n, mtuAfter(n))
    ensures Read(policy, mtuAfter, n, handle).result == Ok(v)
  {
    ReadFirst(policy, mtuAfter, n, handle, v, mtus);
    AccumulateCompletes(policy, n + 1, handle, v, mtus, |FirstPart(v, mtus(n))|, mtuAfter(n));
  }

  /** The MTU noted is larger than the one that sized the response: the read stops with it. */
  lemma {:induction false} NotedTooLarge(
      policy: Policy, mtuAfter: nat -> nat, n: nat, handle: u16, v: bytes, mtus: nat -> nat)
    requires HoldsValue(policy, n, handle, v, mtus) && |v| > mtus(n) - 1 && mtuAfter(n) > mtus(n)
    ensures Read(policy, mtuAfter, n, handle) == Scan(Ok(v[..mtus(n) - 1]), n + 1)
  {
    ReadFirst(policy, mtuAfter, n, handle, v, mtus);
  }

  lemma {:induction false} BlobRequestCarries(handle: u16, offset: u16)
    ensures Field16(BlobRequest(handle, offset), 3) == offset
  {
    assert BlobRequest(handle, offset)[3..5] == LE16(offset);
    Field16Decodes(BlobRequest(handle, offset), 3, offset);
  }

  /** A server that gives the value a byte at a time, and calls it not long at a transaction after the n-th. */
  function StoppingServer(v: bytes, first: bytes, n: nat, stop: nat): Policy {
    (k: nat, request: bytes) =>
      if request != [] && request[0] == READ_REQ then Data(first)
      else if n < k == stop then Data(ErrorPdu(READ_BLOB_REQ, 0, ATT_ERR_ATTRIBUTE_NOT_LONG))
      else if Field16(request, 3) < |v| then Data([READ_BLOB_RSP, v[Field16(request, 3)]])
      else Data([READ_BLOB_RSP])
  }

  lemma {:induction false} StoppingServerHolds(n: nat, handle: u16, v: bytes, mtus: nat -> nat, stop: nat)
    requires |v| <= 0xFFFF && mtus(n) >= DEFAULT_MTU && (n < stop ==> |v| < mtus(stop))
    ensures HoldsValue(StoppingServer(v, [READ_RSP] + FirstPart(v, mtus(n)), n, stop), n, handle, v, mtus)
  {
    var policy := StoppingServer(v, [READ_RSP] + FirstPart(v, mtus(n)), n, stop);
    forall k: nat, offset: u16 | n < k && offset <= |v|
      ensures HonestBlob(v, offset, mtus(k), policy(k, BlobRequest(handle, offset)))
    {
      BlobRequestCarries(handle, offset);
    }
  }

  /** From the transaction after the n-th on: a byte at a time, and nothing more at the one that stops. */
  ghost predicate GivesBytes(policy: Policy, n: nat, handle: u16, v: bytes, stop: nat) {
    forall k: nat, offset: u16 {:trigger Blob(policy, k, handle, offset)} :: n < k <= stop && offset < |v| ==>
      Blob(policy, k, handle, offset) == Scan(Ok(if k == stop then [] else [v[offset]]), k + 1)
  }

  /** The read is still inside the value when the server stops it. */
  lemma {:induction false} StoppedShort(
      policy: Policy, n: nat, k: nat, handle: u16, v: bytes, stop: nat, length: nat, mtu: nat)
    requires |v| <= 0xFFFF && n < k <= stop && mtu - 1 <= length && length + (stop - k) < |v|
    requires GivesBytes(policy, n, handle, v, stop)
    ensures Accumulate(policy, k, handle, v[..length], mtu).result == Ok(v[..length + (stop - k)])
    decreases stop - k
  {
    AccumulateTurn(policy, k, handle, v[..length], mtu);
    if k < stop {
      assert v[..length] + [v[length]] == v[..length + 1];
      StoppedShort(policy, n, k + 1, handle, v, stop, length + 1, mtu);
    }
  }

  lemma {:induction false} AccumulateTurn(policy: Policy, n: nat, handle: u16, value: bytes, mtu: nat)
    requires mtu - 1 <= |value| && Blob(policy, n, handle, |value|).result.Ok?
    ensures Accumulate(policy, n, handle, value, mtu) ==
            var blob := Blob(policy, n, handle, |value|);
            if blob.result.value == [] then Scan(Ok(value), blob.next)
            else Accumulate(policy, blob.next, handle, value + blob.result.value, mtu)
  {
  }

  lemma {:induction false} StoppingBlob(
      n: nat, k: nat, handle: u16, v: bytes, first: bytes, stop: nat, offset: u16)
    requires n < k <= stop && offset < |v|
    ensures Blob(StoppingServer(v, first, n, stop), k, handle, offset)
         == Scan(Ok(if k == stop then [] else [v[offset]]), k + 1)
  {
    var policy := StoppingServer(v, first, n, stop);
    BlobRequestCarries(handle, offset);
    if k == stop {
      assert NotLong(policy(k, BlobRequest(handle, offset)));
      EndOfValueBlob(policy, k, handle, offset);
    } else {
      var pdu := [READ_BLOB_RSP, v[offset]];
      assert policy(k, BlobRequest(handle, offset)) == Data(pdu) && From(pdu, 1) == [v[offset]];
    }
  }

  lemma {:induction false} SomeServerStops(
      mtuAfter: nat -> nat, n: nat, handle: u16, v: bytes, mtus: nat -> nat) returns (policy: Policy)
    requires |v| <= 0xFFFF && mtus(n) >= DEFAULT_MTU && !AlwaysComplete(v, mtus, n, mtuAfter(n))
    ensures HoldsValue(policy, n, handle, v, mtus) && Read(policy, mtuAfter, n, handle).result != Ok(v)
  {
    var first, length := [READ_RSP] + FirstPart(v, mtus(n)), mtus(n) - 1;
    if mtuAfter(n) > mtus(n) {
      policy := StoppingServer(v, first, n, n);
      StoppingServerHolds(n, handle, v, mtus, n);
      NotedTooLarge(policy, mtuAfter, n, handle, v, mtus);
    } else {
      var stop :| n + 1 <= stop < n + 1 + (|v| - length) && mtus(stop) > |v|;
      policy := StoppingServer(v, first, n, stop);
      StoppingServerHolds(n, handle, v, mtus, stop);
      ReadFirst(policy, mtuAfter, n, handle, v, mtus);
      forall k: nat, offset: u16 | n < k <= stop && offset < |v|
        ensures Blob(policy, k, handle, offset) == Scan(Ok(if k == stop then [] else [v[offset]]), k + 1)
      {
        StoppingBlob(n, k, handle, v, first, stop, offset);
      }
      StoppedShort(policy, n, n + 1, handle, v, stop, length, mtuAfter(n));
    }
  }

  ghost predicate CompleteForAll(mtuAfter: nat -> nat, n: nat, handle: u16, v: bytes, mtus: nat -> nat) {
    forall policy: Policy ::
      HoldsValue(policy, n, handle, v, mtus) ==> Read(policy, mtuAfter, n, handle).result == Ok(v)
  }

  /**
   * read() returns the whole value from every server that holds it, with these MTUs, exactly when the first response
   * carries it whole, or the MTU noted is not larger than the one that sized that response and the server never has
   * reason to call the value not long while the read may be inside it.
   */
  lemma {:induction false} ReadIsCompleteIff(
      mtuAfter: nat -> nat, n: nat, handle: u16, v: bytes, mtus: nat -> nat)
    requires |v| <= 0xFFFF && mtus(n) >= DEFAULT_MTU
    ensures CompleteForAll(mtuAfter, n, handle, v, mtus) <==> AlwaysComplete(v, mtus, n, mtuAfter(n))
  {
    if AlwaysComplete(v, mtus, n, mtuAfter(n)) {
      forall policy: Policy | HoldsValue(policy, n, handle, v, mtus)
        ensures Read(policy, mtuAfter, n, handle).result == Ok(v)
      {
        ReadCompletes(policy, mtuAfter, n, handle, v, mtus);
      }
    } else {
      var policy := SomeServerStops(mtuAfter, n, handle, v, mtus);
    }
  }

  /** A peer MTU exchange between the server's first response and its consumption truncates the value. */
  lemma {:induction false} RaisedMtuTruncates(
      policy: Policy, mtuAfter: nat -> nat, handle: u16, v: bytes, mtus: nat -> nat)
    requires |v| == 66 && HoldsValue(policy, 0, handle, v, mtus)
    requires mtus(0) == DEFAULT_MTU && mtuAfter(0) == PREFERRED_MTU
    ensures Read(policy, mtuAfter, 0, handle).result == Ok(v[..22])
  {
    NotedTooLarge(policy, mtuAfter, 0, handle, v, mtus);
  }

  /** So does one after the snapshot: the server then calls the value not long, which the code takes for its end. */
  lemma {:induction false} NotLongTruncates(
      policy: Policy, mtuAfter: nat -> nat, handle: u16, v: bytes, mtus: nat -> nat)
    requires |v| == 66 && HoldsValue(policy, 0, handle, v, mtus)
    requires mtus(0) == mtuAfter(0) == DEFAULT_MTU && mtus(1) == PREFERRED_MTU
    requires NotLong(policy(1, BlobRequest(handle, 22)))
    ensures Read(policy, mtuAfter, 0, handle).result == Ok(v[..22])
  {
    ReadFirst(policy, mtuAfter, 0, handle, v, mtus);
    EndOfValueBlob(policy, 1, handle, 22);
  }

  /** Against any peer the loop ends: the offset grows with every blob and must fit two bytes. */
  lemma {:induction false} ReadTerminates(policy: Policy, n: nat, handle: u16, value: bytes, mtu: nat)
    ensures n <= Accumulate(policy, n, handle, value, mtu).next <= n + Max(0, 0x1_0000 - |value|)
    decreases 0x1_0000 - |value|
  {
    if |value| >= mtu - 1 {
      var blob := Blob(policy, n, handle, |value|);
      if blob.result.Ok? && blob.result.value != [] {
        ReadTerminates(policy, blob.next, handle, value + blob.result.value, mtu);
      }
    }
  }

  // What a read costs when both sides keep one MTU.

  function CeilDiv(a: nat, b: nat): nat
    requires b > 0
  {
    (a + b - 1) / b
  }

  lemma {:induction false} CeilDivStep(a: nat, b: nat)
    requires b > 0
    ensures a == 0 ==> CeilDiv(a, b) == 0
    ensures 0 < a <= b ==> CeilDiv(a, b) == 1
    ensures a >= b ==> CeilDiv(a, b) == 1 + CeilDiv(a - b, b)
  {
    if a == 0 {
      DivUnique(b - 1, b, 0, b - 1);
    } else if a <= b {
      DivUnique(a + b - 1, b, 1, a - 1);
    }
    if a >= b {
      var q, r := (a - 1) / b, (a - 1) % b;
      assert (q + 1) * b == q * b + b;
      DivUnique(a + b - 1, b, q + 1, r);
    }
  }

  lemma {:induction false} CostStep(rest: nat, unit: nat)
    requires unit > 0
    ensures CeilDiv(rest, unit) == if rest == 0 then 0 else 1 + CeilDiv(rest - Min(unit, rest), unit)
  {
    CeilDivStep(rest, unit);
    CeilDivStep(0, unit);
  }

  lemma {:induction false} DivUnique(a: int, b: int, q: int, r: int)
    requires b > 0 && a == q * b + r && 0 <= r < b
    ensures a / b == q
  {
    var q', r' := a / b, a % b;
    var d := q - q';
    assert d * b == r' - r by {
      assert a == q' * b + r';
    }
    if d > 0 {
      AtLeastOnce(d, b);
    } else if d < 0 {
      AtLeastOnce(-d, b);
    }
  }

  lemma {:induction false} AtLeastOnce(k: int, b: int)
    requires k >= 1 && b > 0
    ensures k * b >= b
  {
    assert k * b == (k - 1) * b + b;
  }

  /** Every blob is as long as the MTU allows. */
  function FullBlob(v: bytes, offset: nat, mtu: nat): Outcome
    requires offset <= |v| && mtu >= DEFAULT_MTU
  {
    Data([READ_BLOB_RSP] + v[offset..offset + Min(mtu - 1, |v| - offset)])
  }

  ghost predicate FullBlobs(policy: Policy, handle: u16, v: bytes, mtu: nat) {
    mtu >= DEFAULT_MTU &&
    forall k: nat, offset: u16 {:trigger policy(k, BlobRequest(handle, offset))} ::
      offset < |v| ==> policy(k, BlobRequest(handle, offset)) == FullBlob(v, offset, mtu)
  }

  lemma {:induction false} FullBlobGets(policy: Policy, n: nat, handle: u16, v: bytes, offset: u16, mtu: nat)
    requires offset < |v| && FullBlobs(policy, handle, v, mtu)
    ensures Blob(policy, n, handle, offset) == Scan(Ok(v[offset..offset + Min(mtu - 1, |v| - offset)]), n + 1)
  {
    var pdu := FullBlob(v, offset, mtu).pdu;
    assert pdu[1..] == v[offset..offset + Min(mtu - 1, |v| - offset)];
    assert policy(n, BlobRequest(handle, offset)) == Data(pdu);
  }

  lemma {:induction false} AccumulateFullBlob(
      policy: Policy, n: nat, handle: u16, v: bytes, length: nat, mtu: nat)
    requires mtu - 1 <= length < |v| <= 0xFFFF && FullBlobs(policy, handle, v, mtu)
    ensures Accumulate(policy, n, handle, v[..length], mtu)
         == Accumulate(policy, n + 1, handle, v[..length + Min(mtu - 1, |v| - length)], mtu)
  {
    var size := Min(mtu - 1, |v| - length);
    FullBlobGets(policy, n, handle, v, length, mtu);
    assert v[..length] + v[length..length + size] == v[..length + size];
  }

  lemma {:induction false} AccumulateAtEnd(policy: Policy, n: nat, handle: u16, v: bytes, mtu: nat)
    requires mtu - 1 <= |v| <= 0xFFFF && HonestBlobs(policy, n, handle, v, (k: nat) => mtu)
    ensures Accumulate(policy, n, handle, v, mtu).next == n + 1
  {
    assert HonestBlob(v, |v|, ((k: nat) => mtu)(n), policy(n, BlobRequest(handle, |v|)));
    BlobIsPiece(policy, n, handle, v, |v|, mtu);
  }

  lemma {:induction false} AccumulateCost(policy: Policy, n: nat, handle: u16, v: bytes, length: nat, mtu: nat)
    requires mtu - 1 <= length <= |v| <= 0xFFFF
    requires FullBlobs(policy, handle, v, mtu) && HonestBlobs(policy, n, handle, v, (k: nat) => mtu)
    ensures Accumulate(policy, n, handle, v[..length], mtu).next == n + 1 + CeilDiv(|v| - length, mtu - 1)
    decreases |v| - length
  {
    var rest, unit := |v| - length, mtu - 1;
    CostStep(rest, unit);
    if length < |v| {
      AccumulateFullBlob(policy, n, handle, v, length, mtu);
      AccumulateCost(policy, n + 1, handle, v, length + Min(unit, rest), mtu);
      assert |v| - (length + Min(unit, rest)) == rest - Min(unit, rest);
    } else {
      assert v[..length] == v;
      AccumulateAtEnd(policy, n, handle, v, mtu);
    }
  }

  /** A value that fills the first response costs ceil(L / (m - 1)) Read Blob requests, a shorter one none. */
  lemma {:induction false} ReadCost(
      policy: Policy, mtuAfter: nat -> nat, n: nat, handle: u16, v: bytes, mtu: nat)
    requires HoldsValue(policy, n, handle, v, (k: nat) => mtu) && FullBlobs(policy, handle, v, mtu)
    requires mtuAfter(n) == mtu
    ensures Read(policy, mtuAfter, n, handle).next
         == n + 1 + if |v| < mtu - 1 then 0 else CeilDiv(|v|, mtu - 1)
  {
    var first := FirstPart(v, mtu);
    var pdu := [READ_RSP] + first;
    assert From(pdu, 1) == first;
    assert Read(policy, mtuAfter, n, handle) == Accumulate(policy, n + 1, handle, first, mtu);
    if |v| >= mtu - 1 {
      AccumulateCost(policy, n + 1, handle, v, mtu - 1, mtu);
      CeilDivStep(|v|, mtu - 1);
    }
  }
}

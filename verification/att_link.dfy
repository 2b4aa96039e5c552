/** The request loops of the ATT client, in place, over the transactions of one coroutine. */
module AttLink {
  import opened Bytes
  import opened Seqs
  import opened Att
  import opened Uuids
  import opened Gatt
  import opened Paging

  /** A descriptor list from Find Information entries. */
  function NamedEntry(e: Entry): GattDescriptor {
    GattDescriptor(e.handle, UuidString(e.value))
  }

  function Named(scan: Scan<seq<Entry>>): Scan<seq<GattDescriptor>> {
    match scan.result
    case Ok(entries) => Scan(Ok(Map(NamedEntry, entries)), scan.next)
    case Err(f) => Scan(Err(f), scan.next)
  }

  ghost predicate HaveUuids(entries: seq<Entry>) {
    forall e :: e in entries ==> |e.value| in {2, 16}
  }

  /** Find Information entries always carry a two- or sixteen-byte UUID. */
  lemma {:induction false} InfoEntriesHaveUuids(length: nat, list: bytes)
    requires length in {4, 18}
    ensures HaveUuids(Entries(Info, length, list))
    decreases |list|
  {
    if |list| >= length {
      InfoEntriesHaveUuids(length, list[length..]);
    }
  }

  lemma {:induction false} InfoTurnHasUuids(policy: Policy, n: nat, start: u16, end: u16)
    ensures match TakeTurn(Info, policy, n, start, end, [])
            case Stop(Ok(page)) => HaveUuids(page)
            case Stop(Err(_)) => true
            case Continue(page, _) => HaveUuids(page)
  {
    match Transact(policy, n, Request(Info, start, end, []), Info.ResponseOpcode())
    case Err(_) =>
    case Ok(data) =>
      if |data| >= 2 {
        InfoEntriesHaveUuids(EntryLength(Info, data[1]), data[2..]);
      }
  }

  /** So uuid_from_bytes never raises in find_information, whatever the peer sends. */
  lemma {:induction false} InfoPagesHaveUuids(policy: Policy, n: nat, start: nat, end: u16)
    ensures var r := Pages(Info, policy, n, start, end, []).result;
            r.Ok? ==> HaveUuids(r.value)
    decreases end + 1 - start
  {
    if start <= end {
      InfoTurnHasUuids(policy, n, start, end);
      var turn := TakeTurn(Info, policy, n, start, end, []);
      if turn.Continue? {
        InfoPagesHaveUuids(policy, n + 1, turn.last as nat + 1, end);
      }
    }
  }

  /** The entries before i make up the page. */
  ghost predicate Decoded(kind: Kind, length: nat, list: bytes, i: nat, page: seq<Entry>)
    requires length > 0
  {
    i <= |list| && page + Entries(kind, length, list[i..]) == Entries(kind, length, list)
  }

  lemma {:induction false} EntriesUnfold(kind: Kind, length: nat, list: bytes, i: nat, e: Entry, page: seq<Entry>)
    requires length > 0 && i + length <= |list| && e == DecodeEntry(kind, list[i..i + length])
    requires Decoded(kind, length, list, i, page)
    ensures Decoded(kind, length, list, i + length, page + [e])
  {
    var rest := list[i..];
    assert rest[..length] == list[i..i + length] && rest[length..] == list[i + length..];
    assert Entries(kind, length, rest) == [e] + Entries(kind, length, list[i + length..]);
    Assoc(page, [e], Entries(kind, length, list[i + length..]));
  }

  lemma {:induction false} EntriesEnd(kind: Kind, length: nat, list: bytes, i: nat, page: seq<Entry>)
    requires length > 0 && Decoded(kind, length, list, i, page) && i + length > |list|
    ensures page == Entries(kind, length, list)
  {
    assert Entries(kind, length, list[i..]) == [];
    assert page + [] == page;
  }

  /** A loop that has collected some results still has to yield the pages from here on. */
  ghost predicate Remaining(kind: Kind, policy: Policy, n: nat, from: nat, end: u16, typ: bytes,
                            results: seq<Entry>, whole: Scan<seq<Entry>>) {
    whole == Prepend(results, Pages(kind, policy, n, from, end, typ))
  }

  lemma {:induction false} TurnAdvances(kind: Kind, policy: Policy, n: nat, from: u16, end: u16, typ: bytes,
                     turn: Turn, results: seq<Entry>, whole: Scan<seq<Entry>>)
    requires from <= end && turn == TakeTurn(kind, policy, n, from, end, typ)
    requires Remaining(kind, policy, n, from, end, typ, results, whole)
    ensures turn.Stop? && turn.result.Err? ==> whole == Scan(turn.result, n + 1)
    ensures turn.Stop? && turn.result.Ok? ==> whole == Scan(Ok(results + turn.result.value), n + 1)
    ensures turn.Continue? ==>
              Remaining(kind, policy, n + 1, turn.last as nat + 1, end, typ, results + turn.page, whole)
  {
    if turn.Continue? {
      var rest := Pages(kind, policy, n + 1, turn.last as nat + 1, end, typ);
      if rest.result.Ok? {
        assert results + (turn.page + rest.result.value) == results + turn.page + rest.result.value;
      }
    }
  }

  lemma {:induction false} RangeExhausted(kind: Kind, policy: Policy, n: nat, from: nat, end: u16, typ: bytes,
                       results: seq<Entry>, whole: Scan<seq<Entry>>)
    requires from > end && Remaining(kind, policy, n, from, end, typ, results, whole)
    ensures whole == Scan(Ok(results), n)
  {
    PrependUnits(results, whole, n);
  }

  lemma {:induction false} PrependUnits<T>(xs: seq<T>, scan: Scan<seq<T>>, next: nat)
    ensures Prepend([], scan) == scan
    ensures Prepend(xs, Scan(Ok([]), next)) == Scan(Ok(xs), next)
  {
    if scan.result.Ok? {
      assert [] + scan.result.value == scan.result.value;
    }
    assert xs + [] == xs;
  }

  /** The transactions of one coroutine: the n-th ends as the policy says, and leaves the MTU at mtuAfter(n). */
  class Link {
    const policy: Policy
    const mtuAfter: nat -> nat
    var next: nat
    var mtu: nat

    constructor (policy: Policy, mtuAfter: nat -> nat)
      ensures this.policy == policy && this.mtuAfter == mtuAfter && next == 0 && mtu == DEFAULT_MTU
    {
      this.policy, this.mtuAfter := policy, mtuAfter;
      next, mtu := 0, DEFAULT_MTU;
    }

    method Request(payload: bytes, expected: byte) returns (r: Result<bytes, Failure>)
      modifies this
      ensures next == old(next) + 1 && mtu == mtuAfter(old(next))
      ensures r == Transact(policy, old(next), payload, expected)
    {
      r := Classify(policy(next, payload), expected);
      mtu := mtuAfter(next);
      next := next + 1;
    }

    /** The loop over range(0, len(entries) - length + 1, length). */
    method ParseEntries(kind: Kind, length: nat, entries: bytes, start: u16) returns (page: seq<Entry>, last: u16)
      requires length > 0
      ensures page == Entries(kind, length, entries) && last == LastOf(page, start)
    {
      page, last := [], start;
      var i := 0;
      while i < |entries| - length + 1
        invariant 0 <= i <= |entries|
        invariant Decoded(kind, length, entries, i, page)
        invariant last == LastOf(page, start)
      {
        var e := DecodeEntry(kind, entries[i..i + length]);
        EntriesUnfold(kind, length, entries, i, e, page);
        page := page + [e];
        last := e.last;
        i := i + length;
      }
      EntriesEnd(kind, length, entries, i, page);
    }

    /** One turn of a paging loop, after the request: decode the page and see where to go on. */
    method NextPage(kind: Kind, start: u16, end: u16, typ: bytes) returns (turn: Turn)
      modifies this
      ensures next == old(next) + 1
      ensures turn == TakeTurn(kind, policy, old(next), start, end, typ)
    {
      var r := Request(Gatt.Request(kind, start, end, typ), kind.ResponseOpcode());
      match r
      case Err(f) =>
        if IsNotFound(f) {
          return Stop(Ok([]));
        }
        return Stop(Err(f));
      case Ok(data) =>
        if |data| < 2 {
          return Stop(Err(IndexError));
        }
        var length := EntryLength(kind, data[1]);
        if length == 0 {
          return Stop(Err(ValueError));
        }
        var page, last := ParseEntries(kind, length, data[2..], start);
        if last >= 0xFFFF || last < start {
          return Stop(Ok(page));
        }
        return Continue(page, last);
    }

    /** read_by_group_type and read_by_type: page until the range is exhausted or the peer reports nothing more. */
    method ReadPages(kind: Kind, start: u16, end: u16, typ: bytes) returns (r: Result<seq<Entry>, Failure>)
      modifies this
      ensures Scan(r, next) == Pages(kind, policy, old(next), start, end, typ)
    {
      ghost var whole := Pages(kind, policy, next, start, end, typ);
      PrependUnits([], whole, next);
      r := CollectPages(kind, start, end, typ, whole);
    }

    method CollectPages(kind: Kind, start: u16, end: u16, typ: bytes, ghost whole: Scan<seq<Entry>>)
      returns (r: Result<seq<Entry>, Failure>)
      requires Remaining(kind, policy, next, start, end, typ, [], whole)
      modifies this
      ensures Scan(r, next) == whole
    {
      var results: seq<Entry> := [];
      var from: nat := start;
      while from <= end
        invariant Remaining(kind, policy, next, from, end, typ, results, whole)
        decreases end + 1 - from
      {
        var turn := AdvancePages(kind, from, end, typ, results, whole);
        if turn.Stop? {
          return if turn.result.Ok? then Ok(results + turn.result.value) else turn.result;
        }
        results := results + turn.page;
        from := turn.last as nat + 1;
      }
      RangeExhausted(kind, policy, next, from, end, typ, results, whole);
      return Ok(results);
    }

    method AdvancePages(kind: Kind, from: u16, end: u16, typ: bytes,
                        ghost results: seq<Entry>, ghost whole: Scan<seq<Entry>>)
      returns (turn: Turn)
      requires from <= end && Remaining(kind, policy, next, from, end, typ, results, whole)
      modifies this
      ensures turn.Continue? ==> from <= turn.last
      ensures turn.Stop? && turn.result.Err? ==> whole == Scan(turn.result, next)
      ensures turn.Stop? && turn.result.Ok? ==> whole == Scan(Ok(results + turn.result.value), next)
      ensures turn.Continue? ==>
                Remaining(kind, policy, next, turn.last as nat + 1, end, typ, results + turn.page, whole)
    {
      turn := NextPage(kind, from, end, typ);
      TurnAdvances(kind, policy, next - 1, from, end, typ, turn, results, whole);
    }

    /** The entries with their UUIDs as strings. */
    method NameEntries(list: seq<Entry>) returns (results: seq<GattDescriptor>)
      requires HaveUuids(list)
      ensures results == Map(NamedEntry, list)
    {
      results := [];
      for i := 0 to |list|
        invariant results == Map(NamedEntry, list[..i])
      {
        var e := list[i];
        DecodesToWireValue(e.value);
        MapConcat(NamedEntry, list[..i], [e]);
        assert list[..i + 1] == list[..i] + [e];
        results := results + [GattDescriptor(e.handle, UuidFromBytes(e.value).value)];
      }
      assert list[..|list|] == list;
    }

    /** find_information: the same loop, with every entry's UUID as a string. */
    method FindInformation(start: u16, end: u16) returns (r: Result<seq<GattDescriptor>, Failure>)
      modifies this
      ensures Scan(r, next) == Named(Pages(Info, policy, old(next), start, end, []))
    {
      InfoPagesHaveUuids(policy, next, start, end);
      var entries := ReadPages(Info, start, end, []);
      match entries
      case Err(f) => return Err(f);
      case Ok(list) =>
        var results := NameEntries(list);
        return Ok(results);
    }
  }
}

/** The three paging loops of discovery, against any peer and against a conformant one. */
module Paging {
  import opened Bytes
  import opened Seqs
  import opened Att
  import opened Gatt

  /** A decoded entry: its handle, the handle paging resumes after, and the rest. */
  datatype Entry = Entry(handle: u16, last: u16, value: bytes)

  /** What a part of discovery ends with, and the number of transactions used on the link so far. */
  datatype Scan<+T> = Scan(result: Result<T, Failure>, next: nat)

  function Transact(policy: Policy, n: nat, request: bytes, expected: byte): Result<bytes, Failure> {
    Classify(policy(n, request), expected)
  }

  function DecodeEntry(kind: Kind, e: bytes): Entry {
    match kind
    case Groups => Entry(Field16(e, 0), Field16(e, 2), From(e, 4))
    case _ => Entry(Field16(e, 0), Field16(e, 0), From(e, 2))
  }

  /** The whole entries at the front of the list; a trailing fragment is ignored. */
  function Entries(kind: Kind, length: nat, list: bytes): seq<Entry>
    requires length > 0
    decreases |list|
  {
    if |list| < length then []
    else [DecodeEntry(kind, list[..length])] + Entries(kind, length, list[length..])
  }

  function EntryLength(kind: Kind, header: byte): nat {
    if kind.Info? then (if header == 1 then 4 else 18) else header
  }

  /** A response without a header byte is an IndexError, an entry length of zero a ValueError of range(). */
  function ParsePage(kind: Kind, data: bytes): Result<seq<Entry>, Failure> {
    if |data| < 2 then Err(IndexError)
    else if EntryLength(kind, data[1]) == 0 then Err(ValueError)
    else Ok(Entries(kind, EntryLength(kind, data[1]), data[2..]))
  }

  function LastOf(page: seq<Entry>, start: u16): u16 {
    if page == [] then start else page[|page| - 1].last
  }

  function Prepend<T>(xs: seq<T>, scan: Scan<seq<T>>): Scan<seq<T>> {
    match scan.result
    case Ok(ys) => Scan(Ok(xs + ys), scan.next)
    case Err(_) => scan
  }

  predicate IsNotFound(f: Failure) {
    f.AttError? && f.code == ATT_ERR_ATTRIBUTE_NOT_FOUND
  }

  /** One turn of a paging loop: it ends the loop, or goes on behind the last entry of its page. */
  datatype Turn = Stop(result: Result<seq<Entry>, Failure>) | Continue(page: seq<Entry>, last: u16)

  function TakePage(page: seq<Entry>, start: u16): (turn: Turn)
    ensures turn.Continue? ==> start <= turn.last < 0xFFFF
  {
    var last := LastOf(page, start);
    if last >= 0xFFFF || last < start then Stop(Ok(page)) else Continue(page, last)
  }

  function TakeTurn(kind: Kind, policy: Policy, n: nat, start: u16, end: u16, typ: bytes): (turn: Turn)
    ensures turn.Continue? ==> start <= turn.last < 0xFFFF
  {
    match Transact(policy, n, Request(kind, start, end, typ), kind.ResponseOpcode())
    case Err(f) => Stop(if IsNotFound(f) then Ok([]) else Err(f))
    case Ok(data) =>
      match ParsePage(kind, data)
      case Err(f) => Stop(Err(f))
      case Ok(page) => TakePage(page, start)
  }

  /** The pages from start to end, concatenated. Start strictly increases, whatever the peer answers. */
  function Pages(kind: Kind, policy: Policy, n: nat, start: nat, end: u16, typ: bytes): Scan<seq<Entry>>
    decreases end + 1 - start
  {
    if start > end then Scan(Ok([]), n)
    else
      match TakeTurn(kind, policy, n, start, end, typ)
      case Stop(result) => Scan(result, n + 1)
      case Continue(page, last) => Prepend(page, Pages(kind, policy, n + 1, last + 1, end, typ))
  }

  /** Against any peer, at most one request per handle of the range is sent. */
  lemma {:induction false} RequestsBounded(kind: Kind, policy: Policy, n: nat, start: nat, end: u16, typ: bytes)
    ensures n <= Pages(kind, policy, n, start, end, typ).next <= n + Max(0, end + 1 - start)
    decreases end + 1 - start
  {
    if start <= end {
      var turn := TakeTurn(kind, policy, n, start, end, typ);
      if turn.Continue? {
        RequestsBounded(kind, policy, n + 1, turn.last as nat + 1, end, typ);
      }
    }
  }

  // A page of a conformant server decodes to its attributes.

  function EntryOf(kind: Kind, a: Attribute): Entry {
    match kind
    case Groups => Entry(a.handle, a.groupEnd, a.value)
    case ByType => Entry(a.handle, a.handle, a.value)
    case Info => Entry(a.handle, a.handle, a.typ)
  }

  function EntryMaker(kind: Kind): Attribute -> Entry {
    a => EntryOf(kind, a)
  }

  function EntriesOf(kind: Kind, page: seq<Attribute>): seq<Entry> {
    Map(EntryMaker(kind), page)
  }

  lemma {:induction false} EntryOfEncode(kind: Kind, a: Attribute)
    ensures DecodeEntry(kind, Encode(kind, a)) == EntryOf(kind, a)
  {
    var e := Encode(kind, a);
    assert e[0..2] == LE16(a.handle);
    Field16Decodes(e, 0, a.handle);
    if kind.Groups? {
      assert e[2..4] == LE16(a.groupEnd);
      Field16Decodes(e, 2, a.groupEnd);
    }
  }

  lemma {:induction false} EntriesOfEncodeAll(kind: Kind, page: seq<Attribute>, length: nat)
    requires Uniform(kind, page, length) && length > 0
    ensures Entries(kind, length, EncodeAll(kind, page)) == EntriesOf(kind, page)
  {
    if page != [] {
      var list, first := EncodeAll(kind, page), Encode(kind, page[0]);
      assert page[0] in page;
      assert list[..length] == first && list[length..] == EncodeAll(kind, page[1..]);
      EntryOfEncode(kind, page[0]);
      EntriesOfEncodeAll(kind, page[1..], length);
    }
  }

  lemma {:induction false} PageDecodes(kind: Kind, matching: seq<Attribute>, k: nat, pdu: bytes)
    requires IsPage(kind, matching, k, pdu)
    requires kind.Info? ==> forall a :: a in matching ==> IsWireUuid(a.typ)
    ensures Classify(Data(pdu), kind.ResponseOpcode()) == Ok(pdu)
    ensures ParsePage(kind, pdu) == Ok(EntriesOf(kind, matching[..k]))
  {
    assert matching[0] in matching[..k];
    var length := |Encode(kind, matching[0])|;
    assert matching[0] in matching;
    assert EntryLength(kind, Header(kind, length)) == length;
    assert pdu[2..] == EncodeAll(kind, matching[..k]);
    EntriesOfEncodeAll(kind, matching[..k], length);
  }

  // What is left to match after a page.

  predicate IsGroup(a: Attribute) {
    SameUuid(a.typ, PRIMARY_SERVICE)
  }

  /** Service groups are not empty and do not overlap; the loop over groups resumes behind the end of a group. */
  ghost predicate DisjointGroups(kind: Kind, attributes: seq<Attribute>) {
    kind.Groups? ==>
      && (forall i :: 0 <= i < |attributes| && IsGroup(attributes[i]) ==>
            attributes[i].handle <= attributes[i].groupEnd)
      && (forall i, j :: 0 <= i < j < |attributes| && IsGroup(attributes[i]) && IsGroup(attributes[j]) ==>
            attributes[i].groupEnd < attributes[j].handle)
  }

  function ResumeAfter(kind: Kind, a: Attribute): u16 {
    EntryOf(kind, a).last
  }

  ghost predicate Increasing(kind: Kind, matching: seq<Attribute>) {
    && (forall i :: 0 <= i < |matching| ==> matching[i].handle <= ResumeAfter(kind, matching[i]))
    && (forall i, j :: 0 <= i < j < |matching| ==> ResumeAfter(kind, matching[i]) < matching[j].handle)
  }

  lemma {:induction false} IncreasingCons(kind: Kind, head: Attribute, rest: seq<Attribute>)
    requires Increasing(kind, rest) && head.handle <= ResumeAfter(kind, head)
    requires forall a :: a in rest ==> ResumeAfter(kind, head) < a.handle
    ensures Increasing(kind, [head] + rest)
  {
  }

  lemma {:induction false} MatchingIncreases(kind: Kind, start: nat, end: nat, attributes: seq<Attribute>)
    requires Ordered(attributes) && DisjointGroups(kind, attributes)
    ensures Increasing(kind, Matching(kind, start, end, attributes))
  {
    if attributes != [] {
      var head, tail := attributes[0], attributes[1..];
      assert forall i :: 0 <= i < |tail| ==> tail[i] == attributes[i + 1];
      MatchingIncreases(kind, start, end, tail);
      FilterMembers(Matcher(kind, start, end), tail);
      if Matches(kind, start, end, head) {
        IncreasingCons(kind, head, Matching(kind, start, end, tail));
      } else {
        assert Matching(kind, start, end, attributes) == Matching(kind, start, end, tail);
      }
    }
  }

  lemma {:induction false} IncreasingSplits(kind: Kind, m: seq<Attribute>, k: nat, last: nat)
    requires Increasing(kind, m) && 1 <= k <= |m| && last == ResumeAfter(kind, m[k - 1])
    ensures forall a :: a in m[..k] ==> a.handle <= last
    ensures forall a :: a in m[k..] ==> last < a.handle
  {
  }

  function Beyond(last: nat): Attribute -> bool {
    (a: Attribute) => last < a.handle
  }

  lemma {:induction false} DropMatches(m: seq<Attribute>, k: nat, last: nat)
    requires k <= |m|
    requires forall a :: a in m[..k] ==> a.handle <= last
    requires forall a :: a in m[k..] ==> last < a.handle
    ensures Filter(Beyond(last), m) == m[k..]
  {
    assert m == m[..k] + m[k..];
    FilterConcat(Beyond(last), m[..k], m[k..]);
    FilterNone(Beyond(last), m[..k]);
    FilterAll(Beyond(last), m[k..]);
  }

  /** Resuming after the k-th match leaves exactly the matches behind it. */
  lemma {:induction false} MatchingAfter(
      kind: Kind, start: nat, end: nat, attributes: seq<Attribute>, k: nat, last: nat)
    requires Ordered(attributes) && DisjointGroups(kind, attributes)
    requires 1 <= k <= |Matching(kind, start, end, attributes)|
    requires last == ResumeAfter(kind, Matching(kind, start, end, attributes)[k - 1])
    ensures start <= last
    ensures Matching(kind, last + 1, end, attributes) == Matching(kind, start, end, attributes)[k..]
  {
    var m := Matching(kind, start, end, attributes);
    MatchingIncreases(kind, start, end, attributes);
    IncreasingSplits(kind, m, k, last);
    FilterMembers(Matcher(kind, start, end), attributes);
    assert m[k - 1] in m;
    FilterTwice(Matcher(kind, start, end), Beyond(last), Matcher(kind, last + 1, end), attributes);
    DropMatches(m, k, last);
  }

  /** A turn against a conformant server: the end of the list, or the entries of some first part of it. */
  lemma {:induction false} ConformantTurn(
      kind: Kind, policy: Policy, n: nat, start: u16, end: u16, attributes: seq<Attribute>)
      returns (k: nat)
    requires Conformant(attributes, policy) && 1 <= start <= end
    requires kind.Info? ==> forall a :: a in attributes ==> IsWireUuid(a.typ)
    ensures var m := Matching(kind, start, end, attributes);
            var turn := TakeTurn(kind, policy, n, start, end, kind.RequestType());
            if m == [] then turn == Stop(Ok([]))
            else 1 <= k <= |m| && turn == TakePage(EntriesOf(kind, m[..k]), start)
  {
    var matching := Matching(kind, start, end, attributes);
    var answer := policy(n, Request(kind, start, end, kind.RequestType()));
    assert ConformantAnswer(attributes, kind, start, end, answer);
    if matching == [] {
      var h: u16 :| answer.pdu == ErrorPdu(kind.RequestOpcode(), h, ATT_ERR_ATTRIBUTE_NOT_FOUND);
      ErrorPduClassifies(kind.RequestOpcode(), h, ATT_ERR_ATTRIBUTE_NOT_FOUND, kind.ResponseOpcode());
      k := 0;
    } else {
      k :| IsPage(kind, matching, k, answer.pdu);
      FilterMembers(Matcher(kind, start, end), attributes);
      PageDecodes(kind, matching, k, answer.pdu);
    }
  }

  lemma {:induction false} LastEntry(kind: Kind, page: seq<Attribute>, start: u16)
    requires page != []
    ensures LastOf(EntriesOf(kind, page), start) == ResumeAfter(kind, page[|page| - 1])
  {
    MapAt(EntryMaker(kind), page, |page| - 1);
  }

  /** Where the loop goes on after the first k matches, and what is left there. */
  lemma {:induction false} Resumption(kind: Kind, start: u16, end: u16, attributes: seq<Attribute>, k: nat, last: nat)
    requires Ordered(attributes) && DisjointGroups(kind, attributes)
    requires 1 <= k <= |Matching(kind, start, end, attributes)|
    requires last == LastOf(EntriesOf(kind, Matching(kind, start, end, attributes)[..k]), start)
    ensures start <= last
    ensures Matching(kind, last + 1, end, attributes) == Matching(kind, start, end, attributes)[k..]
    ensures last == 0xFFFF ==> Matching(kind, start, end, attributes)[k..] == []
  {
    LastEntry(kind, Matching(kind, start, end, attributes)[..k], start);
    MatchingAfter(kind, start, end, attributes, k, last);
    if last == 0xFFFF {
      FilterNone(Matcher(kind, last + 1, end), attributes);
    }
  }

  /** A turn whose page is the first part of a list, followed by turns that yield the rest of it. */
  lemma {:induction false} TurnAppends(kind: Kind, policy: Policy, n: nat, start: u16, end: u16, typ: bytes,
                    page: seq<Entry>, rest: seq<Entry>, cost: nat)
    requires start <= end && TakeTurn(kind, policy, n, start, end, typ) == TakePage(page, start)
    requires start <= LastOf(page, start)
    requires LastOf(page, start) == 0xFFFF ==> rest == []
    requires LastOf(page, start) < 0xFFFF ==>
               var scan := Pages(kind, policy, n + 1, LastOf(page, start) as nat + 1, end, typ);
               scan.result == Ok(rest) && scan.next <= n + 1 + cost
    ensures Pages(kind, policy, n, start, end, typ).result == Ok(page + rest)
    ensures Pages(kind, policy, n, start, end, typ).next <= n + 1 + cost
  {
    assert page + [] == page;
  }

  /** What the loop is to yield: the matching attributes in order, within one request more than there are. */
  ghost predicate Exact(kind: Kind, scan: Scan<seq<Entry>>, n: nat, matching: seq<Attribute>) {
    scan.result == Ok(EntriesOf(kind, matching)) && scan.next <= n + |matching| + 1
  }

  lemma {:induction false} ExactWhenEmpty(kind: Kind, policy: Policy, n: nat, start: nat, end: u16)
    requires start <= end ==> TakeTurn(kind, policy, n, start, end, kind.RequestType()) == Stop(Ok([]))
    ensures Exact(kind, Pages(kind, policy, n, start, end, kind.RequestType()), n, [])
  {
  }

  lemma {:induction false} ExactAfterTurn(
      kind: Kind, policy: Policy, n: nat, start: u16, end: u16, m: seq<Attribute>, k: nat, last: nat)
    requires start <= end && 1 <= k <= |m|
    requires TakeTurn(kind, policy, n, start, end, kind.RequestType()) == TakePage(EntriesOf(kind, m[..k]), start)
    requires start <= last == LastOf(EntriesOf(kind, m[..k]), start)
    requires last == 0xFFFF ==> m[k..] == []
    requires last < 0xFFFF ==> Exact(kind, Pages(kind, policy, n + 1, last + 1, end, kind.RequestType()), n + 1, m[k..])
    ensures Exact(kind, Pages(kind, policy, n, start, end, kind.RequestType()), n, m)
  {
    var page, rest := EntriesOf(kind, m[..k]), EntriesOf(kind, m[k..]);
    TurnAppends(kind, policy, n, start, end, kind.RequestType(), page, rest, |m[k..]| + 1);
    assert m == m[..k] + m[k..];
    MapConcat(EntryMaker(kind), m[..k], m[k..]);
  }

  /**
   * Each loop filters the database by handle range: whatever page sizes a conformant server chooses, the
   * decoded pages concatenate to the matching attributes of [start, end], each exactly once and in order,
   * and at most one request more than there are matches is sent.
   */
  lemma {:induction false} PagesAreExact(
      kind: Kind, policy: Policy, n: nat, start: nat, end: u16, attributes: seq<Attribute>)
    requires Conformant(attributes, policy) && start >= 1
    requires Ordered(attributes) && DisjointGroups(kind, attributes)
    requires kind.Info? ==> forall a :: a in attributes ==> IsWireUuid(a.typ)
    ensures Exact(kind, Pages(kind, policy, n, start, end, kind.RequestType()), n,
                  Matching(kind, start, end, attributes))
    decreases end + 1 - start
  {
    var m := Matching(kind, start, end, attributes);
    if start > end {
      FilterNone(Matcher(kind, start, end), attributes);
      ExactWhenEmpty(kind, policy, n, start, end);
    } else {
      var k := ConformantTurn(kind, policy, n, start, end, attributes);
      if m == [] {
        ExactWhenEmpty(kind, policy, n, start, end);
      } else {
        var last: nat := LastOf(EntriesOf(kind, m[..k]), start);
        Resumption(kind, start, end, attributes, k, last);
        if last < 0xFFFF {
          PagesAreExact(kind, policy, n + 1, last + 1, end, attributes);
        }
        ExactAfterTurn(kind, policy, n, start, end, m, k, last);
      }
    }
  }
}

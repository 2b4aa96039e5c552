/** What the paging loops return from any peer: the entries of the answers, each page asked for behind the last. */
module PageContents {
  import opened Bytes
  import opened Att
  import opened Gatt
  import opened Paging
  import opened Traces

  /** Find Information says in its header byte which UUIDs it holds; the others give the length of an entry. */
  function LengthOnWire(kind: Kind, pdu: bytes): nat
    requires |pdu| >= 2
  {
    if kind.Info? then (if pdu[1] == 1 then 4 else 18) else pdu[1]
  }

  predicate HoldsEntries(outcome: Outcome) {
    outcome.Data? && |outcome.pdu| >= 2 && outcome.pdu[0] != 0x01
  }

  /** The whole entries of an answer; an error has none. */
  function PageOf(kind: Kind, outcome: Outcome): seq<Entry> {
    if HoldsEntries(outcome) && LengthOnWire(kind, outcome.pdu) > 0
    then Entries(kind, LengthOnWire(kind, outcome.pdu), outcome.pdu[2..]) else []
  }

  function AnswerAt(kind: Kind, policy: Policy, n: nat, start: u16, end: u16, typ: bytes): Outcome {
    policy(n, Request(kind, start, end, typ))
  }

  /** The next request asks behind the last handle, and there is one as long as that is neither past nor backwards. */
  ghost predicate AsksOn(kind: Kind, policy: Policy, n: nat, end: u16, typ: bytes, starts: seq<u16>, k: nat)
    requires k < |starts|
  {
    var outcome := AnswerAt(kind, policy, n + k, starts[k], end, typ);
    var last := LastOf(PageOf(kind, outcome), starts[k]);
    if k + 1 < |starts| then HoldsEntries(outcome) && starts[k] <= last < end && starts[k + 1] == last + 1
    else !HoldsEntries(outcome) || last < starts[k] || last >= end
  }

  ghost predicate Walk(kind: Kind, policy: Policy, n: nat, end: u16, typ: bytes, starts: seq<u16>) {
    forall k :: 0 <= k < |starts| ==> AsksOn(kind, policy, n, end, typ, starts, k)
  }

  /** The entries of all answers, in order. */
  function Gathered(kind: Kind, policy: Policy, n: nat, end: u16, typ: bytes, starts: seq<u16>): seq<Entry>
    decreases |starts|
  {
    if starts == [] then []
    else
      PageOf(kind, AnswerAt(kind, policy, n, starts[0], end, typ))
      + Gathered(kind, policy, n + 1, end, typ, starts[1..])
  }

  lemma {:induction false} TurnContents(kind: Kind, policy: Policy, n: nat, start: u16, end: u16, typ: bytes)
    requires var turn := TakeTurn(kind, policy, n, start, end, typ); turn.Stop? ==> turn.result.Ok?
    ensures var turn, outcome := TakeTurn(kind, policy, n, start, end, typ), AnswerAt(kind, policy, n, start, end, typ);
            var page := PageOf(kind, outcome);
            var last := LastOf(page, start);
            match turn
            case Stop(result) => result == Ok(page) && (!HoldsEntries(outcome) || last < start || last >= 0xFFFF)
            case Continue(p, l) => HoldsEntries(outcome) && p == page && l == last && start <= last < 0xFFFF
  {
    var outcome := AnswerAt(kind, policy, n, start, end, typ);
    if outcome.Data? && outcome.pdu != [] && outcome.pdu[0] == 0x01 {
      assert !HoldsEntries(outcome);
    }
  }

  lemma {:induction false} WalkCons(
      kind: Kind, policy: Policy, n: nat, end: u16, typ: bytes, start: u16, rest: seq<u16>)
    requires rest != [] && Walk(kind, policy, n + 1, end, typ, rest)
    requires AsksOn(kind, policy, n, end, typ, [start] + rest, 0)
    ensures Walk(kind, policy, n, end, typ, [start] + rest)
    ensures Gathered(kind, policy, n, end, typ, [start] + rest) ==
            PageOf(kind, AnswerAt(kind, policy, n, start, end, typ)) + Gathered(kind, policy, n + 1, end, typ, rest)
  {
    var starts := [start] + rest;
    assert starts[1..] == rest;
    forall k | 0 <= k < |starts| ensures AsksOn(kind, policy, n, end, typ, starts, k) {
      if k > 0 {
        assert AsksOn(kind, policy, n + 1, end, typ, rest, k - 1);
        assert starts[k] == rest[k - 1] && n + k == n + 1 + (k - 1);
        assert k + 1 < |starts| ==> starts[k + 1] == rest[k];
      }
    }
  }

  lemma {:induction false} LastTurn(kind: Kind, policy: Policy, n: nat, start: u16, end: u16, typ: bytes)
    requires start <= end && Pages(kind, policy, n, start, end, typ).result.Ok?
    requires var turn := TakeTurn(kind, policy, n, start, end, typ); turn.Continue? ==> turn.last >= end
    ensures Walk(kind, policy, n, end, typ, [start])
    ensures Pages(kind, policy, n, start, end, typ)
         == Scan(Ok(Gathered(kind, policy, n, end, typ, [start])), n + 1)
  {
    var turn := TakeTurn(kind, policy, n, start, end, typ);
    PagesAfter(kind, policy, n, start, end, typ, turn);
    TurnContents(kind, policy, n, start, end, typ);
    var page := PageOf(kind, AnswerAt(kind, policy, n, start, end, typ));
    assert Gathered(kind, policy, n, end, typ, [start]) == page + [] == page;
    assert AsksOn(kind, policy, n, end, typ, [start], 0);
    if turn.Continue? {
      assert Pages(kind, policy, n + 1, turn.last as nat + 1, end, typ) == Scan(Ok([]), n + 1);
    }
  }

  lemma {:induction false} NextTurn(
      kind: Kind, policy: Policy, n: nat, start: u16, end: u16, typ: bytes, next: u16, rest: seq<u16>)
    requires start <= end && Pages(kind, policy, n, start, end, typ).result.Ok?
    requires var turn := TakeTurn(kind, policy, n, start, end, typ);
             && turn.Continue? && turn.last < end && rest != [] && rest[0] == turn.last + 1 == next
             && Walk(kind, policy, n + 1, end, typ, rest)
             && Pages(kind, policy, n + 1, next, end, typ)
                == Scan(Ok(Gathered(kind, policy, n + 1, end, typ, rest)), n + 1 + |rest|)
    ensures Walk(kind, policy, n, end, typ, [start] + rest)
    ensures Pages(kind, policy, n, start, end, typ)
         == Scan(Ok(Gathered(kind, policy, n, end, typ, [start] + rest)), n + 1 + |rest|)
  {
    PagesAfter(kind, policy, n, start, end, typ, TakeTurn(kind, policy, n, start, end, typ));
    TurnContents(kind, policy, n, start, end, typ);
    WalkCons(kind, policy, n, end, typ, start, rest);
  }

  lemma {:induction false} RestIsOk(
      kind: Kind, policy: Policy, n: nat, start: u16, end: u16, typ: bytes, next: u16)
    requires start <= end && Pages(kind, policy, n, start, end, typ).result.Ok?
    requires var turn := TakeTurn(kind, policy, n, start, end, typ); turn.Continue? && turn.last + 1 == next
    ensures Pages(kind, policy, n + 1, next, end, typ).result.Ok?
  {
    PagesAfter(kind, policy, n, start, end, typ, TakeTurn(kind, policy, n, start, end, typ));
  }

  /** Whatever a peer answers: one request after the other, and the result is the entries of all the answers. */
  lemma {:induction false} PagesAreAnswers(kind: Kind, policy: Policy, n: nat, start: u16, end: u16, typ: bytes)
    returns (starts: seq<u16>)
    requires start <= end && Pages(kind, policy, n, start, end, typ).result.Ok?
    ensures starts != [] && starts[0] == start && Walk(kind, policy, n, end, typ, starts)
    ensures Pages(kind, policy, n, start, end, typ)
         == Scan(Ok(Gathered(kind, policy, n, end, typ, starts)), n + |starts|)
    decreases end - start
  {
    var turn := TakeTurn(kind, policy, n, start, end, typ);
    if turn.Continue? && turn.last < end {
      var next: u16 := turn.last + 1;
      RestIsOk(kind, policy, n, start, end, typ, next);
      var rest := PagesAreAnswers(kind, policy, n + 1, next, end, typ);
      NextTurn(kind, policy, n, start, end, typ, next, rest);
      starts := [start] + rest;
    } else {
      LastTurn(kind, policy, n, start, end, typ);
      starts := [start];
    }
  }

  // The entries of an answer, by position.

  /** The offset of the i-th entry. */
  function Offset(i: nat, length: nat): nat {
    if i == 0 then 0 else length + Offset(i - 1, length)
  }

  lemma {:induction false} EntriesAt(kind: Kind, length: nat, list: bytes, i: nat, e: bytes)
    requires length > 0 && Offset(i, length) + length <= |list|
    requires e == list[Offset(i, length)..][..length]
    ensures i < |Entries(kind, length, list)| && Entries(kind, length, list)[i] == DecodeEntry(kind, e)
    decreases i
  {
    EntriesCons(kind, length, list);
    if i == 0 {
      assert list[0..] == list;
    } else {
      assert list[length..][Offset(i - 1, length)..] == list[Offset(i, length)..];
      EntriesAt(kind, length, list[length..], i - 1, e);
    }
  }

  lemma {:induction false} EntriesCons(kind: Kind, length: nat, list: bytes)
    requires 0 < length <= |list|
    ensures Entries(kind, length, list) == [DecodeEntry(kind, list[..length])] + Entries(kind, length, list[length..])
  {
  }

  /** A trailing fragment is no entry. */
  lemma {:induction false} EntriesCount(kind: Kind, length: nat, list: bytes)
    requires length > 0
    ensures var after := Offset(|Entries(kind, length, list)|, length); after <= |list| < after + length
    decreases |list|
  {
    if |list| >= length {
      EntriesCount(kind, length, list[length..]);
    }
  }

  /** Two bytes of handle, for a service two of its end; the rest is the value. */
  lemma {:induction false} EntryOnWire(kind: Kind, e: bytes)
    requires |e| >= if kind.Groups? then 4 else 2
    ensures var d := DecodeEntry(kind, e);
            && d.handle == e[0] as nat + 0x100 * e[1] as nat
            && d.last == (if kind.Groups? then e[2] as nat + 0x100 * e[3] as nat else d.handle)
            && d.value == (if kind.Groups? then e[4..] else e[2..])
  {
    Field16OnWire(e, 0);
    if kind.Groups? {
      Field16OnWire(e, 2);
    }
  }
}

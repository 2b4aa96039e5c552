/**
 * Discovery and reads inside runs: whatever traffic is interleaved with them, the outcomes their coroutines get are
 * outcomes of a conformant server, so their results are those of the undisturbed link.
 */
module Interleaving {
  import opened Bytes
  import opened Seqs
  import opened Att
  import opened AttSystem
  import opened Pairing
  import opened SafeCalls
  import opened Gatt
  import opened Discovery
  import opened DiscoveryExact
  import opened GattServer
  import opened LongRead
  import opened Traces

  /** A FIFO server whose answers to attribute requests are all good. */
  ghost function AnswersWell(good: Exchange -> bool): (Sys, Step) -> bool {
    (s, step) =>
      FifoServer(s, step) &&
      (step.PeerServe? && s.toPeer != [] && IsAttributeRequest(s.toPeer[0]) ==> good(Exchange(s.toPeer[0], step.rsp)))
  }

  ghost predicate AllServedWell(s: Sys, good: Exchange -> bool) {
    InStep(s) && forall e :: e in s.served ==> good(e)
  }

  lemma {:induction false} ServedWellKept(s: Sys, step: Step, good: Exchange -> bool)
    requires AllServedWell(s, good) && Enabled(s, step) && AnswersWell(good)(s, step)
    ensures AllServedWell(Apply(s, step), good)
  {
    InStepKept(s, step);
    assert Apply(s, step).served == s.served ||
           (step.PeerServe? && Apply(s, step).served == s.served + [Exchange(s.toPeer[0], step.rsp)]);
  }

  /** Everything a run completes is an answer of its server. */
  lemma {:induction false} CompletedWell(peerRx: u16, steps: seq<Step>, good: Exchange -> bool)
    requires Legal(Init(peerRx), steps, AnswersWell(good))
    ensures forall e :: e in Run(Init(peerRx), steps, AnswersWell(good)).completed ==> good(e)
  {
    var rule := AnswersWell(good);
    forall t, step | AllServedWell(t, good) && Enabled(t, step) && rule(t, step)
      ensures AllServedWell(Apply(t, step), good)
    {
      ServedWellKept(t, step, good);
    }
    RunKeeps(Init(peerRx), steps, rule, s => AllServedWell(s, good));
    var end := Run(Init(peerRx), steps, rule);
    PrefixOfServed(end);
    assert forall e :: e in end.completed ==> e in end.served;
  }

  lemma {:induction false} PrefixOfServed(s: Sys)
    requires InStep(s)
    ensures s.completed <= s.served
  {
  }

  // The same with timeouts, cancellation and refusals, for a caller that makes safe calls.

  ghost function CarefullyAnswersWell(good: Exchange -> bool): (Sys, Step) -> bool {
    (s, step) =>
      CarefulCaller(s, step) &&
      (step.PeerServe? && s.toPeer != [] && IsAttributeRequest(s.toPeer[0]) ==> good(Exchange(s.toPeer[0], step.rsp)))
  }

  ghost predicate CarefullyServedWell(s: Sys, good: Exchange -> bool) {
    Careful(s) && forall e :: e in s.served ==> good(e)
  }

  lemma {:induction false} CarefullyServedWellKept(s: Sys, step: Step, good: Exchange -> bool)
    requires CarefullyServedWell(s, good) && Enabled(s, step) && CarefullyAnswersWell(good)(s, step)
    ensures CarefullyServedWell(Apply(s, step), good)
  {
    CarefulStep(s, step);
    assert Apply(s, step).served == s.served ||
           (step.PeerServe? && Apply(s, step).served == s.served + [Exchange(s.toPeer[0], step.rsp)]);
  }

  lemma {:induction false} CarefullyCompletedWell(peerRx: u16, steps: seq<Step>, good: Exchange -> bool)
    requires Legal(Init(peerRx), steps, CarefullyAnswersWell(good))
    ensures forall e :: e in Run(Init(peerRx), steps, CarefullyAnswersWell(good)).completed ==> good(e)
  {
    var rule := CarefullyAnswersWell(good);
    forall t, step | CarefullyServedWell(t, good) && Enabled(t, step) && rule(t, step)
      ensures CarefullyServedWell(Apply(t, step), good)
    {
      CarefullyServedWellKept(t, step, good);
    }
    RunKeeps(Init(peerRx), steps, rule, s => CarefullyServedWell(s, good));
    var end := Run(Init(peerRx), steps, rule);
    CarefulIsServed(end);
    SublistMembers(end.completed, end.served);
  }

  /** The transactions whose outcomes on this link are exchanges that the run completed. */
  function CompletedBy(end: Sys, outcomes: Policy): Asked {
    (n: nat, request: bytes) =>
      outcomes(n, request).Data? && Exchange(request, outcomes(n, request).pdu) in end.completed
  }

  /** The outcomes of the run where there are any, those of a server elsewhere. */
  function Completion(asked: Asked, outcomes: Policy, server: Policy): Policy {
    (n: nat, request: bytes) => if asked(n, request) then outcomes(n, request) else server(n, request)
  }

  lemma {:induction false} CompletionAgrees(asked: Asked, outcomes: Policy, server: Policy)
    ensures Agree(asked, outcomes, Completion(asked, outcomes, server))
  {
  }

  // Discovery.

  /** The response to a discovery request is one that a conformant server may give. */
  ghost predicate IsConformant(attributes: seq<Attribute>, e: Exchange) {
    forall kind: Kind, start: u16, end: u16 {:trigger Request(kind, start, end, kind.RequestType())} ::
      1 <= start <= end && e.request == Request(kind, start, end, kind.RequestType()) ==>
        ConformantAnswer(attributes, kind, start, end, Data(e.response))
  }

  ghost function ConformantExchange(attributes: seq<Attribute>): Exchange -> bool {
    e => IsConformant(attributes, e)
  }

  lemma {:induction false} CompletionConforms(attributes: seq<Attribute>, end: Sys, outcomes: Policy, server: Policy)
    requires Conformant(attributes, server)
    requires forall e :: e in end.completed ==> IsConformant(attributes, e)
    ensures Conformant(attributes, Completion(CompletedBy(end, outcomes), outcomes, server))
  {
    var policy := Completion(CompletedBy(end, outcomes), outcomes, server);
    forall n: nat, kind: Kind, start: u16, last: u16 | 1 <= start <= last
      ensures ConformantAnswer(attributes, kind, start, last,
                               policy(n, Request(kind, start, last, kind.RequestType())))
    {
      var request := Request(kind, start, last, kind.RequestType());
      if CompletedBy(end, outcomes)(n, request) {
        assert IsConformant(attributes, Exchange(request, outcomes(n, request).pdu));
      } else {
        assert ConformantAnswer(attributes, kind, start, last, server(n, request));
      }
    }
  }

  lemma {:induction false} DiscoverOfCompleted(end: Sys, db: Database, outcomes: Policy)
    requires WellFormed(db) && DiscoverAsks(CompletedBy(end, outcomes), outcomes, 0)
    requires forall e :: e in end.completed ==> ConformantExchange(Attributes(db))(e)
    ensures Discover(outcomes, 0).result == Ok(TreeOf(db))
  {
    var asked, server := CompletedBy(end, outcomes), ServerOf(Attributes(db), (n: nat) => 0);
    DatabaseIsShort(db);
    ServerConforms(Attributes(db), (n: nat) => 0);
    assert forall e :: e in end.completed ==> ConformantExchange(Attributes(db))(e) && IsConformant(Attributes(db), e);
    CompletionConforms(Attributes(db), end, outcomes, server);
    CompletionAgrees(asked, outcomes, server);
    DiscoverAgrees(asked, outcomes, Completion(asked, outcomes, server), 0);
    DiscoverIsExact(Completion(asked, outcomes, server), 0, db);
  }

  /**
   * In every run with a server that answers discovery requests conformantly, a discover() whose transactions are
   * completed by the run returns precisely the tree of the database, whatever else happens in between.
   */
  lemma {:induction false} DiscoverInRun(peerRx: u16, steps: seq<Step>, db: Database, outcomes: Policy)
    requires WellFormed(db)
    requires var rule := AnswersWell(ConformantExchange(Attributes(db)));
             && Legal(Init(peerRx), steps, rule)
             && DiscoverAsks(CompletedBy(Run(Init(peerRx), steps, rule), outcomes), outcomes, 0)
    ensures Discover(outcomes, 0).result == Ok(TreeOf(db))
  {
    var good := ConformantExchange(Attributes(db));
    CompletedWell(peerRx, steps, good);
    DiscoverOfCompleted(Run(Init(peerRx), steps, AnswersWell(good)), db, outcomes);
  }

  /** The same in runs of safe calls, where other transactions may time out, be cancelled or be refused. */
  lemma {:induction false} DiscoverInCarefulRun(peerRx: u16, steps: seq<Step>, db: Database, outcomes: Policy)
    requires WellFormed(db)
    requires var rule := CarefullyAnswersWell(ConformantExchange(Attributes(db)));
             && Legal(Init(peerRx), steps, rule)
             && DiscoverAsks(CompletedBy(Run(Init(peerRx), steps, rule), outcomes), outcomes, 0)
    ensures Discover(outcomes, 0).result == Ok(TreeOf(db))
  {
    var good := ConformantExchange(Attributes(db));
    CarefullyCompletedWell(peerRx, steps, good);
    DiscoverOfCompleted(Run(Init(peerRx), steps, CarefullyAnswersWell(good)), db, outcomes);
  }

  // Reads.

  /** The response to a Read Blob Request is one that a server holding the value may give, with at most this MTU. */
  ghost predicate IsHonest(handle: u16, v: bytes, mtu: nat, e: Exchange) {
    forall offset: u16 {:trigger BlobRequest(handle, offset)} ::
      offset <= |v| && e.request == BlobRequest(handle, offset) ==> HonestBlob(v, offset, mtu, Data(e.response))
  }

  ghost function HonestExchange(handle: u16, v: bytes, mtu: nat): Exchange -> bool {
    e => IsHonest(handle, v, mtu, e)
  }

  /** The MTU that sized the first response, and the largest afterwards. */
  function FirstThen(first: nat, mtu: nat): nat -> nat {
    (k: nat) => if k == 0 then first else mtu
  }

  lemma {:induction false} CompletionIsHonest(handle: u16, v: bytes, first: nat, mtu: nat, end: Sys, outcomes: Policy)
    requires |v| <= 0xFFFF && forall e :: e in end.completed ==> IsHonest(handle, v, mtu, e)
    ensures HonestBlobs(Completion(CompletedBy(end, outcomes), outcomes, StoppingServer(v, [], 0, 0)), 1, handle, v,
                        FirstThen(first, mtu))
  {
    var policy := Completion(CompletedBy(end, outcomes), outcomes, StoppingServer(v, [], 0, 0));
    forall k: nat, offset: u16 | 1 <= k && offset <= |v|
      ensures HonestBlob(v, offset, FirstThen(first, mtu)(k), policy(k, BlobRequest(handle, offset)))
    {
      var request := BlobRequest(handle, offset);
      if CompletedBy(end, outcomes)(k, request) {
        assert IsHonest(handle, v, mtu, Exchange(request, outcomes(k, request).pdu));
      } else {
        BlobRequestCarries(handle, offset);
      }
    }
  }

  lemma {:induction false} ReadOfCompleted(
      end: Sys, handle: u16, v: bytes, serverMtu: nat, mtu: nat, outcomes: Policy, mtuAfter: nat -> nat)
    requires DEFAULT_MTU <= serverMtu && |v| <= 0xFFFF
    requires outcomes(0, ReadRequest(handle)) == Data([READ_RSP] + FirstPart(v, serverMtu))
    requires ReadAsks(CompletedBy(end, outcomes), outcomes, mtuAfter, 0, handle)
    requires forall e :: e in end.completed ==> HonestExchange(handle, v, mtu)(e)
    ensures |v| > serverMtu - 1 && mtuAfter(0) > serverMtu ==> Read(outcomes, mtuAfter, 0, handle).result != Ok(v)
    ensures |v| <= serverMtu - 1 || (mtuAfter(0) <= serverMtu && mtu <= |v|) ==>
              Read(outcomes, mtuAfter, 0, handle).result == Ok(v)
  {
    var asked, mtus := CompletedBy(end, outcomes), FirstThen(serverMtu, mtu);
    var policy := Completion(asked, outcomes, StoppingServer(v, [], 0, 0));
    assert forall e :: e in end.completed ==> HonestExchange(handle, v, mtu)(e) && IsHonest(handle, v, mtu, e);
    CompletionIsHonest(handle, v, serverMtu, mtu, end, outcomes);
    CompletionAgrees(asked, outcomes, StoppingServer(v, [], 0, 0));
    ReadAgrees(asked, outcomes, policy, mtuAfter, 0, handle);
    assert policy(0, ReadRequest(handle)) == outcomes(0, ReadRequest(handle));
    if |v| > serverMtu - 1 && mtuAfter(0) > serverMtu {
      NotedTooLarge(policy, mtuAfter, 0, handle, v, mtus);
    }
    if |v| <= serverMtu - 1 || (mtuAfter(0) <= serverMtu && mtu <= |v|) {
      ReadCompletes(policy, mtuAfter, 0, handle, v, mtus);
    }
  }

  /**
   * In every run with a server that holds the value, its MTU at most mtu, a read() whose transactions are completed by
   * the run, the first with a response sized by serverMtu, returns the whole value if that response carries it or the
   * MTU noted is no larger and the value is too long for any response; it does not if the MTU noted is larger.
   */
  lemma {:induction false} ReadInRun(
      peerRx: u16, steps: seq<Step>, handle: u16, v: bytes, serverMtu: nat, mtu: nat, outcomes: Policy,
      mtuAfter: nat -> nat)
    requires DEFAULT_MTU <= serverMtu && |v| <= 0xFFFF
    requires outcomes(0, ReadRequest(handle)) == Data([READ_RSP] + FirstPart(v, serverMtu))
    requires var rule := AnswersWell(HonestExchange(handle, v, mtu));
             && Legal(Init(peerRx), steps, rule)
             && ReadAsks(CompletedBy(Run(Init(peerRx), steps, rule), outcomes), outcomes, mtuAfter, 0, handle)
    ensures |v| > serverMtu - 1 && mtuAfter(0) > serverMtu ==> Read(outcomes, mtuAfter, 0, handle).result != Ok(v)
    ensures |v| <= serverMtu - 1 || (mtuAfter(0) <= serverMtu && mtu <= |v|) ==>
              Read(outcomes, mtuAfter, 0, handle).result == Ok(v)
  {
    var good := HonestExchange(handle, v, mtu);
    CompletedWell(peerRx, steps, good);
    ReadOfCompleted(Run(Init(peerRx), steps, AnswersWell(good)), handle, v, serverMtu, mtu, outcomes, mtuAfter);
  }

  /** The same in runs of safe calls. */
  lemma {:induction false} ReadInCarefulRun(
      peerRx: u16, steps: seq<Step>, handle: u16, v: bytes, serverMtu: nat, mtu: nat, outcomes: Policy,
      mtuAfter: nat -> nat)
    requires DEFAULT_MTU <= serverMtu && |v| <= 0xFFFF
    requires outcomes(0, ReadRequest(handle)) == Data([READ_RSP] + FirstPart(v, serverMtu))
    requires var rule := CarefullyAnswersWell(HonestExchange(handle, v, mtu));
             && Legal(Init(peerRx), steps, rule)
             && ReadAsks(CompletedBy(Run(Init(peerRx), steps, rule), outcomes), outcomes, mtuAfter, 0, handle)
    ensures |v| > serverMtu - 1 && mtuAfter(0) > serverMtu ==> Read(outcomes, mtuAfter, 0, handle).result != Ok(v)
    ensures |v| <= serverMtu - 1 || (mtuAfter(0) <= serverMtu && mtu <= |v|) ==>
              Read(outcomes, mtuAfter, 0, handle).result == Ok(v)
  {
    var good := HonestExchange(handle, v, mtu);
    CarefullyCompletedWell(peerRx, steps, good);
    var end := Run(Init(peerRx), steps, CarefullyAnswersWell(good));
    ReadOfCompleted(end, handle, v, serverMtu, mtu, outcomes, mtuAfter);
  }
}

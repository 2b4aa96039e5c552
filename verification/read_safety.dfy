/** What can be looked at before a read() to know that no run can truncate it. */
module ReadSafety {
  import opened Bytes
  import opened Seqs
  import opened Att
  import opened AttClient
  import opened AttSystem
  import opened Gatt
  import opened Pairing
  import opened SafeCalls
  import opened MtuAgreement
  import opened LongRead
  import opened ReadSession

  /** The slot is free, and nothing that could be taken for the answer to the read is on its way. */
  predicate CanRead(s: Sys, handle: u16) {
    && s.open && Enabled(s, Acquire(ReadRequest(handle)))
    && Requests(s.toPeer) == [] && AnswersIn(ReadRequest(handle), s.fromPeer) == []
  }

  function Called(s: Sys, handle: u16): Session
    requires CanRead(s, handle)
  {
    Moved(Begun(s), Mine, handle)
  }

  /** In no continuation does read() return anything but the whole value. */
  ghost predicate NeverTruncates(S: Session, handle: u16, v: bytes) {
    forall moves :: LegalMoves(S, moves, handle, v) ==> !Truncated(AfterMoves(S, moves, handle, v), v)
  }

  predicate Truncated(S: Session, v: bytes) {
    S.reader.Returned? && S.reader.result.Ok? && S.reader.result.value != v
  }

  /** The peer has adopted the agreed MTU, or the response that makes it do so is on its way already. */
  predicate Settled(s: Sys) {
    s.peerMtu == Agreed(s.peerRx) || OUR_RESPONSE in s.toPeer
  }

  // What the client sees of it.

  /** The client has adopted the agreed MTU and owes the peer no response. */
  lemma {:induction false} AdoptedAndAnswered(s: Sys)
    requires Agreeing(s) && s.open && s.client.mtu == Agreed(s.peerRx) && SendMtuRsp !in s.client.tasks
    ensures Settled(s)
  {
  }

  /** With no transaction pending and no MTU Request on its way, a settled peer means that the client has adopted. */
  lemma {:induction false} SettledIsAdopted(s: Sys)
    requires Agreeing(s) && s.open && s.txn.None? && Settled(s)
    ensures Caught(s)
  {
  }

  // A settled read.

  /** PDUs whose order decides which MTU a request is answered by. */
  predicate Decides(pdu: bytes) {
    pdu == OUR_RESPONSE || IsAttributeRequest(pdu)
  }

  /** The peer will adopt before it takes a request. */
  ghost predicate AdoptsFirst(s: Sys) {
    s.peerMtu == Agreed(s.peerRx) ||
    (Filter(Decides, s.toPeer) != [] && Filter(Decides, s.toPeer)[0] == OUR_RESPONSE)
  }

  lemma {:induction false} AdoptsFirstKept(s: Sys, step: Step)
    requires Agreeing(s) && AdoptsFirst(s) && Enabled(s, step)
    ensures AdoptsFirst(Apply(s, step))
    ensures step.PeerServe? && IsAttributeRequest(s.toPeer[0]) ==> s.peerMtu == Agreed(s.peerRx)
  {
    match step
    case PeerTake => TakenFirst(s, false);
    case PeerServe(rsp) => TakenFirst(s, rsp != [] && rsp[0] == EXCHANGE_MTU_RSP);
    case SendRequest => FilterConcat(Decides, s.toPeer, [s.txn.value.payload]);
    case WriteCommand(payload) => FilterConcat(Decides, s.toPeer, [payload]);
    case RunTask(i) => FilterConcat(Decides, s.toPeer, [TaskPdu(s.client.tasks[i])]);
    case _ =>
  }

  lemma {:induction false} TakenFirst(s: Sys, granted: bool)
    requires Agreeing(s) && AdoptsFirst(s) && s.toPeer != []
    ensures AdoptsFirst(PeerReceive(s, granted))
    ensures IsAttributeRequest(s.toPeer[0]) ==> s.peerMtu == Agreed(s.peerRx)
  {
    PeerReceives(s, granted);
    TakeFirst(Decides, s.toPeer);
    assert OUR_RESPONSE[0] == EXCHANGE_MTU_RSP;
  }

  /** All answers to the read have the agreed MTU, and the MTU it noted is no larger. */
  ghost predicate SettledSession(S: Session, handle: u16, v: bytes, mtu: nat) {
    && InSession(S, handle, v) && Agreeing(S.sys) && AdoptsFirst(S.sys) && Agreed(S.sys.peerRx) == mtu
    && (forall k :: 0 <= k < |S.sized| ==> S.sized[k] == mtu)
    && (!S.reader.First? ==> S.noted <= mtu)
  }

  lemma {:induction false} SettledKept(S: Session, move: Move, handle: u16, v: bytes, mtu: nat)
    requires SettledSession(S, handle, v, mtu) && CanMove(S, move, handle) && Admits(handle, v, S, move)
    ensures SettledSession(Moved(S, move, handle), handle, v, mtu)
  {
    InSessionKept(S, move, handle, v);
    var step := match move case Mine => Acquire(Wanted(S.reader, handle)) case Around(step) => step;
    WantedIsAttribute(S, move, handle);
    AgreeingKept(S.sys, step);
    AdoptsFirstKept(S.sys, step);
    assert Values(Moved(S, move, handle).sys);
  }

  lemma {:induction false} WantedIsAttribute(S: Session, move: Move, handle: u16)
    requires CanMove(S, move, handle)
    ensures move.Mine? ==> IsAttributeRequest(Wanted(S.reader, handle))
  {
  }

  lemma {:induction false} SettledStarts(s: Sys, handle: u16, v: bytes)
    requires Agreeing(s) && CanRead(s, handle) && Settled(s) && |v| <= 0xFFFF
    ensures SettledSession(Called(s, handle), handle, v, Agreed(s.peerRx))
  {
    assert Admits(handle, v, Begun(s), Mine);
    InSessionKept(Begun(s), Mine, handle, v);
    AgreeingKept(s, Acquire(ReadRequest(handle)));
    if s.peerMtu != Agreed(s.peerRx) {
      FilterMembers(IsAttributeRequest, s.toPeer);
      FilterMembers(Decides, s.toPeer);
      assert OUR_RESPONSE in Filter(Decides, s.toPeer);
      var first := Filter(Decides, s.toPeer)[0];
      assert first in Filter(Decides, s.toPeer) && Decides(first);
    }
  }

  lemma {:induction false} SettledIsComplete(S: Session, handle: u16, v: bytes, mtu: nat)
    requires SettledSession(S, handle, v, mtu)
    ensures !Truncated(S, v)
  {
  }

  /** From a settled state to the returned bytes: whatever happens meanwhile, what read() returns is the whole value. */
  lemma {:induction false} SettledReadIsWhole(s: Sys, moves: seq<Move>, handle: u16, v: bytes)
    requires Agreeing(s) && CanRead(s, handle) && Settled(s) && |v| <= 0xFFFF
    requires LegalMoves(Called(s, handle), moves, handle, v)
    ensures !Truncated(AfterMoves(Called(s, handle), moves, handle, v), v)
  {
    var mtu := Agreed(s.peerRx);
    SettledStarts(s, handle, v);
    forall T, move | SettledSession(T, handle, v, mtu) && CanMove(T, move, handle) && Admits(handle, v, T, move)
      ensures SettledSession(Moved(T, move, handle), handle, v, mtu)
    {
      SettledKept(T, move, handle, v, mtu);
    }
    MovesKeep(Called(s, handle), moves, handle, v, T => SettledSession(T, handle, v, mtu));
    SettledIsComplete(AfterMoves(Called(s, handle), moves, handle, v), handle, v, mtu);
  }

  /** The same of the function Read, on every link that gives it the outcomes of the run. */
  lemma {:induction false} SettledReadOfRun(
      s: Sys, moves: seq<Move>, handle: u16, v: bytes, policy: Policy, mtuAfter: nat -> nat)
    requires Agreeing(s) && CanRead(s, handle) && Settled(s) && |v| <= 0xFFFF
    requires LegalMoves(Called(s, handle), moves, handle, v)
    requires var end := AfterMoves(Called(s, handle), moves, handle, v);
             end.reader.Returned? && Explains(policy, mtuAfter, end)
    ensures var r := Read(policy, mtuAfter, 0, handle).result;
            r == AfterMoves(Called(s, handle), moves, handle, v).reader.result && (r.Ok? ==> r == Ok(v))
  {
    SettledReadIsWhole(s, moves, handle, v);
    assert Admits(handle, v, Begun(s), Mine);
    MovesCons(Begun(s), Mine, moves, handle, v);
    SessionIsRead(s, [Mine] + moves, handle, v, policy, mtuAfter);
  }

  // A read that is not settled.

  /** The read waits for its first response, and the MTU is still to be raised. */
  ghost predicate FirstPending(s: Sys, handle: u16) {
    && Agreeing(s) && s.open && s.txn == Some(Txn(ReadRequest(handle), true)) && s.client.Waiting()
    && Agreed(s.peerRx) > DEFAULT_MTU
  }

  ghost predicate AwaitsFirst(S: Session, handle: u16) {
    S.holds && S.reader.First? && FirstPending(S.sys, handle)
  }

  predicate WillAdopt(s: Sys, q: seq<bytes>) {
    s.client.mtu == Agreed(s.peerRx) || MtuPdu(EXCHANGE_MTU_REQ, s.peerRx) in q
  }

  /** The answer to the read is on its way, sized by the default MTU, behind what makes the client adopt. */
  ghost predicate ShortOnItsWay(s: Sys, handle: u16, v: bytes) {
    && FirstPending(s, handle) && |v| >= DEFAULT_MTU
    && s.fromPeer != []
    && var before := s.fromPeer[..|s.fromPeer| - 1];
       && s.fromPeer[|s.fromPeer| - 1] == [READ_RSP] + FirstPart(v, DEFAULT_MTU)
       && AnswersIn(ReadRequest(handle), before) == [] && WillAdopt(s, before)
  }

  /** The short answer settles the read, and the coroutine resumes with the larger MTU. */
  lemma {:induction false} ShortSettles(s: Sys, handle: u16, v: bytes)
    requires ShortOnItsWay(s, handle, v) && |s.fromPeer| == 1
    ensures var s' := Apply(s, Deliver);
            && Enabled(s', Resume)
            && s'.client.pending.value.outcome == Some(Data([READ_RSP] + FirstPart(v, DEFAULT_MTU)))
            && Apply(s', Resume).client.mtu == Agreed(s.peerRx)
  {
    assert s.fromPeer[0] == [READ_RSP] + FirstPart(v, DEFAULT_MTU) && s.fromPeer[..0] == [];
  }

  lemma {:induction false} ShortIsReturned(v: bytes, mtu: nat)
    requires |v| >= DEFAULT_MTU && mtu > DEFAULT_MTU
    ensures Consumes(First, Data([READ_RSP] + FirstPart(v, DEFAULT_MTU)), mtu) == Returned(Ok(v[..DEFAULT_MTU - 1]))
  {
    var pdu := [READ_RSP] + FirstPart(v, DEFAULT_MTU);
    assert pdu[1..] == FirstPart(v, DEFAULT_MTU);
  }

  lemma {:induction false} ShortArrives(S: Session, handle: u16, v: bytes)
    requires AwaitsFirst(S, handle) && ShortOnItsWay(S.sys, handle, v) && |S.sys.fromPeer| == 1
    ensures var moves := [Around(Deliver)] + ([Around(Resume)] + []);
            LegalMoves(S, moves, handle, v) && Truncated(AfterMoves(S, moves, handle, v), v)
  {
    ShortSettles(S.sys, handle, v);
    ShortIsReturned(v, Agreed(S.sys.peerRx));
    var T := Moved(S, Around(Deliver), handle);
    assert T == S.(sys := Apply(S.sys, Deliver));
    MovesCons(T, Around(Resume), [], handle, v);
    MovesCons(S, Around(Deliver), [Around(Resume)] + [], handle, v);
  }

  lemma {:induction false} ShortApproaches(s: Sys, handle: u16, v: bytes)
    requires ShortOnItsWay(s, handle, v) && |s.fromPeer| > 1
    ensures ShortOnItsWay(Apply(s, Deliver), handle, v)
  {
    var before := s.fromPeer[..|s.fromPeer| - 1];
    assert before[0] == s.fromPeer[0] && s.fromPeer[1..][..|s.fromPeer| - 2] == before[1..];
    TakeFirst(AnswerTo(ReadRequest(handle)), before);
    assert before == [before[0]] + before[1..];
    FirstPendingKept(s, handle, before);
  }

  /** Whatever else is delivered leaves the read pending. */
  lemma {:induction false} FirstPendingKept(s: Sys, handle: u16, before: seq<bytes>)
    requires FirstPending(s, handle) && Enabled(s, Deliver) && !Answers(s.fromPeer[0], ReadRequest(handle))
    requires before != [] && before[0] == s.fromPeer[0] && WillAdopt(s, before)
    ensures FirstPending(Apply(s, Deliver), handle) && WillAdopt(Apply(s, Deliver), before[1..])
  {
    AgreeingKept(s, Deliver);
    DeliverPending(s);
    assert MtuPdu(EXCHANGE_MTU_REQ, s.peerRx) in before ==>
           MtuPdu(EXCHANGE_MTU_REQ, s.peerRx) == before[0] || MtuPdu(EXCHANGE_MTU_REQ, s.peerRx) in before[1..];
  }

  lemma {:induction false} ShortTruncates(S: Session, handle: u16, v: bytes) returns (moves: seq<Move>)
    requires AwaitsFirst(S, handle) && ShortOnItsWay(S.sys, handle, v)
    ensures LegalMoves(S, moves, handle, v) && Truncated(AfterMoves(S, moves, handle, v), v)
    decreases |S.sys.fromPeer|
  {
    if |S.sys.fromPeer| == 1 {
      ShortArrives(S, handle, v);
      moves := [Around(Deliver)] + ([Around(Resume)] + []);
    } else {
      ShortApproaches(S.sys, handle, v);
      var rest := ShortTruncates(Moved(S, Around(Deliver), handle), handle, v);
      moves := [Around(Deliver)] + rest;
      MovesCons(S, Around(Deliver), rest, handle, v);
    }
  }

  /** The read is on its way to a peer that will not adopt before it answers. */
  ghost predicate Racing(s: Sys, handle: u16) {
    && FirstPending(s, handle) && s.peerMtu == DEFAULT_MTU && OUR_RESPONSE !in s.toPeer
    && AnswersIn(ReadRequest(handle), s.fromPeer) == [] && WillAdopt(s, s.fromPeer)
    && s.toPeer != [] && s.toPeer[|s.toPeer| - 1] == ReadRequest(handle)
    && Requests(s.toPeer[..|s.toPeer| - 1]) == []
  }

  function ShortAnswer(v: bytes): Step {
    PeerServe([READ_RSP] + FirstPart(v, DEFAULT_MTU))
  }

  lemma {:induction false} RaceServed(s: Sys, handle: u16, v: bytes)
    requires Racing(s, handle) && |s.toPeer| == 1 && |v| >= DEFAULT_MTU
    ensures Enabled(s, ShortAnswer(v)) && MtuPeer(s, ShortAnswer(v))
    ensures ShowsValue(handle, v, s, ShortAnswer(v).rsp)
    ensures ShortOnItsWay(Apply(s, ShortAnswer(v)), handle, v)
  {
    assert s.toPeer[0] == ReadRequest(handle);
    AgreeingKept(s, ShortAnswer(v));
    var s' := Apply(s, ShortAnswer(v));
    assert s'.fromPeer[..|s'.fromPeer| - 1] == s.fromPeer;
  }

  lemma {:induction false} RaceTaken(s: Sys, handle: u16)
    requires Racing(s, handle) && |s.toPeer| > 1
    ensures Racing(Apply(s, PeerTake), handle)
  {
    var before := s.toPeer[..|s.toPeer| - 1];
    assert s.toPeer[1..][..|s.toPeer| - 2] == before[1..] && s.toPeer[0] in s.toPeer;
    TakeFirst(IsAttributeRequest, before);
    AgreeingKept(s, PeerTake);
    PeerReceives(s, false);
  }

  lemma {:induction false} RaceTruncates(S: Session, handle: u16, v: bytes) returns (moves: seq<Move>)
    requires AwaitsFirst(S, handle) && Racing(S.sys, handle) && |v| >= DEFAULT_MTU
    ensures LegalMoves(S, moves, handle, v) && Truncated(AfterMoves(S, moves, handle, v), v)
    decreases |S.sys.toPeer|
  {
    if |S.sys.toPeer| == 1 {
      RaceServed(S.sys, handle, v);
      var serve := Around(ShortAnswer(v));
      var rest := ShortTruncates(Moved(S, serve, handle), handle, v);
      moves := [serve] + rest;
      MovesCons(S, serve, rest, handle, v);
    } else {
      RaceTaken(S.sys, handle);
      var rest := RaceTruncates(Moved(S, Around(PeerTake), handle), handle, v);
      moves := [Around(PeerTake)] + rest;
      MovesCons(S, Around(PeerTake), rest, handle, v);
    }
  }

  /** The call and the request, from a state that is not settled. */
  lemma {:induction false} UnsettledSent(s: Sys, handle: u16)
    requires Agreeing(s) && CanRead(s, handle) && !Settled(s)
    ensures var sent := Apply(Apply(s, Acquire(ReadRequest(handle))), SendRequest);
            && FirstPending(sent, handle) && sent.peerMtu == DEFAULT_MTU && OUR_RESPONSE !in sent.toPeer
            && sent.fromPeer == s.fromPeer && sent.toPeer == s.toPeer + [ReadRequest(handle)]
            && sent.peerRx == s.peerRx
  {
    var called := Apply(s, Acquire(ReadRequest(handle)));
    AgreeingKept(s, Acquire(ReadRequest(handle)));
    AgreeingKept(called, SendRequest);
    assert OUR_RESPONSE[0] == EXCHANGE_MTU_RSP && ReadRequest(handle)[0] == READ_REQ;
  }

  /** An unsettled peer can start an exchange right behind the request. */
  lemma {:induction false} RaceBegins(s: Sys, sent: Sys, handle: u16)
    requires CanRead(s, handle)
    requires FirstPending(sent, handle) && sent.peerMtu == DEFAULT_MTU && OUR_RESPONSE !in sent.toPeer
    requires sent.fromPeer == s.fromPeer && sent.toPeer == s.toPeer + [ReadRequest(handle)]
    ensures var emit := PeerEmit(MtuPdu(EXCHANGE_MTU_REQ, sent.peerRx));
            MtuPeer(sent, emit) && Enabled(sent, emit) && Racing(Apply(sent, emit), handle)
  {
    var request := MtuPdu(EXCHANGE_MTU_REQ, sent.peerRx);
    assert request[0] == EXCHANGE_MTU_REQ && MtuPdu(EXCHANGE_MTU_RSP, sent.peerRx)[0] == EXCHANGE_MTU_RSP;
    FilterAppend(AnswerTo(ReadRequest(handle)), s.fromPeer, request);
    assert sent.toPeer[..|sent.toPeer| - 1] == s.toPeer;
    EmitKeepsPending(sent, handle);
  }

  lemma {:induction false} EmitKeepsPending(s: Sys, handle: u16)
    requires FirstPending(s, handle)
    ensures FirstPending(Apply(s, PeerEmit(MtuPdu(EXCHANGE_MTU_REQ, s.peerRx))), handle)
  {
    AgreeingKept(s, PeerEmit(MtuPdu(EXCHANGE_MTU_REQ, s.peerRx)));
  }

  lemma {:induction false} UnsettledTruncates(s: Sys, handle: u16, v: bytes) returns (moves: seq<Move>)
    requires Agreeing(s) && CanRead(s, handle) && !Settled(s) && |v| >= DEFAULT_MTU
    ensures LegalMoves(Called(s, handle), moves, handle, v)
    ensures Truncated(AfterMoves(Called(s, handle), moves, handle, v), v)
  {
    var called := Called(s, handle);
    var sent := Moved(called, Around(SendRequest), handle);
    var emit := Around(PeerEmit(MtuPdu(EXCHANGE_MTU_REQ, s.peerRx)));
    UnsettledSent(s, handle);
    RaceBegins(s, sent.sys, handle);
    var rest := RaceTruncates(Moved(sent, emit, handle), handle, v);
    MovesCons(sent, emit, rest, handle, v);
    moves := [Around(SendRequest)] + ([emit] + rest);
    MovesCons(called, Around(SendRequest), [emit] + rest, handle, v);
  }

  /**
   * Exactly when is a read safe from MTU exchanges? In no continuation, through all its transactions, does read()
   * return anything but the whole of a value that the default MTU cannot carry, if and only if, before the read, the
   * peer has adopted the agreed MTU or the client's Exchange MTU Response is on its way already.
   */
  lemma {:induction false} ReadNeverTruncatesIff(s: Sys, handle: u16, v: bytes)
    requires Agreeing(s) && CanRead(s, handle) && DEFAULT_MTU <= |v| <= 0xFFFF
    ensures Settled(s) <==> NeverTruncates(Called(s, handle), handle, v)
  {
    if Settled(s) {
      forall moves | LegalMoves(Called(s, handle), moves, handle, v)
        ensures !Truncated(AfterMoves(Called(s, handle), moves, handle, v), v)
      {
        SettledReadIsWhole(s, moves, handle, v);
      }
    } else {
      var moves := UnsettledTruncates(s, handle, v);
    }
  }
}

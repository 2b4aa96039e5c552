/**
 * One read() as its coroutine runs among everything else on the connection: other transactions, notifications, MTU
 * exchanges, timeouts and closes, before, between and during its own transactions.
 */
module ReadSession {
  import opened Bytes
  import opened Seqs
  import opened Att
  import opened AttSystem
  import opened Transactions
  import opened Gatt
  import opened Pairing
  import opened SafeCalls
  import opened MtuAgreement
  import opened LongRead

  /** Where the coroutine of read() is: before the first response, in the loop with the MTU it noted, or done. */
  datatype Reader = First | More(value: bytes, mtu: nat) | Returned(result: Result<bytes, Failure>)

  datatype Session = Session(
    sys: Sys,
    reader: Reader,
    holds: bool,              // the slot holds a transaction of the read
    asked: seq<bytes>,        // the requests of the read whose transactions have ended
    outcomes: seq<Outcome>,   // how they ended
    sized: seq<nat>,          // the MTU of the peer when it answered each of them
    noted: nat)               // the MTU the read noted

  datatype Move = Mine | Around(step: Step)

  function Begun(s: Sys): Session {
    Session(s, First, false, [], [], [], 0)
  }

  function Wanted(reader: Reader, handle: u16): bytes {
    match reader
    case More(value, _) => if |value| <= 0xFFFF then BlobRequest(handle, |value|) else []
    case _ => ReadRequest(handle)
  }

  /** The head of the loop, and the offset that does not fit. */
  function GoesOn(value: bytes, mtu: nat): Reader {
    if |value| < mtu - 1 then Returned(Ok(value))
    else if |value| > 0xFFFF then Returned(Err(OverflowError))
    else More(value, mtu)
  }

  function BlobOf(outcome: Outcome): Result<bytes, Failure> {
    match Classify(outcome, READ_BLOB_RSP)
    case Ok(data) => Ok(From(data, 1))
    case Err(f) => if IsEndOfValue(f) then Ok([]) else Err(f)
  }

  /** The coroutine resumes from a transaction of its own; mtu is the client's MTU then. */
  function Consumes(reader: Reader, outcome: Outcome, mtu: nat): Reader {
    match reader
    case First =>
      (match Classify(outcome, READ_RSP)
       case Ok(data) => GoesOn(From(data, 1), mtu)
       case Err(f) => Returned(Err(f)))
    case More(value, noted) =>
      (match BlobOf(outcome)
       case Ok(more) => if more == [] then Returned(Ok(value)) else GoesOn(value + more, noted)
       case Err(f) => Returned(Err(f)))
    case Returned(_) => reader
  }

  predicate CanMove(S: Session, move: Move, handle: u16) {
    match move
    case Mine => !S.reader.Returned? && !S.holds && Enabled(S.sys, Acquire(Wanted(S.reader, handle)))
    case Around(step) => Enabled(S.sys, step)
  }

  /** How the transaction in the slot ends with this step, if it does. */
  function Ending(s: Sys, step: Step): Option<Outcome>
    requires Enabled(s, step)
  {
    match step
    case Resume => s.client.pending.value.outcome
    case SendFails => Some(Exn(OsError))
    case Abandon(f) => Some(Exn(f))
    case _ => None
  }

  function Moved(S: Session, move: Move, handle: u16): Session
    requires CanMove(S, move, handle)
  {
    match move
    case Mine => S.(sys := Apply(S.sys, Acquire(Wanted(S.reader, handle))), holds := true)
    case Around(step) =>
      var sys := Apply(S.sys, step);
      var ending := Ending(S.sys, step);
      if S.holds && ending.Some? then
        Session(sys, Consumes(S.reader, ending.value, sys.client.mtu), false,
                S.asked + [S.sys.txn.value.payload], S.outcomes + [ending.value], S.sized,
                if S.reader.First? then sys.client.mtu else S.noted)
      else if S.holds && step.PeerServe? && IsAttributeRequest(S.sys.toPeer[0]) then
        S.(sys := sys, sized := S.sized + [S.sys.peerMtu])
      else S.(sys := sys)
  }

  /** An Error Response that the loop does not take for the end of the value. */
  predicate Raises(pdu: bytes) {
    IsError(pdu) && (|pdu| < 5 || pdu[4] !in {ATT_ERR_INVALID_OFFSET, ATT_ERR_ATTRIBUTE_NOT_LONG})
  }

  /**
   * The server holds the value behind the handle, or refuses to show it; it sizes its answers by the MTU it has then.
   */
  ghost predicate ShowsValue(handle: u16, v: bytes, s: Sys, rsp: bytes)
    requires s.toPeer != []
  {
    && (s.toPeer[0] == ReadRequest(handle) ==>
          IsError(rsp) || (s.peerMtu >= DEFAULT_MTU && rsp == [READ_RSP] + FirstPart(v, s.peerMtu)))
    && (forall offset: u16 {:trigger BlobRequest(handle, offset)} ::
          offset <= |v| && s.toPeer[0] == BlobRequest(handle, offset) ==>
            Raises(rsp) || HonestBlob(v, offset, s.peerMtu, Data(rsp)))
    && (IsMtuRequest(s.toPeer[0]) && IsError(rsp) ==> Raises(rsp))
  }

  /** Exceptions of the link and of time are no ATT errors. */
  predicate IsPlain(step: Step) {
    match step
    case Expire(f) => !f.AttError?
    case Abandon(f) => !f.AttError?
    case PeerClose(exc) => exc.Some? ==> !exc.value.AttError?
    case _ => true
  }

  /** A rule-abiding peer that shows the value; the read asks only where nothing could be taken for its answer. */
  ghost predicate Admits(handle: u16, v: bytes, S: Session, move: Move) {
    match move
    case Mine =>
      S.sys.open ==> Requests(S.sys.toPeer) == [] && AnswersIn(Wanted(S.reader, handle), S.sys.fromPeer) == []
    case Around(step) =>
      && MtuPeer(S.sys, step) && IsPlain(step)
      && (step.PeerServe? && S.sys.toPeer != [] ==> ShowsValue(handle, v, S.sys, step.rsp))
  }

  ghost predicate LegalMoves(S: Session, moves: seq<Move>, handle: u16, v: bytes)
    decreases |moves|
  {
    moves == [] ||
    (&& CanMove(S, moves[0], handle) && Admits(handle, v, S, moves[0])
     && LegalMoves(Moved(S, moves[0], handle), moves[1..], handle, v))
  }

  ghost function AfterMoves(S: Session, moves: seq<Move>, handle: u16, v: bytes): Session
    requires LegalMoves(S, moves, handle, v)
    decreases |moves|
  {
    if moves == [] then S else AfterMoves(Moved(S, moves[0], handle), moves[1..], handle, v)
  }

  lemma {:induction false} MovesKeep(S: Session, moves: seq<Move>, handle: u16, v: bytes, inv: Session -> bool)
    requires LegalMoves(S, moves, handle, v) && inv(S)
    requires forall T, move :: inv(T) && CanMove(T, move, handle) && Admits(handle, v, T, move) ==>
               inv(Moved(T, move, handle))
    ensures inv(AfterMoves(S, moves, handle, v))
    decreases |moves|
  {
    if moves != [] {
      MovesKeep(Moved(S, moves[0], handle), moves[1..], handle, v, inv);
    }
  }

  lemma {:induction false} MovesCons(S: Session, move: Move, rest: seq<Move>, handle: u16, v: bytes)
    requires CanMove(S, move, handle) && Admits(handle, v, S, move)
    requires LegalMoves(Moved(S, move, handle), rest, handle, v)
    ensures LegalMoves(S, [move] + rest, handle, v)
    ensures AfterMoves(S, [move] + rest, handle, v) == AfterMoves(Moved(S, move, handle), rest, handle, v)
  {
    assert ([move] + rest)[1..] == rest;
  }

  // What the read has at every moment.

  /** The recorded MTUs; of transactions that did not take place nothing is required. */
  function Mtus(sized: seq<nat>): nat -> nat {
    (k: nat) => if k < |sized| then sized[k] else 0
  }

  /** Every transaction so far brought a piece of the value. */
  predicate HasPrefix(S: Session, v: bytes)
    requires S.reader.More?
  {
    var value := S.reader.value;
    && S.outcomes != [] && |S.outcomes| <= |S.sized| && S.sized[0] >= DEFAULT_MTU
    && |value| <= |v| && value == v[..|value|]
    && S.reader.mtu == S.noted && S.reader.mtu - 1 <= |value|
    && (|value| == |v| || S.sized[0] - 1 + (|S.outcomes| - 1) <= |value|)
  }

  ghost predicate Progress(S: Session, v: bytes) {
    match S.reader
    case First => S.outcomes == []
    case More(_, _) => HasPrefix(S, v)
    case Returned(Ok(w)) => S.sized != [] && (AlwaysComplete(v, Mtus(S.sized), 0, S.noted) ==> w == v)
    case Returned(Err(_)) => true
  }

  /** An answer to the request of the read, of the size the record says, or an error that raises. */
  ghost predicate IsGood(S: Session, v: bytes, pdu: bytes) {
    match S.reader
    case First =>
      IsError(pdu) ||
      (&& |S.sized| == 1 && S.sized[0] >= DEFAULT_MTU
       && pdu == [READ_RSP] + FirstPart(v, S.sized[0]))
    case More(value, _) =>
      Raises(pdu) ||
      (|S.sized| == |S.outcomes| + 1 && |value| <= |v| && HonestBlob(v, |value|, S.sized[|S.outcomes|], Data(pdu)))
    case Returned(_) => true
  }

  /** Whatever can settle the transaction of the read is a good answer to it. */
  ghost predicate InFlight(S: Session, handle: u16, v: bytes) {
    var s, wanted := S.sys, Wanted(S.reader, handle);
    && s.txn.Some? && s.txn.value.payload == wanted && IsAttributeRequest(wanted)
    && |S.outcomes| <= |S.sized| <= |S.outcomes| + 1
    && (s.open ==>
          && (Requests(s.toPeer) == [] ||
              (Requests(s.toPeer) == [wanted] && s.txn.value.sent && |S.sized| == |S.outcomes|))
          && (forall pdu :: pdu in s.fromPeer && Answers(pdu, wanted) ==> IsGood(S, v, pdu)))
    && (!s.txn.value.sent ==> |S.sized| == |S.outcomes|)
    && (s.client.pending.Some? && s.client.pending.value.outcome.Some? ==>
          match s.client.pending.value.outcome.value
          case Data(pdu) => Answers(pdu, wanted) && IsGood(S, v, pdu)
          case Exn(f) => !f.AttError?)
  }

  ghost predicate InSession(S: Session, handle: u16, v: bytes) {
    && SlotSound(S.sys) && |v| <= 0xFFFF && Progress(S, v)
    && (!S.holds ==> S.reader.Returned? || |S.sized| == |S.outcomes|)
    && (S.holds ==> !S.reader.Returned? && InFlight(S, handle, v))
  }

  // Steps outside the read's transactions.

  lemma {:induction false} MineKept(S: Session, handle: u16, v: bytes)
    requires InSession(S, handle, v) && CanMove(S, Mine, handle) && Admits(handle, v, S, Mine)
    ensures InSession(Moved(S, Mine, handle), handle, v)
  {
    var wanted := Wanted(S.reader, handle);
    SlotStep(S.sys, Acquire(wanted));
    assert IsAttributeRequest(wanted);
    FilterMembers(AnswerTo(wanted), S.sys.fromPeer);
  }

  lemma {:induction false} OutsideKept(S: Session, step: Step, handle: u16, v: bytes)
    requires InSession(S, handle, v) && !S.holds && Enabled(S.sys, step)
    ensures InSession(Moved(S, Around(step), handle), handle, v)
  {
    SlotStep(S.sys, step);
  }

  // Steps during a transaction of the read.

  lemma {:induction false} DeliverFlight(S: Session, handle: u16, v: bytes)
    requires InFlight(S, handle, v) && SlotSound(S.sys) && Enabled(S.sys, Deliver)
    ensures InFlight(S.(sys := Apply(S.sys, Deliver)), handle, v)
  {
    var s := S.sys;
    var s', pdu := Apply(s, Deliver), s.fromPeer[0];
    SlotStep(s, Deliver);
    DeliverStage(s, Wanted(S.reader, handle));
    assert pdu in s.fromPeer;
    assert forall p :: p in s'.fromPeer ==> p in s.fromPeer;
  }

  /** The server answers the request of the read: the answer is good, of the size that is recorded with it. */
  lemma {:induction false} AnswerIsGood(S: Session, rsp: bytes, handle: u16, v: bytes)
    requires S.sys.toPeer != [] && S.sys.toPeer[0] == Wanted(S.reader, handle) && IsAttributeRequest(S.sys.toPeer[0])
    requires |S.sized| == |S.outcomes| && Progress(S, v) && !S.reader.Returned?
    requires ShowsValue(handle, v, S.sys, rsp)
    ensures IsGood(S.(sized := S.sized + [S.sys.peerMtu]), v, rsp)
  {
  }

  lemma {:induction false} AnswerFlight(S: Session, rsp: bytes, handle: u16, v: bytes)
    requires InFlight(S, handle, v) && Progress(S, v) && S.holds && !S.reader.Returned?
    requires Enabled(S.sys, PeerServe(rsp)) && ShowsValue(handle, v, S.sys, rsp) && IsAttributeRequest(S.sys.toPeer[0])
    ensures InFlight(Moved(S, Around(PeerServe(rsp)), handle), handle, v)
  {
    var s := S.sys;
    var T := Moved(S, Around(PeerServe(rsp)), handle);
    TakeFirst(IsAttributeRequest, s.toPeer);
    assert Requests(s.toPeer)[0] == s.toPeer[0];
    assert s.toPeer[0] == Wanted(S.reader, handle) && Requests(T.sys.toPeer) == [];
    AnswerIsGood(S, rsp, handle, v);
    GoodBefore(S, v);
    assert T == S.(sys := T.sys, sized := S.sized + [s.peerMtu]);
    assert forall p :: p in T.sys.fromPeer ==> p in s.fromPeer || p == rsp;
  }

  lemma {:induction false} ServeFlight(S: Session, rsp: bytes, handle: u16, v: bytes)
    requires InFlight(S, handle, v) && Progress(S, v) && S.holds && !S.reader.Returned?
    requires Enabled(S.sys, PeerServe(rsp)) && FifoPeer(S.sys, PeerServe(rsp)) && ShowsValue(handle, v, S.sys, rsp)
    ensures InFlight(Moved(S, Around(PeerServe(rsp)), handle), handle, v)
  {
    if IsAttributeRequest(S.sys.toPeer[0]) {
      AnswerFlight(S, rsp, handle, v);
    } else {
      ExchangeAnswerFlight(S, rsp, handle, v);
    }
  }

  /** An answer to an MTU exchange: a response settles no read, and a refusal raises. */
  lemma {:induction false} ExchangeAnswerFlight(S: Session, rsp: bytes, handle: u16, v: bytes)
    requires InFlight(S, handle, v) && S.holds && !S.reader.Returned?
    requires Enabled(S.sys, PeerServe(rsp)) && FifoPeer(S.sys, PeerServe(rsp))
    requires !IsAttributeRequest(S.sys.toPeer[0]) && (IsError(rsp) ==> Raises(rsp))
    ensures InFlight(Moved(S, Around(PeerServe(rsp)), handle), handle, v)
  {
    var s, T := S.sys, Moved(S, Around(PeerServe(rsp)), handle);
    TakeFirst(IsAttributeRequest, s.toPeer);
    assert T == S.(sys := T.sys) && Requests(T.sys.toPeer) == Requests(s.toPeer);
    ExchangeAnswerIsGood(S, rsp, handle, v);
    assert forall p :: p in T.sys.fromPeer ==> p in s.fromPeer || p == rsp;
  }

  lemma {:induction false} ExchangeAnswerIsGood(S: Session, rsp: bytes, handle: u16, v: bytes)
    requires rsp != [] && rsp[0] in {EXCHANGE_MTU_RSP, ERROR_RSP} && (IsError(rsp) ==> Raises(rsp))
    ensures Answers(rsp, Wanted(S.reader, handle)) ==> IsGood(S, v, rsp)
  {
  }

  /** What is good before the answer is recorded is an error, and stays good. */
  lemma {:induction false} GoodBefore(S: Session, v: bytes)
    requires |S.sized| == |S.outcomes| && (S.reader.First? ==> S.outcomes == [])
    ensures forall pdu, mtu: nat :: IsGood(S, v, pdu) ==> IsGood(S.(sized := S.sized + [mtu]), v, pdu)
  {
  }

  lemma {:induction false} PeerFlight(S: Session, step: Step, handle: u16, v: bytes)
    requires InFlight(S, handle, v) && Enabled(S.sys, step) && FifoPeer(S.sys, step)
    requires step.PeerTake? || step.PeerEmit?
    ensures InFlight(S.(sys := Apply(S.sys, step)), handle, v)
  {
    var s, s' := S.sys, Apply(S.sys, step);
    if step.PeerTake? {
      TakeFirst(IsAttributeRequest, s.toPeer);
    } else {
      assert forall p :: p in s'.fromPeer ==> p in s.fromPeer || p == step.pdu;
    }
  }

  lemma {:induction false} SendFlight(S: Session, step: Step, handle: u16, v: bytes)
    requires InFlight(S, handle, v) && Enabled(S.sys, step)
    requires step.SendRequest? || step.RunTask? || step.WriteCommand?
    ensures InFlight(S.(sys := Apply(S.sys, step)), handle, v)
  {
    var s, wanted := S.sys, Wanted(S.reader, handle);
    match step
    case SendRequest =>
      FilterAppend(IsAttributeRequest, s.toPeer, wanted);
      assert s.open ==> Requests(s.toPeer) == [] && [] + [wanted] == [wanted];
    case RunTask(i) =>
      FilterAppend(IsAttributeRequest, s.toPeer, TaskPdu(s.client.tasks[i]));
      assert Requests(s.toPeer) + [] == Requests(s.toPeer);
    case WriteCommand(payload) =>
      FilterAppend(IsAttributeRequest, s.toPeer, payload);
      assert Requests(s.toPeer) + [] == Requests(s.toPeer);
  }

  lemma {:induction false} ElseFlight(S: Session, step: Step, handle: u16, v: bytes)
    requires InFlight(S, handle, v) && SlotSound(S.sys) && Enabled(S.sys, step) && IsPlain(step)
    requires Ending(S.sys, step).None?
    requires !step.Deliver? && !step.PeerServe? && !step.PeerTake? && !step.PeerEmit?
    requires !step.SendRequest? && !step.RunTask? && !step.WriteCommand?
    ensures InFlight(S.(sys := Apply(S.sys, step)), handle, v)
  {
  }

  lemma {:induction false} FlightKept(S: Session, step: Step, handle: u16, v: bytes)
    requires InSession(S, handle, v) && S.holds && Enabled(S.sys, step) && Admits(handle, v, S, Around(step))
    requires Ending(S.sys, step).None?
    ensures InSession(Moved(S, Around(step), handle), handle, v)
  {
    SlotStep(S.sys, step);
    match step
    case Deliver => DeliverFlight(S, handle, v);
    case PeerServe(rsp) =>
      ServeFlight(S, rsp, handle, v);
      RecordKept(S, v);
    case PeerTake => PeerFlight(S, step, handle, v);
    case PeerEmit(_) => PeerFlight(S, step, handle, v);
    case SendRequest => SendFlight(S, step, handle, v);
    case RunTask(_) => SendFlight(S, step, handle, v);
    case WriteCommand(_) => SendFlight(S, step, handle, v);
    case _ => ElseFlight(S, step, handle, v);
  }

  /** Recording one more MTU leaves the progress as it is. */
  lemma {:induction false} RecordKept(S: Session, v: bytes)
    requires Progress(S, v) && !S.reader.Returned?
    ensures forall mtu: nat, sys :: Progress(S.(sys := sys, sized := S.sized + [mtu]), v)
  {
  }

  // The read resumes.

  /** The first response: the read goes on with it, or it is all. */
  lemma {:induction false} FirstConsumed(S: Session, T: Session, handle: u16, v: bytes, pdu: bytes, mtu: nat)
    requires S.reader.First? && S.outcomes == [] && Answers(pdu, ReadRequest(handle)) && IsGood(S, v, pdu)
    requires T.reader == Consumes(First, Data(pdu), mtu) && T.outcomes == [Data(pdu)] && T.sized == S.sized
    requires T.noted == mtu
    ensures Progress(T, v) && (T.reader.Returned? || |T.sized| == |T.outcomes|)
  {
    if !IsError(pdu) {
      assert From(pdu, 1) == FirstPart(v, S.sized[0]);
    }
  }

  lemma {:induction false} RaisesInLoop(pdu: bytes)
    requires Raises(pdu)
    ensures BlobOf(Data(pdu)).Err?
  {
  }

  /** A good answer inside the loop that does not raise is a piece of the value, or says that it ends here. */
  lemma {:induction false} GoodBlob(v: bytes, offset: nat, mtu: nat, pdu: bytes)
    requires offset <= |v| && HonestBlob(v, offset, mtu, Data(pdu))
    ensures var more := BlobOf(Data(pdu));
            && more.Ok? && offset + |more.value| <= |v| && more.value == v[offset..offset + |more.value|]
            && (more.value == [] ==> offset == |v| || |v| < mtu)
  {
    if NotLong(Data(pdu)) || InvalidOffset(Data(pdu)) {
      var h: u16, code: byte :| code in {ATT_ERR_INVALID_OFFSET, ATT_ERR_ATTRIBUTE_NOT_LONG}
                                && Data(pdu) == Data(ErrorPdu(READ_BLOB_REQ, h, code));
      ErrorPduClassifies(READ_BLOB_REQ, h, code, READ_BLOB_RSP);
    } else if offset < |v| {
      assert pdu[1..] == v[offset..offset + |pdu| - 1];
    }
  }

  /** The loop stops inside the value only where the record shows why. */
  lemma {:induction false} StopsInside(S: Session, v: bytes)
    requires S.reader.More? && HasPrefix(S, v) && |S.reader.value| < |v|
    requires |S.sized| == |S.outcomes| + 1 && |v| < S.sized[|S.outcomes|]
    ensures !AlwaysComplete(v, Mtus(S.sized), 0, S.noted)
  {
    assert Mtus(S.sized)(|S.outcomes|) > |v|;
  }

  lemma {:induction false} MoreConsumed(S: Session, T: Session, handle: u16, v: bytes, pdu: bytes, mtu: nat)
    requires S.reader.More? && HasPrefix(S, v) && |v| <= 0xFFFF && IsGood(S, v, pdu)
    requires T.reader == Consumes(S.reader, Data(pdu), mtu) && T.outcomes == S.outcomes + [Data(pdu)]
    requires T.sized == S.sized && T.noted == S.noted
    ensures Progress(T, v) && (T.reader.Returned? || |T.sized| == |T.outcomes|)
  {
    var value := S.reader.value;
    if Raises(pdu) {
      RaisesInLoop(pdu);
    } else {
      GoodBlob(v, |value|, S.sized[|S.outcomes|], pdu);
      var more := BlobOf(Data(pdu)).value;
      if more == [] {
        if |value| < |v| {
          StopsInside(S, v);
        }
        assert v[..|v|] == v;
      } else {
        assert v[..|value|] + more == v[..|value| + |more|];
      }
    }
  }

  lemma {:induction false} ExceptionReturns(reader: Reader, f: Failure, mtu: nat)
    requires !f.AttError? && !reader.Returned?
    ensures Consumes(reader, Exn(f), mtu) == Returned(Err(f))
  {
  }

  lemma {:induction false} EndKept(S: Session, step: Step, handle: u16, v: bytes)
    requires InSession(S, handle, v) && S.holds && Enabled(S.sys, step) && IsPlain(step)
    requires Ending(S.sys, step).Some?
    ensures InSession(Moved(S, Around(step), handle), handle, v)
  {
    SlotStep(S.sys, step);
    var T, outcome := Moved(S, Around(step), handle), Ending(S.sys, step).value;
    match outcome
    case Exn(f) => ExceptionReturns(S.reader, f, T.sys.client.mtu);
    case Data(pdu) =>
      assert S.outcomes == [] ==> S.outcomes + [outcome] == [outcome];
      if S.reader.First? {
        FirstConsumed(S, T, handle, v, pdu, T.sys.client.mtu);
      } else {
        MoreConsumed(S, T, handle, v, pdu, T.sys.client.mtu);
      }
  }

  lemma {:induction false} InSessionKept(S: Session, move: Move, handle: u16, v: bytes)
    requires InSession(S, handle, v) && CanMove(S, move, handle) && Admits(handle, v, S, move)
    ensures InSession(Moved(S, move, handle), handle, v)
  {
    match move
    case Mine => MineKept(S, handle, v);
    case Around(step) =>
      if !S.holds {
        OutsideKept(S, step, handle, v);
      } else if Ending(S.sys, step).Some? {
        EndKept(S, step, handle, v);
      } else {
        FlightKept(S, step, handle, v);
      }
  }

  lemma {:induction false} StaysInSession(S: Session, moves: seq<Move>, handle: u16, v: bytes)
    requires InSession(S, handle, v) && LegalMoves(S, moves, handle, v)
    ensures InSession(AfterMoves(S, moves, handle, v), handle, v)
  {
    forall T, move | InSession(T, handle, v) && CanMove(T, move, handle) && Admits(handle, v, T, move)
      ensures InSession(Moved(T, move, handle), handle, v)
    {
      InSessionKept(T, move, handle, v);
    }
    MovesKeep(S, moves, handle, v, T => InSession(T, handle, v));
  }

  /**
   * From every state with a sound slot, whatever goes on meanwhile: if read() returns, it returns the whole value
   * under the condition of ReadIsCompleteIff, on the MTU it noted and the MTUs its requests were answered with.
   */
  lemma {:induction false} ReadReturnsValue(s: Sys, moves: seq<Move>, handle: u16, v: bytes)
    requires SlotSound(s) && |v| <= 0xFFFF && LegalMoves(Begun(s), moves, handle, v)
    ensures var end := AfterMoves(Begun(s), moves, handle, v);
            end.reader.Returned? && end.reader.result.Ok? && AlwaysComplete(v, Mtus(end.sized), 0, end.noted) ==>
              end.reader.result == Ok(v)
  {
    StaysInSession(Begun(s), moves, handle, v);
  }

  // What the session computes is read().

  /** The link gives the transactions of the read the outcomes they had, and the read the MTU it noted. */
  ghost predicate Explains(policy: Policy, mtuAfter: nat -> nat, S: Session) {
    && |S.asked| == |S.outcomes|
    && (forall k {:trigger S.asked[k]} :: 0 <= k < |S.asked| ==> policy(k, S.asked[k]) == S.outcomes[k])
    && (!S.reader.First? ==> mtuAfter(0) == S.noted)
  }

  /** So far the session has done what read() does on such a link. */
  ghost predicate Computes(policy: Policy, mtuAfter: nat -> nat, S: Session, handle: u16) {
    match S.reader
    case First => S.asked == []
    case More(value, mtu) =>
      && |value| <= 0xFFFF && mtu - 1 <= |value| && S.asked != []
      && Read(policy, mtuAfter, 0, handle).result == Accumulate(policy, |S.asked|, handle, value, mtu).result
    case Returned(r) => Read(policy, mtuAfter, 0, handle).result == r
  }

  ghost predicate Followed(policy: Policy, mtuAfter: nat -> nat, S: Session, handle: u16) {
    && |S.asked| == |S.outcomes| && (S.reader.First? ==> S.asked == [])
    && (Explains(policy, mtuAfter, S) ==> Computes(policy, mtuAfter, S, handle))
  }

  lemma {:induction false} LoopComputes(
      policy: Policy, n: nat, handle: u16, value: bytes, mtu: nat, outcome: Outcome)
    requires |value| <= 0xFFFF && mtu - 1 <= |value| && policy(n, BlobRequest(handle, |value|)) == outcome
    ensures Accumulate(policy, n, handle, value, mtu).result ==
            match Consumes(More(value, mtu), outcome, 0)
            case Returned(r) => r
            case More(longer, _) => Accumulate(policy, n + 1, handle, longer, mtu).result
            case First => Ok([])
  {
    assert Blob(policy, n, handle, |value|).result == BlobOf(outcome);
    match BlobOf(outcome)
    case Err(_) =>
    case Ok(more) =>
      if more != [] && |value + more| > 0xFFFF {
        assert Blob(policy, n + 1, handle, |value + more|).result == Err(OverflowError);
      }
  }

  lemma {:induction false} EndComputes(
      policy: Policy, mtuAfter: nat -> nat, S: Session, T: Session, handle: u16, outcome: Outcome, mtu: nat)
    requires Computes(policy, mtuAfter, S, handle) && !S.reader.Returned?
    requires T.reader == Consumes(S.reader, outcome, mtu) && T.asked == S.asked + [Wanted(S.reader, handle)]
    requires policy(|S.asked|, Wanted(S.reader, handle)) == outcome
    requires S.reader.First? ==> mtuAfter(0) == mtu
    ensures Computes(policy, mtuAfter, T, handle)
  {
    match S.reader
    case First =>
      var first := Classify(outcome, READ_RSP);
      if first.Ok? && |From(first.value, 1)| > 0xFFFF {
        assert Blob(policy, 1, handle, |From(first.value, 1)|).result == Err(OverflowError);
      }
    case More(value, noted) => LoopComputes(policy, |S.asked|, handle, value, noted, outcome);
  }

  lemma {:induction false} FollowedKept(
      policy: Policy, mtuAfter: nat -> nat, S: Session, move: Move, handle: u16, v: bytes)
    requires InSession(S, handle, v) && Followed(policy, mtuAfter, S, handle)
    requires CanMove(S, move, handle) && Admits(handle, v, S, move)
    ensures Followed(policy, mtuAfter, Moved(S, move, handle), handle)
  {
    var T := Moved(S, move, handle);
    if S.holds && move.Around? && Ending(S.sys, move.step).Some? && Explains(policy, mtuAfter, T) {
      var n, outcome := |S.asked|, Ending(S.sys, move.step).value;
      assert T.asked[n] == Wanted(S.reader, handle) && T.outcomes[n] == outcome;
      assert forall k :: 0 <= k < n ==> T.asked[k] == S.asked[k] && T.outcomes[k] == S.outcomes[k];
      assert Explains(policy, mtuAfter, S);
      EndComputes(policy, mtuAfter, S, T, handle, outcome, T.sys.client.mtu);
    }
  }

  /** The result of a session is that of read() on every link that gives its transactions these outcomes. */
  lemma {:induction false} SessionIsRead(
      s: Sys, moves: seq<Move>, handle: u16, v: bytes, policy: Policy, mtuAfter: nat -> nat)
    requires SlotSound(s) && |v| <= 0xFFFF && LegalMoves(Begun(s), moves, handle, v)
    requires AfterMoves(Begun(s), moves, handle, v).reader.Returned?
    requires Explains(policy, mtuAfter, AfterMoves(Begun(s), moves, handle, v))
    ensures Read(policy, mtuAfter, 0, handle).result == AfterMoves(Begun(s), moves, handle, v).reader.result
  {
    forall T, move | InSession(T, handle, v) && Followed(policy, mtuAfter, T, handle)
                     && CanMove(T, move, handle) && Admits(handle, v, T, move)
      ensures InSession(Moved(T, move, handle), handle, v) && Followed(policy, mtuAfter, Moved(T, move, handle), handle)
    {
      InSessionKept(T, move, handle, v);
      FollowedKept(policy, mtuAfter, T, move, handle, v);
    }
    MovesKeep(Begun(s), moves, handle, v,
              T => InSession(T, handle, v) && Followed(policy, mtuAfter, T, handle));
  }
}

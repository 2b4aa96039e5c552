/**
 * Requests on a bearer that earlier requests may have left dirty: a transaction timed out or was cancelled, or
 * an Exchange MTU Request is still to be refused. Responses are not tagged, so a request is safe to make exactly
 * when nothing that could be taken for its answer is on its way.
 */
module SafeCalls {
  import opened Bytes
  import opened Seqs
  import opened Att
  import opened AttClient
  import opened AttSystem
  import opened Transactions
  import opened Pairing

  /** PDUs the server owes an answer. */
  predicate Owes(pdu: bytes) {
    IsAttributeRequest(pdu) || IsMtuRequest(pdu)
  }

  function Owed(q: seq<bytes>): seq<bytes> {
    Filter(Owes, q)
  }

  function AnswerTo(request: bytes): bytes -> bool {
    pdu => Answers(pdu, request)
  }

  function AnswersIn(request: bytes, q: seq<bytes>): seq<bytes> {
    Filter(AnswerTo(request), q)
  }

  /** No request is unanswered, an MTU exchange included, and nothing on its way would be taken for the answer. */
  predicate SafeToCall(s: Sys, request: bytes) {
    Owed(s.toPeer) == [] && AnswersIn(request, s.fromPeer) == []
  }

  /** One call and whatever else happens meanwhile, timeouts and cancellation included. */
  ghost predicate OneCall(s: Sys, step: Step) {
    FifoPeer(s, step) && !step.Acquire?
  }

  /** Nothing was completed, or the request was, with the one answer that the server gave to it. */
  ghost predicate PairedCall(s: Sys, request: bytes, end: Sys) {
    end.completed == s.completed ||
    (Owed(end.toPeer) == [] &&
     exists rsp :: end.served == s.served + [Exchange(request, rsp)]
                   && end.completed == s.completed + [Exchange(request, rsp)])
  }

  // A safe call stays paired.

  datatype Stage = Unsent | Waits | Answered(pdu: bytes) | Broken(sent: bool) | Over

  function StageOf(txn: Option<Txn>, pending: Option<Pending>): Stage {
    if txn.None? || pending.None? then Over
    else
      var outcome := pending.value.outcome;
      if outcome.None? then if txn.value.sent then Waits else Unsent
      else if outcome.value.Data? then Answered(outcome.value.pdu)
      else Broken(txn.value.sent)
  }

  /** The part of the state that one call is about. */
  datatype CallState = CallState(
    stage: Stage, owed: seq<bytes>, answers: seq<bytes>, completed: seq<Exchange>, served: seq<Exchange>)

  function CallOf(s: Sys, request: bytes): CallState {
    CallState(StageOf(s.txn, s.client.pending), Owed(s.toPeer), AnswersIn(request, s.fromPeer), s.completed, s.served)
  }

  /** The server has not answered the request yet, or it has and owes nothing more. */
  predicate AtMostServed(c: CallState, request: bytes, served: seq<Exchange>) {
    || (c.served == served && (c.owed == [] || c.owed == [request]))
    || (c.owed == [] && |c.served| == |served| + 1 && c.served[..|served|] == served)
  }

  /** Where a call stands that began with these exchanges completed and served. */
  predicate Tracks(c: CallState, request: bytes, completed: seq<Exchange>, served: seq<Exchange>) {
    match c.stage
    case Unsent => c.completed == completed && c.served == served && c.owed == [] && c.answers == []
    case Waits =>
      && c.completed == completed
      && if c.answers == [] then c.served == served && (c.owed == [] || c.owed == [request])
         else |c.answers| == 1 && c.owed == [] && c.served == served + [Exchange(request, c.answers[0])]
    case Answered(pdu) =>
      c.completed == completed && c.owed == [] && c.served == served + [Exchange(request, pdu)]
    case Broken(sent) =>
      && c.completed == completed && AtMostServed(c, request, served)
      && (!sent ==> c.served == served && c.owed == [])
    case Over =>
      || (c.completed == completed && AtMostServed(c, request, served))
      || (&& c.owed == [] && |c.completed| == |completed| + 1
          && var last := c.completed[|completed|];
             last.request == request && c.completed == completed + [last] && c.served == served + [last])
  }

  ghost predicate InCall(s: Sys, request: bytes, completed: seq<Exchange>, served: seq<Exchange>) {
    && SlotSound(s)
    && IsAttributeRequest(request)
    && (s.txn.Some? ==> s.txn.value.payload == request)
    && (s.txn.Some? && !s.txn.value.sent ==> !StageOf(s.txn, s.client.pending).Answered?)
    && Tracks(CallOf(s, request), request, completed, served)
  }

  lemma {:induction false} DeliverInCall(s: Sys, request: bytes, completed: seq<Exchange>, served: seq<Exchange>)
    requires InCall(s, request, completed, served) && Enabled(s, Deliver)
    ensures InCall(Apply(s, Deliver), request, completed, served)
  {
    SlotStep(s, Deliver);
    TakeFirst(AnswerTo(request), s.fromPeer);
    DeliverStage(s, request);
    var c, c' := CallOf(s, request), CallOf(Apply(s, Deliver), request);
    assert c' == c.(stage := c'.stage, answers := c'.answers);
  }

  /** A waiting or unsent call takes exactly its answers. */
  lemma {:induction false} DeliverStage(s: Sys, request: bytes)
    requires SlotSound(s) && Enabled(s, Deliver) && IsAttributeRequest(request)
    requires s.txn.Some? ==> s.txn.value.payload == request
    ensures var stage, pdu := StageOf(s.txn, s.client.pending), s.fromPeer[0];
            var s' := Apply(s, Deliver);
            StageOf(s'.txn, s'.client.pending) ==
              if stage in {Unsent, Waits} && Answers(pdu, request) then Answered(pdu) else stage
  {
  }

  lemma {:induction false} ServeInCall(
      s: Sys, rsp: bytes, request: bytes, completed: seq<Exchange>, served: seq<Exchange>)
    requires InCall(s, request, completed, served)
    requires Enabled(s, PeerServe(rsp)) && FifoPeer(s, PeerServe(rsp))
    ensures InCall(Apply(s, PeerServe(rsp)), request, completed, served)
  {
    SlotStep(s, PeerServe(rsp));
    TakeFirst(Owes, s.toPeer);
    FilterAppend(AnswerTo(request), s.fromPeer, rsp);
    var c, c' := CallOf(s, request), CallOf(Apply(s, PeerServe(rsp)), request);
    assert Owes(s.toPeer[0]) && c.owed == [s.toPeer[0]] + c'.owed;
    assert c.owed == [request] && c.owed[0] == s.toPeer[0];
    assert c' == c.(owed := [], answers := c'.answers, served := c.served + [Exchange(request, rsp)]);
  }

  lemma {:induction false} PeerInCall(
      s: Sys, step: Step, request: bytes, completed: seq<Exchange>, served: seq<Exchange>)
    requires InCall(s, request, completed, served) && Enabled(s, step) && FifoPeer(s, step)
    requires step.PeerTake? || step.PeerEmit?
    ensures InCall(Apply(s, step), request, completed, served)
  {
    SlotStep(s, step);
    var c, c' := CallOf(s, request), CallOf(Apply(s, step), request);
    if step.PeerEmit? {
      FilterAppend(AnswerTo(request), s.fromPeer, step.pdu);
      assert c' == c;
    } else {
      TakeFirst(Owes, s.toPeer);
      assert c' == c.(owed := c'.owed);
    }
  }

  lemma {:induction false} SendInCall(
      s: Sys, step: Step, request: bytes, completed: seq<Exchange>, served: seq<Exchange>)
    requires InCall(s, request, completed, served) && Enabled(s, step)
    requires step.SendRequest? || step.RunTask? || step.WriteCommand?
    ensures InCall(Apply(s, step), request, completed, served)
  {
    SlotStep(s, step);
    var c, c' := CallOf(s, request), CallOf(Apply(s, step), request);
    match step
    case SendRequest =>
      FilterAppend(Owes, s.toPeer, request);
      assert c' == c.(stage := c'.stage, owed := c'.owed);
      assert c.owed == [] && [] + [request] == [request];
    case RunTask(i) =>
      FilterAppend(Owes, s.toPeer, TaskPdu(s.client.tasks[i]));
      assert c' == c;
    case WriteCommand(payload) =>
      FilterAppend(Owes, s.toPeer, payload);
      assert c' == c;
  }

  lemma {:induction false} SlotInCall(
      s: Sys, step: Step, request: bytes, completed: seq<Exchange>, served: seq<Exchange>)
    requires InCall(s, request, completed, served) && Enabled(s, step)
    requires step.SendFails? || step.Resume? || step.Expire? || step.Abandon? || step.PeerClose?
    ensures InCall(Apply(s, step), request, completed, served)
  {
    SlotStep(s, step);
    var c, c' := CallOf(s, request), CallOf(Apply(s, step), request);
    assert c' == c.(stage := c'.stage, completed := c'.completed);
  }

  lemma {:induction false} InCallKept(
      s: Sys, step: Step, request: bytes, completed: seq<Exchange>, served: seq<Exchange>)
    requires InCall(s, request, completed, served) && Enabled(s, step) && OneCall(s, step)
    ensures InCall(Apply(s, step), request, completed, served)
  {
    match step
    case Deliver => DeliverInCall(s, request, completed, served);
    case PeerServe(rsp) => ServeInCall(s, rsp, request, completed, served);
    case PeerTake => PeerInCall(s, step, request, completed, served);
    case PeerEmit(_) => PeerInCall(s, step, request, completed, served);
    case SendRequest => SendInCall(s, step, request, completed, served);
    case RunTask(_) => SendInCall(s, step, request, completed, served);
    case WriteCommand(_) => SendInCall(s, step, request, completed, served);
    case SendFails => SlotInCall(s, step, request, completed, served);
    case Resume => SlotInCall(s, step, request, completed, served);
    case Expire(_) => SlotInCall(s, step, request, completed, served);
    case Abandon(_) => SlotInCall(s, step, request, completed, served);
    case PeerClose(_) => SlotInCall(s, step, request, completed, served);
    case Acquire(_) =>
    case _ => assert CallOf(Apply(s, step), request) == CallOf(s, request);
  }

  lemma {:induction false} SafeCallBegins(s: Sys, request: bytes)
    requires SlotSound(s) && Enabled(s, Acquire(request)) && IsAttributeRequest(request) && SafeToCall(s, request)
    ensures InCall(Apply(s, Acquire(request)), request, s.completed, s.served)
  {
    SlotStep(s, Acquire(request));
  }

  lemma {:induction false} SafeCallPairs(s: Sys, request: bytes, steps: seq<Step>)
    requires SlotSound(s) && Enabled(s, Acquire(request)) && IsAttributeRequest(request) && SafeToCall(s, request)
    requires Legal(Apply(s, Acquire(request)), steps, OneCall)
    ensures PairedCall(s, request, Run(Apply(s, Acquire(request)), steps, OneCall))
  {
    var called := Apply(s, Acquire(request));
    SafeCallBegins(s, request);
    forall t, step | InCall(t, request, s.completed, s.served) && Enabled(t, step) && OneCall(t, step)
      ensures InCall(Apply(t, step), request, s.completed, s.served)
    {
      InCallKept(t, step, request, s.completed, s.served);
    }
    RunKeeps(called, steps, OneCall, t => InCall(t, request, s.completed, s.served));
    var end := Run(called, steps, OneCall);
    if end.completed != s.completed {
      var last := end.completed[|s.completed|];
      assert last == Exchange(request, last.response);
    }
  }

  // An unsafe call can be given somebody else's answer.

  /** The request is on its way and waits, and something before its own answer can be taken for it. */
  ghost predicate AtRisk(s: Sys, request: bytes) {
    && SlotSound(s) && s.open && IsAttributeRequest(request)
    && s.txn == Some(Txn(request, true)) && s.client.Waiting()
    && s.toPeer != [] && s.toPeer[|s.toPeer| - 1] == request
    && (AnswersIn(request, s.fromPeer) != [] || Owed(s.toPeer[..|s.toPeer| - 1]) != [])
  }

  /** The request has been completed, and the server has either answered nothing since or still owes an answer. */
  ghost predicate Mispaired(s: Sys, request: bytes, end: Sys) {
    && |end.completed| == |s.completed| + 1 && end.completed[|s.completed|].request == request
    && (end.served == s.served || Owed(end.toPeer) != [])
  }

  lemma {:induction false} OwedLast(q: seq<bytes>, request: bytes)
    requires q != [] && q[|q| - 1] == request && IsAttributeRequest(request)
    ensures Owed(q) == Owed(q[..|q| - 1]) + [request]
  {
    assert q[..|q| - 1] + [request] == q;
    FilterAppend(Owes, q[..|q| - 1], request);
  }

  /** The next PDU answers the request: the coroutine resumes with it. */
  lemma {:induction false} TakesNext(s: Sys, request: bytes)
    requires SlotSound(s) && s.open && IsAttributeRequest(request)
    requires s.txn == Some(Txn(request, true)) && s.client.Waiting()
    requires s.fromPeer != [] && Answers(s.fromPeer[0], request)
    ensures var steps := [Deliver] + ([Resume] + []);
            && Legal(s, steps, OneCall)
            && var end := Run(s, steps, OneCall);
               end.completed == s.completed + [Exchange(request, s.fromPeer[0])]
               && end.served == s.served && end.toPeer == s.toPeer
  {
    var s1 := Apply(s, Deliver);
    RunCons(s1, Resume, [], OneCall);
    RunCons(s, Deliver, [Resume] + [], OneCall);
  }

  /** The peer answers the oldest request with an error, which any request takes. */
  lemma {:induction false} TakesError(s: Sys, request: bytes) returns (steps: seq<Step>)
    requires AtRisk(s, request) && s.fromPeer == [] && |s.toPeer| > 1 && Owes(s.toPeer[0])
    ensures Legal(s, steps, OneCall) && Mispaired(s, request, Run(s, steps, OneCall))
  {
    var err := ErrorPdu(s.toPeer[0][0], 0, ATT_ERR_ATTRIBUTE_NOT_FOUND);
    var s1 := Apply(s, PeerServe(err));
    assert s1.fromPeer == [err] && s1.toPeer == s.toPeer[1..];
    SlotStep(s, PeerServe(err));
    TakesNext(s1, request);
    var rest := [Deliver] + ([Resume] + []);
    steps := [PeerServe(err)] + rest;
    RunCons(s, PeerServe(err), rest, OneCall);
    OwedLast(s1.toPeer, request);
  }

  lemma {:induction false} RiskDelivered(s: Sys, request: bytes)
    requires AtRisk(s, request) && s.fromPeer != [] && !Answers(s.fromPeer[0], request)
    ensures AtRisk(Apply(s, Deliver), request)
  {
    SlotStep(s, Deliver);
    NotTaken(s, request);
    TakeFirst(AnswerTo(request), s.fromPeer);
  }

  lemma {:induction false} NotTaken(s: Sys, request: bytes)
    requires SlotSound(s) && s.open && IsAttributeRequest(request) && s.txn == Some(Txn(request, true))
    requires s.client.Waiting() && s.fromPeer != [] && !Answers(s.fromPeer[0], request)
    ensures Apply(s, Deliver).client.pending == s.client.pending
  {
  }

  lemma {:induction false} RiskTaken(s: Sys, request: bytes)
    requires AtRisk(s, request) && |s.toPeer| > 1 && !Owes(s.toPeer[0])
    ensures AtRisk(Apply(s, PeerTake), request)
  {
    SlotStep(s, PeerTake);
    var before := s.toPeer[..|s.toPeer| - 1];
    TakeFirst(Owes, before);
    assert before[1..] == s.toPeer[1..][..|s.toPeer| - 2];
  }

  lemma {:induction false} RiskRealised(s: Sys, request: bytes) returns (steps: seq<Step>)
    requires AtRisk(s, request)
    ensures Legal(s, steps, OneCall) && Mispaired(s, request, Run(s, steps, OneCall))
    decreases |s.fromPeer| + |s.toPeer|
  {
    if s.fromPeer != [] {
      if Answers(s.fromPeer[0], request) {
        steps := [Deliver] + ([Resume] + []);
        TakesNext(s, request);
      } else {
        RiskDelivered(s, request);
        var rest := RiskRealised(Apply(s, Deliver), request);
        steps := [Deliver] + rest;
        RunCons(s, Deliver, rest, OneCall);
      }
    } else {
      assert |s.toPeer| > 1;
      if Owes(s.toPeer[0]) {
        steps := TakesError(s, request);
      } else {
        RiskTaken(s, request);
        var rest := RiskRealised(Apply(s, PeerTake), request);
        steps := [PeerTake] + rest;
        RunCons(s, PeerTake, rest, OneCall);
      }
    }
  }

  lemma {:induction false} UnsafeCallMispairs(s: Sys, request: bytes) returns (steps: seq<Step>)
    requires SlotSound(s) && s.open && Enabled(s, Acquire(request)) && IsAttributeRequest(request)
    requires !SafeToCall(s, request)
    ensures Legal(Apply(s, Acquire(request)), steps, OneCall)
    ensures Mispaired(s, request, Run(Apply(s, Acquire(request)), steps, OneCall))
  {
    var called := Apply(s, Acquire(request));
    var sent := Apply(called, SendRequest);
    SlotStep(s, Acquire(request));
    SlotStep(called, SendRequest);
    assert sent.toPeer[..|s.toPeer|] == s.toPeer;
    var rest := RiskRealised(sent, request);
    steps := [SendRequest] + rest;
    RunCons(called, SendRequest, rest, OneCall);
  }

  ghost predicate AlwaysPairs(s: Sys, called: Sys, request: bytes) {
    forall steps :: Legal(called, steps, OneCall) ==> PairedCall(s, request, Run(called, steps, OneCall))
  }

  /**
   * Exactly when is a call safe? Whatever happens until it ends, timeouts and refusals included, the call completes
   * only with the server's answer to it: if and only if, before the call, no request is unanswered and nothing on
   * its way would be taken for the answer.
   */
  lemma {:induction false} SafeCallIff(s: Sys, request: bytes)
    requires SlotSound(s) && s.open && Enabled(s, Acquire(request)) && IsAttributeRequest(request)
    ensures SafeToCall(s, request) <==> AlwaysPairs(s, Apply(s, Acquire(request)), request)
  {
    var called := Apply(s, Acquire(request));
    if SafeToCall(s, request) {
      forall steps | Legal(called, steps, OneCall) ensures PairedCall(s, request, Run(called, steps, OneCall)) {
        SafeCallPairs(s, request, steps);
      }
    } else {
      var steps := UnsafeCallMispairs(s, request);
      assert Legal(called, steps, OneCall) && !PairedCall(s, request, Run(called, steps, OneCall));
    }
  }

  // Whole runs of safe calls.

  /** A FIFO server, any timeouts, cancellations and refusals, and a caller that makes safe calls only. */
  ghost predicate CarefulCaller(s: Sys, step: Step) {
    FifoPeer(s, step) &&
    (step.Acquire? && IsAttributeRequest(step.payload) ==> SafeToCall(s, step.payload))
  }

  predicate Calling(s: Sys) {
    s.txn.Some? && IsAttributeRequest(s.txn.value.payload)
  }

  /** What the server had answered when the pending call began. */
  function ServedBefore(s: Sys): seq<Exchange>
    requires Calling(s)
  {
    var c := CallOf(s, s.txn.value.payload);
    if (c.stage.Answered? || (c.stage.Waits? && c.answers != [])) && s.served != []
    then s.served[..|s.served| - 1] else s.served
  }

  ghost predicate Careful(s: Sys) {
    && SlotSound(s)
    && if Calling(s)
       then InCall(s, s.txn.value.payload, s.completed, ServedBefore(s)) && Sublist(s.completed, ServedBefore(s))
       else Sublist(s.completed, s.served)
  }

  /** However a step leaves the call, the books of the run stay in order. */
  lemma {:induction false} CarefulAfterCall(s: Sys, request: bytes, completed: seq<Exchange>, served: seq<Exchange>)
    requires InCall(s, request, completed, served) && Sublist(completed, served)
    ensures Careful(s)
  {
    var c := CallOf(s, request);
    if c.completed == completed && AtMostServed(c, request, served) {
      if c.served != served {
        assert c.served == served + [c.served[|served|]];
        SublistSkips(completed, served, c.served[|served|]);
      }
    } else if c.stage.Over? {
      SublistExtends(completed, served, c.completed[|completed|]);
    }
  }

  lemma {:induction false} CarefulOutside(s: Sys, step: Step)
    requires Careful(s) && !Calling(s) && Enabled(s, step) && CarefulCaller(s, step)
    ensures Careful(Apply(s, step))
  {
    SlotStep(s, step);
    match step
    case Acquire(payload) =>
      if IsAttributeRequest(payload) {
        SafeCallBegins(s, payload);
      }
    case PeerServe(rsp) => SublistSkips(s.completed, s.served, Exchange(s.toPeer[0], rsp));
    case _ =>
  }

  lemma {:induction false} CarefulStep(s: Sys, step: Step)
    requires Careful(s) && Enabled(s, step) && CarefulCaller(s, step)
    ensures Careful(Apply(s, step))
  {
    if Calling(s) {
      var request, served := s.txn.value.payload, ServedBefore(s);
      InCallKept(s, step, request, s.completed, served);
      CarefulAfterCall(Apply(s, step), request, s.completed, served);
    } else {
      CarefulOutside(s, step);
    }
  }

  lemma {:induction false} CarefulIsServed(s: Sys)
    requires Careful(s)
    ensures Sublist(s.completed, s.served)
  {
    if Calling(s) && ServedBefore(s) != s.served {
      var last := s.served[|s.served| - 1];
      assert s.served == ServedBefore(s) + [last];
      SublistSkips(s.completed, ServedBefore(s), last);
    }
  }

  /**
   * In every run of safe calls, with timeouts, cancellations and refused exchanges, every completed transaction has
   * a request the server answered and that very answer, in the order in which the server answered them.
   */
  lemma {:induction false} CarefulCallsPair(peerRx: u16, steps: seq<Step>)
    requires Legal(Init(peerRx), steps, CarefulCaller)
    ensures var end := Run(Init(peerRx), steps, CarefulCaller);
            Sublist(end.completed, end.served)
  {
    forall t, step | Careful(t) && Enabled(t, step) && CarefulCaller(t, step) ensures Careful(Apply(t, step)) {
      CarefulStep(t, step);
    }
    RunKeeps(Init(peerRx), steps, CarefulCaller, Careful);
    CarefulIsServed(Run(Init(peerRx), steps, CarefulCaller));
  }
}

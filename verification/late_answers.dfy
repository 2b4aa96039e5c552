/** The two ways in which an answer comes too late, and exactly when it does harm. */
module LateAnswers {
  import opened Bytes
  import opened Att
  import opened AttSystem
  import opened Transactions
  import opened Pairing

  // A transaction timed out, and its answer arrives during the next one.

  function TimesOut(first: bytes): seq<Step> {
    [Acquire(first)] + ([SendRequest] + ([Expire(TimedOut)] + ([Resume] + [])))
  }

  /** The next request is sent, and then the server answers the first one. */
  function AnsweredLate(second: bytes, rsp: bytes): seq<Step> {
    [Acquire(second)] + ([SendRequest] + ([PeerServe(rsp)] + ([Deliver] + [])))
  }

  lemma {:induction false} AfterTimeout(peerRx: u16, first: bytes)
    requires IsAttributeRequest(first)
    ensures Legal(Init(peerRx), TimesOut(first), FifoPeer)
    ensures var s := Run(Init(peerRx), TimesOut(first), FifoPeer);
            s.open && s.txn.None? && s.client.pending.None? && s.toPeer == [first] && s.fromPeer == []
            && s.served == [] && s.completed == []
  {
    var s0 := Init(peerRx);
    var s1 := Apply(s0, Acquire(first));
    var s2 := Apply(s1, SendRequest);
    var s3 := Apply(s2, Expire(TimedOut));
    RunCons(s3, Resume, [], FifoPeer);
    RunCons(s2, Expire(TimedOut), [Resume] + [], FifoPeer);
    RunCons(s1, SendRequest, [Expire(TimedOut)] + ([Resume] + []), FifoPeer);
    RunCons(s0, Acquire(first), [SendRequest] + ([Expire(TimedOut)] + ([Resume] + [])), FifoPeer);
  }

  lemma {:induction false} LateAnswerArrives(s: Sys, first: bytes, second: bytes, rsp: bytes)
    requires IsAttributeRequest(first) && IsAttributeRequest(second) && Answers(rsp, first)
    requires s.open && s.txn == Some(Txn(second, true)) && s.toPeer == [first, second] && s.fromPeer == []
    requires s.client.Waiting() && s.client.pending.value.expected == ExpectedOpcode(second)
    ensures Legal(s, [PeerServe(rsp)] + ([Deliver] + []), FifoPeer)
    ensures var t := Run(s, [PeerServe(rsp)] + ([Deliver] + []), FifoPeer);
            && (Enabled(t, Resume) <==> first[0] == second[0] || rsp[0] == ERROR_RSP)
            && t.served == s.served + [Exchange(first, rsp)]
            && (if Enabled(t, Resume)
                then Apply(t, Resume).completed == s.completed + [Exchange(second, rsp)]
                else t.client.Waiting() && t.toPeer == [second] && t.fromPeer == [] && t.completed == s.completed)
  {
    var s' := Apply(s, PeerServe(rsp));
    assert s'.fromPeer == [rsp] && s'.toPeer == [second];
    RunCons(s', Deliver, [], FifoPeer);
    RunCons(s, PeerServe(rsp), [Deliver] + [], FifoPeer);
  }

  /** The late answer is taken for the second request exactly if the opcodes agree or it is an error. */
  lemma {:induction false} LateAnswerTakenIff(s: Sys, first: bytes, second: bytes, rsp: bytes)
    requires IsAttributeRequest(first) && IsAttributeRequest(second) && Answers(rsp, first)
    requires s.open && s.txn.None? && s.client.pending.None? && s.toPeer == [first] && s.fromPeer == []
    ensures Legal(s, AnsweredLate(second, rsp), FifoPeer)
    ensures var t := Run(s, AnsweredLate(second, rsp), FifoPeer);
            && (Enabled(t, Resume) <==> first[0] == second[0] || rsp[0] == ERROR_RSP)
            && t.served == s.served + [Exchange(first, rsp)]
            && (if Enabled(t, Resume)
                then Apply(t, Resume).completed == s.completed + [Exchange(second, rsp)]
                else t.client.Waiting() && t.toPeer == [second] && t.fromPeer == [] && t.completed == s.completed)
  {
    var s1 := Apply(s, Acquire(second));
    var s2 := Apply(s1, SendRequest);
    LateAnswerArrives(s2, first, second, rsp);
    RunCons(s1, SendRequest, [PeerServe(rsp)] + ([Deliver] + []), FifoPeer);
    RunCons(s, Acquire(second), [SendRequest] + ([PeerServe(rsp)] + ([Deliver] + [])), FifoPeer);
  }

  /** From the start: after a timeout the next request gets the late answer exactly under that condition. */
  lemma {:induction false} LateAnswerMispairsIff(peerRx: u16, first: bytes, second: bytes, rsp: bytes)
    requires IsAttributeRequest(first) && IsAttributeRequest(second) && Answers(rsp, first)
    ensures var steps := TimesOut(first) + AnsweredLate(second, rsp);
            && Legal(Init(peerRx), steps, FifoPeer)
            && var t := Run(Init(peerRx), steps, FifoPeer);
               && t.served == [Exchange(first, rsp)]
               && (Enabled(t, Resume) <==> first[0] == second[0] || rsp[0] == ERROR_RSP)
               && (Enabled(t, Resume) ==> Apply(t, Resume).completed == [Exchange(second, rsp)])
  {
    AfterTimeout(peerRx, first);
    var s := Run(Init(peerRx), TimesOut(first), FifoPeer);
    LateAnswerTakenIff(s, first, second, rsp);
    RunConcat(Init(peerRx), TimesOut(first), AnsweredLate(second, rsp), FifoPeer);
  }

  // An Exchange MTU Request is refused after the peer's own request has satisfied the exchange.

  /** Nothing times out and nothing is cancelled; a refusal may come at any time. */
  ghost predicate PatientCaller(s: Sys, step: Step) {
    FifoPeer(s, step) && !step.Expire? && !step.Abandon?
  }

  function CrossingExchange(peerRx: u16): seq<Step> {
    [Acquire(MtuPdu(EXCHANGE_MTU_REQ, PREFERRED_MTU))] + ([SendRequest] +
      ([PeerEmit(MtuPdu(EXCHANGE_MTU_REQ, peerRx))] + ([Deliver] + ([Resume] + []))))
  }

  function RefusedThen(request: bytes, refusal: bytes): seq<Step> {
    [Acquire(request)] + ([SendRequest] + ([PeerServe(refusal)] + ([Deliver] + ([Resume] + []))))
  }

  lemma {:induction false} AfterCrossing(peerRx: u16)
    ensures Legal(Init(peerRx), CrossingExchange(peerRx), PatientCaller)
    ensures var s := Run(Init(peerRx), CrossingExchange(peerRx), PatientCaller);
            s.open && s.txn.None? && s.client.pending.None? && s.fromPeer == []
            && s.toPeer == [MtuPdu(EXCHANGE_MTU_REQ, PREFERRED_MTU)] && s.served == [] && s.completed == []
  {
    var ours, theirs := MtuPdu(EXCHANGE_MTU_REQ, PREFERRED_MTU), MtuPdu(EXCHANGE_MTU_REQ, peerRx);
    assert ours[0] == EXCHANGE_MTU_REQ && theirs[0] == EXCHANGE_MTU_REQ;
    var s0 := Init(peerRx);
    var s1 := Apply(s0, Acquire(ours));
    var s2 := Apply(s1, SendRequest);
    var s3 := Apply(s2, PeerEmit(theirs));
    var s4 := Apply(s3, Deliver);
    assert s3.fromPeer == [theirs];
    RunCons(s4, Resume, [], PatientCaller);
    RunCons(s3, Deliver, [Resume] + [], PatientCaller);
    RunCons(s2, PeerEmit(theirs), [Deliver] + ([Resume] + []), PatientCaller);
    RunCons(s1, SendRequest, [PeerEmit(theirs)] + ([Deliver] + ([Resume] + [])), PatientCaller);
    RunCons(s0, Acquire(ours), [SendRequest] + ([PeerEmit(theirs)] + ([Deliver] + ([Resume] + []))), PatientCaller);
  }

  lemma {:induction false} RefusalArrives(s: Sys, request: bytes, refusal: bytes)
    requires IsAttributeRequest(request) && IsError(refusal)
    requires s.open && s.txn == Some(Txn(request, true)) && s.client.Waiting() && s.fromPeer == []
    requires s.toPeer == [MtuPdu(EXCHANGE_MTU_REQ, PREFERRED_MTU), request]
    ensures var steps := [PeerServe(refusal)] + ([Deliver] + ([Resume] + []));
            && Legal(s, steps, PatientCaller)
            && var end := Run(s, steps, PatientCaller);
               end.completed == s.completed + [Exchange(request, refusal)] && end.served == s.served
  {
    var s' := Apply(s, PeerServe(refusal));
    assert s'.fromPeer == [refusal] && s.toPeer[0] == MtuPdu(EXCHANGE_MTU_REQ, PREFERRED_MTU);
    RunCons(Apply(s', Deliver), Resume, [], PatientCaller);
    RunCons(s', Deliver, [Resume] + [], PatientCaller);
    RunCons(s, PeerServe(refusal), [Deliver] + ([Resume] + []), PatientCaller);
  }

  lemma {:induction false} RefusalTaken(s: Sys, request: bytes, refusal: bytes)
    requires IsAttributeRequest(request) && IsError(refusal)
    requires s.open && s.txn.None? && s.client.pending.None? && s.fromPeer == []
    requires s.toPeer == [MtuPdu(EXCHANGE_MTU_REQ, PREFERRED_MTU)]
    ensures Legal(s, RefusedThen(request, refusal), PatientCaller)
    ensures var end := Run(s, RefusedThen(request, refusal), PatientCaller);
            end.completed == s.completed + [Exchange(request, refusal)] && end.served == s.served
  {
    var s1 := Apply(s, Acquire(request));
    var s2 := Apply(s1, SendRequest);
    RefusalArrives(s2, request, refusal);
    RunCons(s1, SendRequest, [PeerServe(refusal)] + ([Deliver] + ([Resume] + [])), PatientCaller);
    RunCons(s, Acquire(request), [SendRequest] + ([PeerServe(refusal)] + ([Deliver] + ([Resume] + []))), PatientCaller);
  }

  /** With no timeout at all: the refusal of a crossing exchange fails the next request, whatever it is. */
  lemma {:induction false} LateRefusalMispairs(peerRx: u16, request: bytes, code: byte)
    requires IsAttributeRequest(request)
    ensures var refusal := ErrorPdu(EXCHANGE_MTU_REQ, 0, code);
            var steps := CrossingExchange(peerRx) + RefusedThen(request, refusal);
            && Legal(Init(peerRx), steps, PatientCaller)
            && var end := Run(Init(peerRx), steps, PatientCaller);
               end.completed == [Exchange(request, refusal)] && end.served == []
  {
    AfterCrossing(peerRx);
    var s := Run(Init(peerRx), CrossingExchange(peerRx), PatientCaller);
    RefusalTaken(s, request, ErrorPdu(EXCHANGE_MTU_REQ, 0, code));
    RunConcat(Init(peerRx), CrossingExchange(peerRx), RefusedThen(request, ErrorPdu(EXCHANGE_MTU_REQ, 0, code)),
              PatientCaller);
  }

  // When a refusal does harm.

  const ANY_REQUEST: bytes := [READ_REQ, 0x01, 0x00]

  ghost predicate OutOfStep(end: Sys) {
    !(end.completed <= end.served)
  }

  /** An error that is next to arrive completes a transaction that waits, and the server has answered none. */
  lemma {:induction false} ErrorCompletes(s: Sys, err: bytes)
    requires SlotSound(s) && s.open && s.fromPeer == [err] && IsError(err) && s.completed == s.served
    requires PhaseOf(s).Asked?
    ensures var steps := [Deliver] + ([Resume] + []);
            Legal(s, steps, FifoServer) && OutOfStep(Run(s, steps, FifoServer))
  {
    var s1 := Apply(s, Deliver);
    RunCons(s1, Resume, [], FifoServer);
    RunCons(s, Deliver, [Resume] + [], FifoServer);
  }

  lemma {:induction false} ErrorAfterSend(s: Sys, err: bytes) returns (steps: seq<Step>)
    requires SlotSound(s) && s.open && s.fromPeer == [err] && IsError(err) && s.completed == s.served
    requires s.txn.Some? && !s.txn.value.sent && IsAttributeRequest(s.txn.value.payload) && s.client.Waiting()
    ensures Legal(s, steps, FifoServer) && OutOfStep(Run(s, steps, FifoServer))
  {
    var rest := [Deliver] + ([Resume] + []);
    SlotStep(s, SendRequest);
    ErrorCompletes(Apply(s, SendRequest), err);
    steps := [SendRequest] + rest;
    RunCons(s, SendRequest, rest, FifoServer);
  }

  lemma {:induction false} ErrorHitsNext(s: Sys, err: bytes) returns (steps: seq<Step>)
    requires SlotSound(s) && s.open && s.fromPeer == [err] && IsError(err) && s.completed == s.served && s.txn.None?
    ensures Legal(s, steps, FifoServer) && OutOfStep(Run(s, steps, FifoServer))
  {
    SlotStep(s, Acquire(ANY_REQUEST));
    var rest := ErrorAfterSend(Apply(s, Acquire(ANY_REQUEST)), err);
    steps := [Acquire(ANY_REQUEST)] + rest;
    RunCons(s, Acquire(ANY_REQUEST), rest, FifoServer);
  }

  /** The slot is left by this step. */
  lemma {:induction false} ErrorHitsAfter(s: Sys, step: Step, err: bytes) returns (steps: seq<Step>)
    requires SlotSound(s) && s.open && s.fromPeer == [err] && IsError(err)
    requires (step == SendFails || step == Resume) && Enabled(s, step)
    requires Apply(s, step).completed == s.served
    ensures Legal(s, steps, FifoServer) && OutOfStep(Run(s, steps, FifoServer))
  {
    SlotStep(s, step);
    var rest := ErrorHitsNext(Apply(s, step), err);
    steps := [step] + rest;
    RunCons(s, step, rest, FifoServer);
  }

  /** In the state without the error, everything is in step and no exchange waits. */
  ghost predicate Stray(s: Sys, err: bytes) {
    && SlotSound(s) && s.open && IsError(err)
    && s.fromPeer != [] && s.fromPeer[|s.fromPeer| - 1] == err
    && var rest := s.(fromPeer := s.fromPeer[..|s.fromPeer| - 1]);
       && InStep(rest)
       && (PhaseOf(rest).Exchanging? ==> Settlers(rest.fromPeer) != [])
  }

  lemma {:induction false} StrayArrives(s: Sys, err: bytes) returns (steps: seq<Step>)
    requires Stray(s, err) && |s.fromPeer| == 1
    ensures Legal(s, steps, FifoServer) && OutOfStep(Run(s, steps, FifoServer))
  {
    assert s.fromPeer == [err] && s.fromPeer[..0] == [];
    var rest := s.(fromPeer := []);
    assert Settlers([]) == [] && Responses([]) == [];
    assert InStep(rest) && PhaseOf(rest) == PhaseOf(s);
    assert BooksOf(rest).responses == [] && BooksOf(rest).settlers == [];
    if s.txn.None? {
      steps := ErrorHitsNext(s, err);
    } else if PhaseOf(s).Asked? {
      ErrorCompletes(s, err);
      steps := [Deliver] + ([Resume] + []);
    } else if PhaseOf(s).Done? || (s.txn.value.sent && !s.client.Waiting()) {
      steps := ErrorHitsAfter(s, Resume, err);
    } else if IsMtuRequest(s.txn.value.payload) {
      steps := ErrorHitsAfter(s, SendFails, err);
    } else {
      steps := ErrorAfterSend(s, err);
    }
  }

  lemma {:induction false} StrayApproaches(s: Sys, err: bytes)
    requires Stray(s, err) && |s.fromPeer| > 1
    ensures Stray(Apply(s, Deliver), err)
  {
    var q := s.fromPeer[..|s.fromPeer| - 1];
    var rest := s.(fromPeer := q);
    assert q[0] == s.fromPeer[0] && s.fromPeer[1..][..|s.fromPeer| - 2] == q[1..];
    SlotStep(s, Deliver);
    StillSettles(rest);
    assert Apply(rest, Deliver) == Apply(s, Deliver).(fromPeer := q[1..]);
  }

  lemma {:induction false} StillSettles(s: Sys)
    requires InStep(s) && Enabled(s, Deliver) && (PhaseOf(s).Exchanging? ==> Settlers(s.fromPeer) != [])
    ensures var s' := Apply(s, Deliver); InStep(s') && (PhaseOf(s').Exchanging? ==> Settlers(s'.fromPeer) != [])
  {
    DeliverInStep(s);
    DeliverPhase(s);
    TakeFirst(Settles, s.fromPeer);
    TakeFirst(IsResponse, s.fromPeer);
  }

  lemma {:induction false} StrayHarms(s: Sys, err: bytes) returns (steps: seq<Step>)
    requires Stray(s, err)
    ensures Legal(s, steps, FifoServer) && OutOfStep(Run(s, steps, FifoServer))
    decreases |s.fromPeer|
  {
    if |s.fromPeer| == 1 {
      steps := StrayArrives(s, err);
    } else {
      StrayApproaches(s, err);
      var rest := StrayHarms(Apply(s, Deliver), err);
      steps := [Deliver] + rest;
      RunCons(s, Deliver, rest, FifoServer);
    }
  }

  lemma {:induction false} UnawaitedIsStray(s: Sys, err: bytes)
    requires InStep(s) && Enabled(s, PeerServe(err)) && IsMtuRequest(s.toPeer[0]) && IsError(err) && !Awaited(s)
    ensures Stray(Apply(s, PeerServe(err)), err)
  {
    var t := Apply(s, PeerServe(err));
    SlotStep(s, PeerServe(err));
    assert t.fromPeer[..|t.fromPeer| - 1] == s.fromPeer;
    TakeFirst(IsAttributeRequest, s.toPeer);
    assert BooksOf(t.(fromPeer := s.fromPeer)) == BooksOf(s);
  }

  /** No continuation gets out of step. */
  ghost predicate Harmless(s: Sys) {
    forall steps :: Legal(s, steps, FifoServer) ==> !OutOfStep(Run(s, steps, FifoServer))
  }

  lemma {:induction false} UnawaitedRefusalHarms(s: Sys, refusal: bytes) returns (steps: seq<Step>)
    requires InStep(s) && Enabled(s, PeerServe(refusal)) && IsMtuRequest(s.toPeer[0]) && IsError(refusal)
    requires !Awaited(s)
    ensures Legal(Apply(s, PeerServe(refusal)), steps, FifoServer)
    ensures OutOfStep(Run(Apply(s, PeerServe(refusal)), steps, FifoServer))
  {
    UnawaitedIsStray(s, refusal);
    steps := StrayHarms(Apply(s, PeerServe(refusal)), refusal);
  }

  /**
   * Exactly when is a refusal harmless? With no timeouts, every continuation stays in step if and only if our
   * exchange is still waiting and nothing that settles it is on its way before the refusal.
   */
  lemma {:induction false} RefusalHarmlessIff(s: Sys, refusal: bytes)
    requires InStep(s) && Enabled(s, PeerServe(refusal)) && IsMtuRequest(s.toPeer[0]) && IsError(refusal)
    ensures Awaited(s) <==> Harmless(Apply(s, PeerServe(refusal)))
  {
    var t := Apply(s, PeerServe(refusal));
    if Awaited(s) {
      ServeInStep(s, refusal);
      forall steps | Legal(t, steps, FifoServer) ensures !OutOfStep(Run(t, steps, FifoServer)) {
        StaysInStep(t, steps);
      }
    } else {
      var steps := UnawaitedRefusalHarms(s, refusal);
    }
  }
}

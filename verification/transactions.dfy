/** What every run keeps against any peer at all: a future is settled at most once, and only by a PDU it waits for. */
module Transactions {
  import opened Bytes
  import opened Att
  import opened AttClient
  import opened AttSystem

  /** The PDUs that may resolve a transaction: its own response, or an error. */
  predicate Admissible(request: bytes, outcome: Outcome) {
    (IsAttributeRequest(request) || IsMtuRequest(request)) &&
    (outcome.Data? ==> outcome.pdu != [] && outcome.pdu[0] in {0x01, request[0] + 1})
  }

  ghost predicate Distinct(ids: seq<nat>) {
    forall i, j :: 0 <= i < j < |ids| ==> ids[i] != ids[j]
  }

  /** The transaction lock and the pending slot agree, and a done future holds an admissible outcome. */
  ghost predicate SlotSound(s: Sys) {
    && (s.txn.Some? <==> s.client.pending.Some?)
    && (s.txn.Some? ==>
          var payload, pending := s.txn.value.payload, s.client.pending.value;
          && (IsAttributeRequest(payload) || IsMtuRequest(payload))
          && pending.expected == ExpectedOpcode(payload)
          && (pending.outcome.Some? ==> Admissible(payload, pending.outcome.value)))
  }

  ghost predicate SettledSound(c: Client) {
    && (forall i :: 0 <= i < |c.settled| ==> c.settled[i] < c.futures)
    && Distinct(c.settled)
    && (c.pending.Some? ==> c.pending.value.id < c.futures)
    && (c.Waiting() ==> c.pending.value.id !in c.settled)
  }

  ghost predicate Safe(s: Sys) {
    && SlotSound(s)
    && SettledSound(s.client)
    && (forall i :: 0 <= i < |s.finished| ==> Admissible(s.finished[i].request, s.finished[i].outcome))
  }

  ghost predicate AnyPeer(s: Sys, step: Step) {
    true
  }

  lemma {:induction false} SettleSound(c: Client, outcome: Outcome)
    requires SettledSound(c) && c.Waiting()
    ensures SettledSound(c.Settle(outcome))
  {
  }

  /** What a PDU does to the slot: nothing, or the waiting future gets an admissible outcome and is recorded. */
  lemma {:induction false} OnDataSlot(c: Client, data: bytes)
    ensures var c' := OnData(c, data);
            && c'.futures == c.futures
            && ((c'.pending == c.pending && c'.settled == c.settled) ||
                (&& c.Waiting() && c'.pending.Some? && c'.pending.value.outcome.Some?
                 && c'.pending == Some(c.pending.value.(outcome := c'.pending.value.outcome))
                 && c'.settled == c.settled + [c.pending.value.id]
                 && var outcome := c'.pending.value.outcome.value;
                    outcome.Data? && outcome.pdu != [] && outcome.pdu[0] in {c.pending.value.expected, ERROR_RSP}))
  {
  }

  lemma {:induction false} OnDataSettles(c: Client, data: bytes)
    requires SettledSound(c)
    ensures SettledSound(OnData(c, data))
  {
    OnDataSlot(c, data);
    if c.Waiting() {
      SettleSound(c, Data(data));
    }
  }

  lemma {:induction false} SettledStep(s: Sys, step: Step)
    requires SettledSound(s.client) && Enabled(s, step)
    ensures SettledSound(Apply(s, step).client)
  {
    match step
    case Deliver => OnDataSettles(s.client, s.fromPeer[0]);
    case PeerClose(exc) =>
      if s.client.Waiting() {
        SettleSound(s.client, Exn(if exc.Some? then exc.value else Disconnected));
      }
    case Expire(f) => SettleSound(s.client, Exn(f));
    case Abandon(f) =>
      if s.client.Waiting() {
        SettleSound(s.client, Exn(f));
      }
    case _ =>
  }

  lemma {:induction false} DeliverSlot(s: Sys)
    requires SlotSound(s) && Enabled(s, Deliver)
    ensures SlotSound(Apply(s, Deliver))
  {
    OnDataSlot(s.client, s.fromPeer[0]);
  }

  lemma {:induction false} SlotStep(s: Sys, step: Step)
    requires SlotSound(s) && Enabled(s, step)
    ensures SlotSound(Apply(s, step))
  {
    if step.Deliver? {
      DeliverSlot(s);
    } else {
      OtherSlot(s, step);
    }
  }

  lemma {:induction false} OtherSlot(s: Sys, step: Step)
    requires SlotSound(s) && Enabled(s, step) && !step.Deliver?
    ensures SlotSound(Apply(s, step))
  {
  }

  lemma {:induction false} SafeStep(s: Sys, step: Step)
    requires Safe(s) && Enabled(s, step)
    ensures Safe(Apply(s, step))
  {
    SettledStep(s, step);
    SlotStep(s, step);
  }

  /** While its coroutine has not resumed, a done future keeps the outcome it was given. */
  lemma {:induction false} OutcomeIsFinal(s: Sys, step: Step)
    requires Enabled(s, step) && SlotSound(s)
    requires s.client.pending.Some? && s.client.pending.value.outcome.Some?
    ensures var after := Apply(s, step).client;
            after.pending.None? || after.pending == s.client.pending
  {
  }

  /** When the link is lost, a waiting transaction raises the exception of the socket, or that it was disconnected. */
  lemma {:induction false} LostLinkRaises(s: Sys, exc: Option<Failure>)
    requires SlotSound(s) && s.open && s.txn.Some? && s.txn.value.sent && s.client.Waiting()
    ensures var s' := Apply(s, PeerClose(exc));
            && !s'.open && Enabled(s', Resume)
            && var failure := match exc case Some(f) => f case None => Disconnected;
               Apply(s', Resume).finished == s.finished + [Finished(s.txn.value.payload, Exn(failure))]
  {
  }

  /**
   * No run, with any peer, timeouts and cancellations, resolves a future twice or hands a coroutine a
   * foreign opcode.
   */
  lemma {:induction false} SettledAtMostOnce(peerRx: u16, steps: seq<Step>)
    requires Legal(Init(peerRx), steps, AnyPeer)
    ensures Distinct(Run(Init(peerRx), steps, AnyPeer).client.settled)
    ensures Safe(Run(Init(peerRx), steps, AnyPeer))
  {
    forall t, step | Safe(t) && Enabled(t, step) ensures Safe(Apply(t, step)) {
      SafeStep(t, step);
    }
    RunKeeps(Init(peerRx), steps, AnyPeer, Safe);
  }

  /** The "unexpected ATT opcode" raise of _request is dead code in every run. */
  lemma {:induction false} UnexpectedOpcodeUnreachable(peerRx: u16, steps: seq<Step>, i: nat)
    requires Legal(Init(peerRx), steps, AnyPeer)
    requires i < |Run(Init(peerRx), steps, AnyPeer).finished|
    ensures var f := Run(Init(peerRx), steps, AnyPeer).finished[i];
            && (IsAttributeRequest(f.request) || IsMtuRequest(f.request))
            && (f.outcome.Data? ==>
                  var r := Classify(f.outcome, ExpectedOpcode(f.request));
                  r.Ok? || r.error.AttError? || r.error == StructError)
  {
    SettledAtMostOnce(peerRx, steps);
    var f := Run(Init(peerRx), steps, AnyPeer).finished[i];
    assert Admissible(f.request, f.outcome);
  }
}

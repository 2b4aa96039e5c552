/** The deadline-bounded connect loop. Times are milliseconds of a monotone clock. */
module Connect {
  import opened Bytes

  const BDADDR_LE_PUBLIC: nat := 1
  const BDADDR_LE_RANDOM: nat := 2
  const RETRY_DELAY: nat := 300
  const PRESCAN_BUDGET: nat := 2000

  datatype AttemptOutcome = Connected | NoAnswer | LinkFailure

  /** One L2CAP connect: when it started, the time it was given, the address type tried and how it ended. */
  datatype Attempt = Attempt(start: int, budget: int, peerType: nat, outcome: AttemptOutcome)

  /** The attempts over the candidate address types, once through. */
  type Round = seq<Attempt>

  function CandidateTypes(peerType: Option<nat>): seq<nat> {
    match peerType
    case Some(t) => if t in {BDADDR_LE_PUBLIC, BDADDR_LE_RANDOM} then [t] else [BDADDR_LE_PUBLIC, BDADDR_LE_RANDOM]
    case None => [BDADDR_LE_PUBLIC, BDADDR_LE_RANDOM]
  }

  /** A fast link-layer failure, the only reason to go through the types again. */
  predicate IsTransient(round: Round) {
    exists i :: 0 <= i < |round| && round[i].outcome == LinkFailure
  }

  predicate Succeeds(round: Round) {
    round != [] && round[|round| - 1].outcome == Connected
  }

  predicate Holds(round: Round, outcome: AttemptOutcome) {
    exists i :: 0 <= i < |round| && round[i].outcome == outcome
  }

  predicate IsKnown(known: Option<nat>) {
    known in {Some(1), Some(2)}
  }

  /** How many types there are to try. */
  function Candidates(known: Option<nat>): nat {
    if IsKnown(known) then 1 else 2
  }

  /** Public before random where the type is unknown, else the one type. */
  predicate TriesTypes(round: Round, known: Option<nat>) {
    && |round| <= Candidates(known)
    && forall i :: 0 <= i < |round| ==> round[i].peerType == if IsKnown(known) then known.value else i + 1
  }

  /** The types are tried in order, each before the deadline with all the time that is left, up to a success. */
  predicate WellTimed(round: Round, known: Option<nat>, deadline: int) {
    && TriesTypes(round, known)
    && (forall i :: 0 <= i < |round| ==>
          && round[i].start < deadline && round[i].budget == deadline - round[i].start
          && (round[i].outcome == Connected ==> i == |round| - 1))
  }

  /** All attempts, in order. */
  function Flat(rounds: seq<Round>): seq<Attempt> {
    if rounds == [] then [] else Flat(rounds[..|rounds| - 1]) + rounds[|rounds| - 1]
  }

  /** The attempts are those of the world, one after the other. */
  ghost predicate Took(attempts: seq<Attempt>, outcomes: nat -> AttemptOutcome, from: nat) {
    forall i :: 0 <= i < |attempts| ==> attempts[i].outcome == outcomes(from + i)
  }

  predicate AllWellTimed(rounds: seq<Round>, known: Option<nat>, deadline: int) {
    forall k :: 0 <= k < |rounds| ==> WellTimed(rounds[k], known, deadline)
  }

  /** A round that is followed by another: every type was tried, none connected, and a link failed fast. */
  predicate CallsForAnother(round: Round, known: Option<nat>) {
    Holds(round, LinkFailure) && !Holds(round, Connected) && |round| == Candidates(known)
  }

  predicate AllButLastCall(rounds: seq<Round>, known: Option<nat>) {
    forall k :: 0 <= k < |rounds| - 1 ==> CallsForAnother(rounds[k], known)
  }

  function LastAttempt(rounds: seq<Round>): Attempt
    requires rounds != [] && rounds[|rounds| - 1] != []
  {
    var last := rounds[|rounds| - 1];
    last[|last| - 1]
  }

  lemma {:induction false} AddRound(rounds: seq<Round>, round: Round, known: Option<nat>, deadline: int)
    requires GoingOn(rounds, known, deadline) && WellTimed(round, known, deadline)
    ensures var all := rounds + [round];
            && AllWellTimed(all, known, deadline) && AllButLastCall(all, known)
            && (CallsForAnother(round, known) ==> GoingOn(all, known, deadline))
            && Flat(all) == Flat(rounds) + round
  {
    assert (rounds + [round])[..|rounds|] == rounds;
  }

  lemma {:induction false} AddRoundInTime(
      rounds: seq<Round>, round: Round, known: Option<nat>, deadline: int, timeout: int)
    requires GoingOn(rounds, known, deadline) && WellTimed(round, known, deadline)
    requires (rounds != [] ==> RETRY_DELAY * |rounds| < timeout) && (round != [] ==> timeout > 0)
    ensures var all := rounds + [round];
            && AllWellTimed(all, known, deadline) && AllButLastCall(all, known)
            && (CallsForAnother(round, known) ==> GoingOn(all, known, deadline))
            && Flat(all) == Flat(rounds) + round
            && |all| <= Max(1, MaxRounds(timeout)) && |Flat(all)| <= 2 * MaxRounds(timeout)
  {
    AddRound(rounds, round, known, deadline);
    RoundsFit(|rounds|, |Flat(rounds)|, |round|, timeout);
  }

  lemma {:induction false} TookConcat(a: seq<Attempt>, b: seq<Attempt>, outcomes: nat -> AttemptOutcome, from: nat)
    requires Took(a, outcomes, from) && Took(b, outcomes, from + |a|)
    ensures Took(a + b, outcomes, from)
  {
    forall i | 0 <= i < |a + b| ensures (a + b)[i].outcome == outcomes(from + i) {
      if i >= |a| {
        assert (a + b)[i] == b[i - |a|] && from + i == from + |a| + (i - |a|);
      }
    }
  }

  /** ceil(timeout / 300 ms), and no attempt at all without time. */
  function MaxRounds(timeout: int): nat {
    if timeout <= 0 then 0 else (timeout + 299) / 300
  }

  lemma {:induction false} RoundsFit(earlier: nat, total: nat, round: nat, timeout: int)
    requires earlier > 0 ==> RETRY_DELAY * earlier < timeout
    requires total <= 2 * earlier && round <= 2 && (round > 0 ==> timeout > 0)
    ensures earlier + 1 <= Max(1, MaxRounds(timeout)) && total + round <= 2 * MaxRounds(timeout)
  {
  }

  /** Rounds that all call for another one. */
  predicate GoingOn(rounds: seq<Round>, known: Option<nat>, deadline: int) {
    && AllWellTimed(rounds, known, deadline) && |Flat(rounds)| <= 2 * |rounds|
    && forall k :: 0 <= k < |rounds| ==> CallsForAnother(rounds[k], known)
  }

  class Connector {
    // The world: how the i-th attempt ends and how long it takes, how far the clock moves
    // between two looks at it, and how much longer than asked a sleep lasts.
    const outcomes: nat -> AttemptOutcome
    const durations: nat -> nat
    const drift: nat -> nat
    const oversleep: nat -> nat

    var now: int
    var looks: nat
    var peerType: Option<nat>
    var attempts: nat
    var rounds: seq<Round>

    constructor (outcomes: nat -> AttemptOutcome, durations: nat -> nat, drift: nat -> nat, oversleep: nat -> nat,
                 now: int, peerType: Option<nat>)
      ensures this.outcomes == outcomes && this.durations == durations && this.drift == drift
      ensures this.oversleep == oversleep && this.now == now && this.peerType == peerType
      ensures attempts == 0 && rounds == []
    {
      this.outcomes, this.durations, this.drift, this.oversleep := outcomes, durations, drift, oversleep;
      this.now, this.peerType := now, peerType;
      looks, attempts, rounds := 0, 0, [];
    }

    /** loop.time() */
    method Time() returns (t: int)
      modifies this`now, this`looks
      ensures t == now == old(now) + drift(old(looks))
    {
      now := now + drift(looks);
      looks := looks + 1;
      t := now;
    }

    method Sleep()
      modifies this`now, this`looks
      ensures now >= old(now) + RETRY_DELAY
    {
      now := now + RETRY_DELAY + oversleep(looks);
      looks := looks + 1;
    }

    /** L2CAPSocket.connect */
    method TryConnect(dstType: nat, start: int, budget: int) returns (a: Attempt)
      modifies this`now, this`attempts
      ensures now >= old(now) && attempts == old(attempts) + 1
      ensures a == Attempt(start, budget, dstType, outcomes(old(attempts)))
    {
      a := Attempt(start, budget, dstType, outcomes(attempts));
      now := now + durations(attempts);
      attempts := attempts + 1;
    }

    /** The for loop over the candidate types. */
    method TryCandidates(deadline: int) returns (round: Round)
      modifies this`now, this`looks, this`attempts, this`peerType
      ensures now >= old(now)
      ensures WellTimed(round, old(peerType), deadline)
      ensures Took(round, outcomes, old(attempts)) && attempts == old(attempts) + |round|
      ensures round != [] ==> old(now) < deadline
      ensures peerType == if Succeeds(round) then Some(round[|round| - 1].peerType) else old(peerType)
      ensures Succeeds(round) <==> Holds(round, Connected)
      ensures !Succeeds(round) && |round| < Candidates(old(peerType)) ==> deadline <= now
    {
      var candidates := CandidateTypes(peerType);
      round := [];
      var i := 0;
      while i < |candidates|
        invariant 0 <= i == |round| <= |candidates|
        invariant now >= old(now) && peerType == old(peerType)
        invariant WellTimed(round, peerType, deadline) && !Holds(round, Connected)
        invariant Took(round, outcomes, old(attempts)) && attempts == old(attempts) + |round|
        invariant round != [] ==> old(now) < deadline
      {
        var t := Time();
        var remaining := deadline - t;
        if remaining <= 0 {
          break;
        }
        var attempt := TryConnect(candidates[i], t, remaining);
        round := round + [attempt];
        if attempt.outcome == Connected {
          peerType := Some(candidates[i]);
          break;
        }
        i := i + 1;
      }
    }

    /** The pre-scan gets up to two seconds of what exceeds one; an address type it saw overrides the hint. */
    method Prescan(timeout: int, observed: Option<nat>) returns (prescanBudget: int)
      modifies this`peerType
      ensures prescanBudget == if timeout <= 1000 then 0 else if timeout <= 3000 then timeout - 1000 else 2000
      ensures peerType == if timeout > 1000 && observed in {Some(1), Some(2)} then observed else old(peerType)
    {
      prescanBudget := Min(PRESCAN_BUDGET, Max(0, timeout - 1000));
      if prescanBudget > 0 {
        if observed.Some? && observed.value in {BDADDR_LE_PUBLIC, BDADDR_LE_RANDOM} {
          peerType := observed;
        }
      }
    }

    /** One round, added to the history. */
    method TryRound(timeout: int, deadline: int, ghost from: nat) returns (round: Round)
      requires deadline + RETRY_DELAY * |rounds| <= now + timeout
      requires rounds != [] ==> RETRY_DELAY * |rounds| < timeout
      requires GoingOn(rounds, peerType, deadline)
      requires Took(Flat(rounds), outcomes, from) && attempts == from + |Flat(rounds)|
      modifies this
      ensures now >= old(now) && rounds == old(rounds) + [round]
      ensures peerType == if Succeeds(round) then Some(round[|round| - 1].peerType) else old(peerType)
      ensures Succeeds(round) <==> Holds(round, Connected)
      ensures !Succeeds(round) && |round| < Candidates(old(peerType)) ==> deadline <= now
      ensures Took(Flat(rounds), outcomes, from) && attempts == from + |Flat(rounds)|
      ensures AllWellTimed(rounds, old(peerType), deadline) && AllButLastCall(rounds, old(peerType))
      ensures CallsForAnother(round, old(peerType)) ==> GoingOn(rounds, old(peerType), deadline)
      ensures |rounds| <= Max(1, MaxRounds(timeout)) && |Flat(rounds)| <= 2 * MaxRounds(timeout)
    {
      ghost var known, flat := peerType, Flat(rounds);
      round := TryCandidates(deadline);
      AddRoundInTime(rounds, round, known, deadline, timeout);
      TookConcat(flat, round, outcomes, from);
      rounds := rounds + [round];
    }

    /**
     * The retry loop: True is a connected socket, false is BleakDeviceNotFoundError. It gives up only when a round
     * had no link failure, or when there is no time left for a delay.
     */
    method Retry(timeout: int, deadline: int) returns (ok: bool)
      requires rounds == [] && deadline <= now + timeout
      modifies this
      ensures rounds != [] && AllWellTimed(rounds, old(peerType), deadline) && AllButLastCall(rounds, old(peerType))
      ensures Took(Flat(rounds), outcomes, old(attempts)) && attempts == old(attempts) + |Flat(rounds)|
      ensures var last := rounds[|rounds| - 1];
              && (ok <==> Holds(last, Connected))
              && (!ok && Holds(last, LinkFailure) ==> deadline <= now + 300)
              && (!ok && |last| < Candidates(old(peerType)) ==> deadline <= now)
      ensures if ok then rounds[|rounds| - 1] != [] && peerType == Some(LastAttempt(rounds).peerType)
              else peerType == old(peerType)
      ensures |rounds| <= Max(1, MaxRounds(timeout)) && |Flat(rounds)| <= 2 * MaxRounds(timeout)
    {
      while true
        invariant peerType == old(peerType)
        invariant deadline + RETRY_DELAY * |rounds| <= now + timeout
        invariant rounds != [] ==> RETRY_DELAY * |rounds| < timeout
        invariant GoingOn(rounds, peerType, deadline)
        invariant Took(Flat(rounds), outcomes, old(attempts)) && attempts == old(attempts) + |Flat(rounds)|
        decreases deadline - now
      {
        var round := TryRound(timeout, deadline, old(attempts));
        if Succeeds(round) {
          return true;
        }
        var left := Time();
        if !IsTransient(round) || deadline - left <= RETRY_DELAY {
          return false;
        }
        Sleep();
      }
    }

    /** connect up to the socket; observed is the address type the pre-scan saw, if any. */
    method Connect(timeout: int, observed: Option<nat>) returns (ok: bool, deadline: int)
      requires rounds == []
      modifies this
      ensures deadline == old(now) + drift(old(looks)) + timeout
      ensures var known := if timeout > 1000 && observed in {Some(1), Some(2)} then observed else old(peerType);
              && rounds != [] && AllWellTimed(rounds, known, deadline) && AllButLastCall(rounds, known)
              && var last := rounds[|rounds| - 1];
                 && (ok <==> Holds(last, Connected))
                 && (!ok && Holds(last, LinkFailure) ==> deadline <= now + 300)
                 && (!ok && |last| < Candidates(known) ==> deadline <= now)
                 && if ok then last != [] && peerType == Some(LastAttempt(rounds).peerType) else peerType == known
      ensures Took(Flat(rounds), outcomes, old(attempts)) && attempts == old(attempts) + |Flat(rounds)|
      ensures |rounds| <= Max(1, MaxRounds(timeout)) && |Flat(rounds)| <= 2 * MaxRounds(timeout)
    {
      var t := Time();
      deadline := t + timeout;
      var prescanBudget := Prescan(timeout, observed);
      ok := Retry(timeout, deadline);
    }
  }
}

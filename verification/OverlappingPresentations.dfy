/**
 Presentations of a link that overlap. One reads the session, writes the attempt it
 counted from what it read, looks again, and last of all writes what it decided;
 nothing holds the session in between.
 */
module OverlappingPresentations {
  import opened AccessGate
  import opened AccessPolicy
  import opened GateLaws
  import opened Prelude

  /** What a presentation has still to write. */
  datatype Outcome = Closes(reason: Reason) | Verifies

  /** A presentation that has read the session, or that has counted and decided. */
  datatype Presenting = Begun(token: nat, attempts: nat, status: Status) | Decided(token: nat, outcome: Outcome)

  datatype System = System(gate: Gate, inFlight: map<nat, Presenting>)

  datatype Step =
    | Begin(p: nat, room: string, token: nat)
    | Count(p: nat, policy: Policy, now: int)
    | Finish(p: nat, now: int)
    /** An opening or a check, in between. */
    | Other(op: Op)

  /** What is decided from the status first read and the session as it is once the attempt is counted. */
  function OutcomeOf(status: Status, s: Session, policy: Policy, now: int): Option<Outcome> {
    if status == Refused then None
    else if s.expiresAt <= now then Some(Closes(LinkExpired))
    else if status == Verified then None
    else if !AdmitsDomain(policy, s.domain) then Some(Closes(DomainRefused))
    else Some(Verifies)
  }

  function CountedAs(s: Session, attempts: nat): Session {
    if attempts > MAX_VERIFY_ATTEMPTS then s.(status := Refused, reason := Some(TooManyAttempts), attempts := attempts)
    else s.(attempts := attempts)
  }

  function Finished(s: Session, outcome: Outcome, ttl: Ttl, now: int): Session {
    match outcome
    case Closes(reason) => s.(status := Refused, reason := Some(reason))
    case Verifies =>
      s.(status := Verified, verifiedAt := Some(Stamp(now)), expiresAt := Stamp(now) + ttl.grant * HOUR, reason := None)
  }

  function Next(s: System, ttl: Ttl, step: Step): System {
    match step
    case Begin(p, room, token) =>
      if p in s.inFlight || !Finds(s.gate, room, token) then s
      else s.(inFlight := s.inFlight[p := Begun(token, s.gate.sessions[token].attempts, s.gate.sessions[token].status)])
    case Count(p, policy, now) =>
      if p !in s.inFlight || !s.inFlight[p].Begun? || s.inFlight[p].token >= |s.gate.sessions| then s
      else
        var b := s.inFlight[p];
        var counted := CountedAs(s.gate.sessions[b.token], b.attempts + 1);
        var outcome := if b.attempts + 1 > MAX_VERIFY_ATTEMPTS then None else OutcomeOf(b.status, counted, policy, now);
        System(s.gate.(sessions := s.gate.sessions[b.token := counted]),
               if outcome.None? then s.inFlight - {p} else s.inFlight[p := Decided(b.token, outcome.value)])
    case Finish(p, now) =>
      if p !in s.inFlight || !s.inFlight[p].Decided? || s.inFlight[p].token >= |s.gate.sessions| then s
      else
        var d := s.inFlight[p];
        System(s.gate.(sessions := s.gate.sessions[d.token := Finished(s.gate.sessions[d.token], d.outcome, ttl, now)],
                       outbox := if d.outcome.Verifies? then MarkSent(s.gate.outbox, d.token) else s.gate.outbox),
               s.inFlight - {p})
    case Other(op) => if op.Verify? then s else s.(gate := AccessGate.Next(s.gate, ttl, op))
  }

  function Run(s: System, ttl: Ttl, steps: seq<Step>): System {
    if steps == [] then s else Next(Run(s, ttl, steps[..|steps| - 1]), ttl, steps[|steps| - 1])
  }

  function Presented(s: System, ttl: Ttl, p: nat, room: string, token: nat, policy: Policy, now: int): System {
    Next(Next(Next(s, ttl, Begin(p, room, token)), ttl, Count(p, policy, now)), ttl, Finish(p, now))
  }

  lemma CountThenFinish(s: Session, policy: Policy, ttl: Ttl, now: int)
    ensures var counted := CountedAs(s, s.attempts + 1);
            var outcome := if s.attempts + 1 > MAX_VERIFY_ATTEMPTS then None
              else OutcomeOf(s.status, counted, policy, now);
            && Present(s, policy, ttl, now)
              == (if outcome.None? then counted else Finished(counted, outcome.value, ttl, now))
            && (PresentAnswer(s, policy, now) == NowVerified <==> outcome == Some(Verifies))
  {
  }

  /** A presentation whose steps come together is the presentation served alone. */
  lemma UninterruptedIsPresented(s: System, ttl: Ttl, p: nat, room: string, token: nat, policy: Policy, now: int)
    requires p !in s.inFlight
    ensures Presented(s, ttl, p, room, token, policy, now)
            == s.(gate := AfterVerify(s.gate, room, Some(token), policy, ttl, now))
  {
    if Finds(s.gate, room, token) {
      var t := s.gate.sessions[token];
      CountThenFinish(t, policy, ttl, now);
      var begun := Next(s, ttl, Begin(p, room, token));
      assert begun.inFlight - {p} == s.inFlight;
      var counted := Next(begun, ttl, Count(p, policy, now));
      assert counted.inFlight - {p} == s.inFlight;
    }
  }

  // ------------------------------------------------------------------------
  // Attempts
  // ------------------------------------------------------------------------

  /** How many attempts of the token were counted over a run. */
  function Counts(s: System, ttl: Ttl, steps: seq<Step>, token: nat): nat {
    if steps == [] then 0
    else
      var before, step := Run(s, ttl, steps[..|steps| - 1]), steps[|steps| - 1];
      Counts(s, ttl, steps[..|steps| - 1], token) + if CountsFor(before, step, token) then 1 else 0
  }

  predicate CountsFor(s: System, step: Step, token: nat) {
    step.Count? && step.p in s.inFlight && s.inFlight[step.p].Begun? && s.inFlight[step.p].token == token
    && token < |s.gate.sessions|
  }

  /** Nobody counted since this presentation read. */
  predicate Fresh(s: System, step: Step, token: nat) {
    CountsFor(s, step, token) ==> s.inFlight[step.p].attempts == s.gate.sessions[token].attempts
  }

  ghost predicate FreshThroughout(s: System, ttl: Ttl, steps: seq<Step>, token: nat) {
    steps != [] ==>
      && FreshThroughout(s, ttl, steps[..|steps| - 1], token)
      && Fresh(Run(s, ttl, steps[..|steps| - 1]), steps[|steps| - 1], token)
  }

  /** The number on the session is at most `bound`, and so is any read of it; one no longer right is below. */
  ghost predicate Within(s: System, token: nat, bound: nat) {
    && token < |s.gate.sessions| && s.gate.sessions[token].attempts <= bound
    && forall p :: p in s.inFlight && s.inFlight[p].Begun? && s.inFlight[p].token == token ==>
         s.inFlight[p].attempts == s.gate.sessions[token].attempts || s.inFlight[p].attempts < bound
  }

  lemma CountStep(s: System, ttl: Ttl, step: Step, token: nat, bound: nat)
    requires Within(s, token, bound)
    ensures var next := Next(s, ttl, step);
            if CountsFor(s, step, token) then
              && Within(next, token, bound + 1)
              && (next.gate.sessions[token].attempts == bound + 1 <==>
                    Fresh(s, step, token) && s.gate.sessions[token].attempts == bound)
            else Within(next, token, bound) && next.gate.sessions[token].attempts == s.gate.sessions[token].attempts
  {
  }

  /**
   In any interleaving no attempt is counted twice, and the number on the session is
   that of the attempts counted exactly when none of them was counted between
   another's reading and counting.
   */
  lemma {:induction false} AttemptsExactly(s: System, ttl: Ttl, steps: seq<Step>, token: nat)
    requires token < |s.gate.sessions| && s.inFlight == map[]
    ensures var all := s.gate.sessions[token].attempts + Counts(s, ttl, steps, token);
            && Within(Run(s, ttl, steps), token, all)
            && (Run(s, ttl, steps).gate.sessions[token].attempts == all <==> FreshThroughout(s, ttl, steps, token))
  {
    if steps != [] {
      var init := steps[..|steps| - 1];
      AttemptsExactly(s, ttl, init, token);
      CountStep(Run(s, ttl, init), ttl, steps[|steps| - 1], token,
                s.gate.sessions[token].attempts + Counts(s, ttl, init, token));
    }
  }

  // ------------------------------------------------------------------------
  // Refused sessions
  // ------------------------------------------------------------------------

  /** The session is refused, and every presentation of it in flight read it so or is about to say so. */
  ghost predicate ClosedToAll(s: System, token: nat) {
    && token < |s.gate.sessions| && s.gate.sessions[token].status == Refused
    && forall p :: p in s.inFlight && s.inFlight[p].token == token ==>
         match s.inFlight[p]
         case Begun(_, _, status) => status == Refused
         case Decided(_, outcome) => outcome.Closes?
  }

  lemma NextClosedToAll(s: System, ttl: Ttl, step: Step, token: nat)
    requires ClosedToAll(s, token)
    ensures ClosedToAll(Next(s, ttl, step), token)
  {
  }

  /** A session refused before any presentation in flight read it stays refused in every interleaving. */
  lemma {:induction false} RefusedForGood(s: System, ttl: Ttl, steps: seq<Step>, token: nat)
    requires ClosedToAll(s, token)
    ensures ClosedToAll(Run(s, ttl, steps), token)
  {
    if steps != [] {
      RefusedForGood(s, ttl, steps[..|steps| - 1], token);
      NextClosedToAll(Run(s, ttl, steps[..|steps| - 1]), ttl, steps[|steps| - 1], token);
    }
  }

  /** One step opens a refused session exactly if it finishes a presentation that decided to verify it. */
  lemma ReopenedExactly(s: System, ttl: Ttl, step: Step, token: nat)
    requires token < |s.gate.sessions| && s.gate.sessions[token].status == Refused
    ensures token < |Next(s, ttl, step).gate.sessions|
    ensures Next(s, ttl, step).gate.sessions[token].status != Refused <==>
            step.Finish? && step.p in s.inFlight && s.inFlight[step.p] == Decided(token, Verifies)
  {
  }

  /**
   Two presentations of one session, begun together: the first is counted, then the second
   counted and finished, then the first finished.
   */
  function Crossed(room: string, token: nat, first: Policy, second: Policy, now: int): seq<Step> {
    [Begin(0, room, token), Begin(1, room, token), Count(0, first, now), Count(1, second, now), Finish(1, now),
     Finish(0, now)]
  }

  lemma RunAppend(s: System, ttl: Ttl, steps: seq<Step>, step: Step)
    ensures Run(s, ttl, steps + [step]) == Next(Run(s, ttl, steps), ttl, step)
  {
    assert (steps + [step])[..|steps|] == steps;
  }

  /**
   It can be reopened otherwise: of two presentations that cross while the policy is
   tightened, one refuses the session and the other then verifies it; and both count
   as one attempt.
   */
  lemma CrossedReopens(g: Gate, ttl: Ttl, room: string, token: nat, first: Policy, second: Policy, now: int)
    requires Finds(g, room, token) && g.sessions[token].status == Pending
             && g.sessions[token].attempts < MAX_VERIFY_ATTEMPTS
    requires now < g.sessions[token].expiresAt
    requires AdmitsDomain(first, g.sessions[token].domain) && !AdmitsDomain(second, g.sessions[token].domain)
    ensures var steps := Crossed(room, token, first, second, now);
            var refused, after := Run(System(g, map[]), ttl, steps[..5]).gate, Run(System(g, map[]), ttl, steps).gate;
            && |refused.sessions| == |after.sessions| == |g.sessions|
            && refused.sessions[token].status == Refused && after.sessions[token].status == Verified
            && after.sessions[token].attempts == g.sessions[token].attempts + 1
            && (forall later :: now <= later < Stamp(now) + ttl.grant * HOUR ==>
                  CheckAnswer(after, room, Some(token), second, later).Granted?)
  {
    var steps, s5 := Crossed(room, token, first, second, now), RefusedFirst(g, token, ttl, now);
    RunOf(System(g, map[]), ttl, steps[0], steps[1], steps[2], steps[3], steps[4], steps[5]);
    assert Run(System(g, map[]), ttl, steps[..5]) == s5 by {
      CrossedCounts(g, ttl, room, token, first, second, now);
    }
    FinishedGrants(s5, ttl, room, token, second, now);
  }

  function CountedOnce(g: Gate, token: nat): Session
    requires token < |g.sessions|
  {
    g.sessions[token].(attempts := g.sessions[token].attempts + 1)
  }

  /** The system once the second of them has refused the session. */
  function RefusedFirst(g: Gate, token: nat, ttl: Ttl, now: int): System
    requires token < |g.sessions|
  {
    System(g.(sessions := g.sessions[token := Finished(CountedOnce(g, token), Closes(DomainRefused), ttl, now)]),
           map[0 := Decided(token, Verifies)])
  }

  lemma CrossedCounts(g: Gate, ttl: Ttl, room: string, token: nat, first: Policy, second: Policy, now: int)
    requires Finds(g, room, token) && g.sessions[token].status == Pending
             && g.sessions[token].attempts < MAX_VERIFY_ATTEMPTS
    requires now < g.sessions[token].expiresAt
    requires AdmitsDomain(first, g.sessions[token].domain) && !AdmitsDomain(second, g.sessions[token].domain)
    ensures var steps := Crossed(room, token, first, second, now);
            var begun := Next(Next(System(g, map[]), ttl, steps[0]), ttl, steps[1]);
            Next(Next(Next(begun, ttl, steps[2]), ttl, steps[3]), ttl, steps[4]) == RefusedFirst(g, token, ttl, now)
  {
    var steps, t := Crossed(room, token, first, second, now), g.sessions[token];
    var b, counted := Begun(token, t.attempts, t.status), CountedOnce(g, token);
    var g1 := g.(sessions := g.sessions[token := counted]);
    var s2, s3 := System(g, map[0 := b, 1 := b]), System(g1, map[0 := Decided(token, Verifies), 1 := b]);
    var s4 := System(g1, map[0 := Decided(token, Verifies), 1 := Decided(token, Closes(DomainRefused))]);
    assert Next(Next(System(g, map[]), ttl, steps[0]), ttl, steps[1]) == s2;
    assert Next(s2, ttl, steps[2]) == s3;
    assert Next(s3, ttl, steps[3]) == s4;
    assert Next(s4, ttl, steps[4]) == RefusedFirst(g, token, ttl, now);
  }

  /** Finishing a presentation that decided to verify opens the session for the length of a grant. */
  lemma FinishedGrants(s: System, ttl: Ttl, room: string, token: nat, policy: Policy, now: int)
    requires 0 in s.inFlight && s.inFlight[0] == Decided(token, Verifies) && Finds(s.gate, room, token)
    ensures var after := Next(s, ttl, Finish(0, now)).gate;
            && |after.sessions| == |s.gate.sessions| && after.sessions[token].status == Verified
            && after.sessions[token].attempts == s.gate.sessions[token].attempts
            && (forall later :: now <= later < Stamp(now) + ttl.grant * HOUR ==>
                  CheckAnswer(after, room, Some(token), policy, later).Granted?)
  {
  }

  lemma RunOf(s: System, ttl: Ttl, a: Step, b: Step, c: Step, d: Step, e: Step, f: Step)
    ensures var s5 := Next(Next(Next(Next(Next(s, ttl, a), ttl, b), ttl, c), ttl, d), ttl, e);
            Run(s, ttl, [a, b, c, d, e, f][..5]) == s5 && Run(s, ttl, [a, b, c, d, e, f]) == Next(s5, ttl, f)
  {
    assert [a, b, c, d, e, f][..5] == [a, b, c] + [d, e] && [a, b, c, d, e, f] == [a, b, c, d, e, f][..5] + [f];
    RunThree(s, ttl, a, b, c);
    RunConcat(s, ttl, [a, b, c], [d, e]);
    RunTwo(Run(s, ttl, [a, b, c]), ttl, d, e);
    RunAppend(s, ttl, [a, b, c, d, e, f][..5], f);
  }

  lemma RunTwo(s: System, ttl: Ttl, a: Step, b: Step)
    ensures Run(s, ttl, [a, b]) == Next(Next(s, ttl, a), ttl, b)
  {
    assert [a, b][..1] == [a] && [a][..0] == [];
    assert Run(s, ttl, [a]) == Next(s, ttl, a);
  }

  lemma RunThree(s: System, ttl: Ttl, a: Step, b: Step, c: Step)
    ensures Run(s, ttl, [a, b, c]) == Next(Next(Next(s, ttl, a), ttl, b), ttl, c)
  {
    RunTwo(s, ttl, a, b);
    assert [a, b, c][..2] == [a, b];
  }

  lemma {:induction false} RunConcat(s: System, ttl: Ttl, a: seq<Step>, b: seq<Step>)
    ensures Run(s, ttl, a + b) == Run(Run(s, ttl, a), ttl, b)
  {
    if b == [] {
      assert a + b == a;
    } else {
      RunConcat(s, ttl, a, b[..|b| - 1]);
      assert (a + b)[..|a + b| - 1] == a + b[..|b| - 1];
    }
  }
}

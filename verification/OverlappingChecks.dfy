/**
 Checks that overlap. A check looks at the session and, some time later, stamps the
 first view and leaves the analytics row; nothing holds the session in between.
 */
module OverlappingChecks {
  import opened AccessGate
  import opened AccessPolicy
  import opened GateLaws
  import opened Prelude

  /** A check granted on a session not yet viewed, which has still to write that view. */
  datatype Viewing = Viewing(token: nat, room: string, now: int, views: nat)

  datatype System = System(gate: Gate, viewings: map<nat, Viewing>)

  datatype Step =
    | Look(c: nat, room: string, token: nat, policy: Policy, now: int)
    | Write(c: nat)
    /** An opening or a presentation, in between. */
    | Other(op: Op)

  function Next(s: System, ttl: Ttl, step: Step): System {
    match step
    case Look(c, room, token, policy, now) =>
      if c in s.viewings || !CheckAnswer(s.gate, room, Some(token), policy, now).Granted?
        || s.gate.sessions[token].viewedAt.Some?
      then s
      else s.(viewings := s.viewings[c := Viewing(token, room, now, s.gate.sessions[token].views)])
    case Write(c) =>
      if c !in s.viewings || s.viewings[c].token >= |s.gate.sessions| then s
      else
        var k := s.viewings[c];
        var viewed := s.gate.sessions[k.token].(viewedAt := Some(Stamp(k.now)), views := k.views + 1);
        System(s.gate.(sessions := s.gate.sessions[k.token := viewed],
                       activity := s.gate.activity + [RowFor(k.token, k.room, viewed, k.now)]),
               s.viewings - {c})
    case Other(op) => if op.Check? then s else s.(gate := AccessGate.Next(s.gate, ttl, op))
  }

  function Run(s: System, ttl: Ttl, steps: seq<Step>): System {
    if steps == [] then s else Next(Run(s, ttl, steps[..|steps| - 1]), ttl, steps[|steps| - 1])
  }

  function InFlight(s: System, token: nat): set<nat> {
    set c | c in s.viewings && s.viewings[c].token == token
  }

  /** A check whose look and write come together is the check run alone. */
  lemma UninterruptedIsCheck(s: System, ttl: Ttl, c: nat, room: string, token: nat, policy: Policy, now: int)
    requires c !in s.viewings
    ensures var after := Next(Next(s, ttl, Look(c, room, token, policy, now)), ttl, Write(c));
            after == s.(gate := AfterCheck(s.gate, room, Some(token), policy, now))
  {
    if CheckAnswer(s.gate, room, Some(token), policy, now).Granted? && s.gate.sessions[token].viewedAt.None? {
      var viewing := Viewing(token, room, now, s.gate.sessions[token].views);
      assert s.viewings[c := viewing] - {c} == s.viewings;
    }
  }

  // ------------------------------------------------------------------------
  // How many rows a session can get
  // ------------------------------------------------------------------------

  ghost predicate FewThroughout(s: System, ttl: Ttl, steps: seq<Step>, token: nat, k: nat) {
    && |InFlight(Run(s, ttl, steps), token)| <= k
    && (steps != [] ==> FewThroughout(s, ttl, steps[..|steps| - 1], token, k))
  }

  /** Nothing written while unviewed; afterwards rows only come from the checks that had already looked. */
  predicate RowsBounded(s: System, token: nat, k: nat) {
    token < |s.gate.sessions| &&
    var rows := |RowsOf(s.gate.activity, token)|;
    if s.gate.sessions[token].viewedAt.None? then rows == 0 else rows >= 1 && rows + |InFlight(s, token)| <= k
  }

  lemma LookBounded(s: System, ttl: Ttl, step: Step, token: nat, k: nat)
    requires step.Look? && RowsBounded(s, token, k)
    ensures RowsBounded(Next(s, ttl, step), token, k)
  {
    var t := Next(s, ttl, step);
    if s.gate.sessions[token].viewedAt.Some? {
      assert InFlight(t, token) == InFlight(s, token);
    }
  }

  lemma WriteBounded(s: System, ttl: Ttl, c: nat, token: nat, k: nat)
    requires RowsBounded(s, token, k) && |InFlight(s, token)| <= k
    ensures RowsBounded(Next(s, ttl, Write(c)), token, k)
  {
    var t := Next(s, ttl, Write(c));
    if t != s {
      RowsExtend(s.gate.activity, t.gate.activity[|s.gate.activity|], token);
      assert t.gate.activity == s.gate.activity + [t.gate.activity[|s.gate.activity|]];
      if s.viewings[c].token == token {
        assert c in InFlight(s, token) && InFlight(t, token) == InFlight(s, token) - {c};
      } else {
        assert InFlight(t, token) == InFlight(s, token);
      }
    }
  }

  lemma OtherBounded(s: System, ttl: Ttl, op: Op, token: nat, k: nat)
    requires RowsBounded(s, token, k)
    ensures RowsBounded(Next(s, ttl, Other(op)), token, k)
  {
    var t := Next(s, ttl, Other(op));
    if !op.Check? {
      assert t.gate.activity == s.gate.activity;
      NoRow(s.gate, ttl, op, token);
      assert InFlight(t, token) == InFlight(s, token);
    }
  }

  /**
   With at most k checks of a session between look and write, it gets at most k
   analytics rows, and one at least once it is viewed; checked one at a time it gets
   just the one.
   */
  lemma {:induction false} RowsOvershootBound(s: System, ttl: Ttl, steps: seq<Step>, token: nat, k: nat)
    requires RowsBounded(s, token, k) && FewThroughout(s, ttl, steps, token, k)
    ensures RowsBounded(Run(s, ttl, steps), token, k)
  {
    if steps != [] {
      var before, step := Run(s, ttl, steps[..|steps| - 1]), steps[|steps| - 1];
      RowsOvershootBound(s, ttl, steps[..|steps| - 1], token, k);
      match step
      case Look(_, _, _, _, _) => LookBounded(before, ttl, step, token, k);
      case Write(c) =>
        assert |InFlight(before, token)| <= k;
        WriteBounded(before, ttl, c, token, k);
      case Other(op) => OtherBounded(before, ttl, op, token, k);
    }
  }

  // ------------------------------------------------------------------------
  // The bound is met
  // ------------------------------------------------------------------------

  function Crowd(n: nat, viewing: Viewing): map<nat, Viewing> {
    map c | c in UpTo(n) :: viewing
  }

  lemma CrowdInFlight(g: Gate, n: nat, viewing: Viewing)
    ensures |InFlight(System(g, Crowd(n, viewing)), viewing.token)| == n
  {
    assert InFlight(System(g, Crowd(n, viewing)), viewing.token) == UpTo(n);
  }

  /** A run with few checks in flight, taken one step further. */
  lemma Onward(start: System, ttl: Ttl, steps: seq<Step>, s: System, step: Step, next: System, token: nat, k: nat)
    returns (more: seq<Step>)
    requires FewThroughout(start, ttl, steps, token, k) && Run(start, ttl, steps) == s
    requires Next(s, ttl, step) == next && |InFlight(next, token)| <= k
    ensures FewThroughout(start, ttl, more, token, k) && Run(start, ttl, more) == next
  {
    more := steps + [step];
    assert more[..|steps|] == steps;
  }

  lemma LookOnce(g: Gate, ttl: Ttl, room: string, token: nat, policy: Policy, now: int, n: nat)
    requires CheckAnswer(g, room, Some(token), policy, now).Granted? && g.sessions[token].viewedAt.None?
    ensures var viewing := Viewing(token, room, now, g.sessions[token].views);
            Next(System(g, Crowd(n, viewing)), ttl, Look(n, room, token, policy, now))
              == System(g, Crowd(n + 1, viewing))
  {
    var viewing := Viewing(token, room, now, g.sessions[token].views);
    assert Crowd(n, viewing)[n := viewing] == Crowd(n + 1, viewing);
  }

  /** First n checks look. */
  lemma {:induction false} AllLook(g: Gate, ttl: Ttl, room: string, token: nat, policy: Policy, now: int, k: nat,
                                   n: nat)
    returns (steps: seq<Step>)
    requires CheckAnswer(g, room, Some(token), policy, now).Granted? && g.sessions[token].viewedAt.None? && n <= k
    ensures var viewing := Viewing(token, room, now, g.sessions[token].views);
            Run(System(g, map[]), ttl, steps) == System(g, Crowd(n, viewing))
    ensures FewThroughout(System(g, map[]), ttl, steps, token, k)
  {
    var viewing := Viewing(token, room, now, g.sessions[token].views);
    CrowdInFlight(g, n, viewing);
    steps := [];
    if n > 0 {
      steps := AllLook(g, ttl, room, token, policy, now, k, n - 1);
      LookOnce(g, ttl, room, token, policy, now, n - 1);
      steps := Onward(System(g, map[]), ttl, steps, System(g, Crowd(n - 1, viewing)),
                      Look(n - 1, room, token, policy, now), System(g, Crowd(n, viewing)), token, k);
    }
  }

  lemma WriteOnce(g: Gate, ttl: Ttl, viewing: Viewing, n: nat) returns (h: Gate)
    requires viewing.token < |g.sessions|
    ensures Next(System(g, Crowd(n + 1, viewing)), ttl, Write(n)) == System(h, Crowd(n, viewing))
    ensures |h.sessions| == |g.sessions| && h.sessions[viewing.token].views == viewing.views + 1
    ensures |RowsOf(h.activity, viewing.token)| == |RowsOf(g.activity, viewing.token)| + 1
  {
    var s := System(g, Crowd(n + 1, viewing));
    var t := Next(s, ttl, Write(n));
    h := t.gate;
    RowsExtend(g.activity, h.activity[|g.activity|], viewing.token);
    assert h.activity == g.activity + [h.activity[|g.activity|]];
    assert t.viewings == Crowd(n, viewing);
  }

  /** Where such a run stands once n checks are left to write. */
  ghost predicate Stands(g: Gate, ttl: Ttl, steps: seq<Step>, viewing: Viewing, k: nat, n: nat, h: Gate) {
    && Run(System(g, map[]), ttl, steps) == System(h, Crowd(n, viewing))
    && FewThroughout(System(g, map[]), ttl, steps, viewing.token, k)
    && |h.sessions| == |g.sessions|
    && |RowsOf(h.activity, viewing.token)| == |RowsOf(g.activity, viewing.token)| + k - n
  }

  lemma OneWrites(g: Gate, ttl: Ttl, steps: seq<Step>, before: Gate, viewing: Viewing, k: nat, n: nat)
    returns (more: seq<Step>, h: Gate)
    requires viewing.token < |g.sessions| && n < k && Stands(g, ttl, steps, viewing, k, n + 1, before)
    ensures Stands(g, ttl, more, viewing, k, n, h) && h.sessions[viewing.token].views == viewing.views + 1
  {
    h := WriteOnce(before, ttl, viewing, n);
    CrowdInFlight(h, n, viewing);
    var s, next := System(before, Crowd(n + 1, viewing)), System(h, Crowd(n, viewing));
    more := Onward(System(g, map[]), ttl, steps, s, Write(n), next, viewing.token, k);
  }

  /** All but n of the checks that looked write. */
  lemma {:induction false} AllWrite(g: Gate, ttl: Ttl, looked: seq<Step>, viewing: Viewing, k: nat, n: nat)
    returns (steps: seq<Step>, h: Gate)
    requires viewing.token < |g.sessions| && n <= k && Stands(g, ttl, looked, viewing, k, k, g)
    ensures Stands(g, ttl, steps, viewing, k, n, h)
    ensures n < k ==> h.sessions[viewing.token].views == viewing.views + 1
    decreases k - n
  {
    if n == k {
      steps, h := looked, g;
    } else {
      var before: Gate;
      steps, before := AllWrite(g, ttl, looked, viewing, k, n + 1);
      steps, h := OneWrites(g, ttl, steps, before, viewing, k, n);
    }
  }

  /**
   Some interleaving of k checks of an unviewed session leaves k more rows, while the
   session records one more view.
   */
  lemma RowsOvershootAttained(g: Gate, ttl: Ttl, room: string, token: nat, policy: Policy, now: int, k: nat)
    requires CheckAnswer(g, room, Some(token), policy, now).Granted? && g.sessions[token].viewedAt.None? && k >= 1
    ensures exists steps ::
              && FewThroughout(System(g, map[]), ttl, steps, token, k)
              && var h := Run(System(g, map[]), ttl, steps).gate;
                 token < |h.sessions| && h.sessions[token].views == g.sessions[token].views + 1
                 && |RowsOf(h.activity, token)| == |RowsOf(g.activity, token)| + k
  {
    var viewing := Viewing(token, room, now, g.sessions[token].views);
    var looked := AllLook(g, ttl, room, token, policy, now, k, k);
    var steps, h := AllWrite(g, ttl, looked, viewing, k, 0);
    assert Run(System(g, map[]), ttl, steps).gate == h;
  }
}

/** What the domain service keeps over whole runs. */
module DomainLaws {
  import opened Domains
  import opened Hostnames
  import opened Prelude

  // ------------------------------------------------------------------------
  // One verified room per domain
  // ------------------------------------------------------------------------

  predicate VerifiedFor(rooms: Rooms, id: string, d: string) {
    LiveRoom(rooms, id) && rooms[id].domain == Some(d) && rooms[id].status == Verified
  }

  ghost predicate Unique(rooms: Rooms) {
    forall a, b, d :: VerifiedFor(rooms, a, d) && VerifiedFor(rooms, b, d) ==> a == b
  }

  /** Stored domains are in normal form. */
  predicate Normal(rooms: Rooms) {
    forall id :: id in rooms && rooms[id].HasDomain() ==>
      Normalise(rooms[id].domain.value) == Ok(rooms[id].domain.value)
  }

  /** The domain a request would verify a room for. */
  function Target(rooms: Rooms, id: string, r: Request): Option<string> {
    match r
    case Claim(raw, _, _, _, _) =>
      if LiveRoom(rooms, id) && Normalise(raw).Ok? then Some(Normalise(raw).value) else None
    case Recheck(_) => if LiveRoom(rooms, id) && rooms[id].HasDomain() then rooms[id].domain else None
    case _ => None
  }

  predicate DnsMatches(r: Request) {
    (r.Claim? || r.Recheck?) && r.matched
  }

  /** Another room is verified for the domain but is not among the answers the lookup looks at. */
  ghost predicate HiddenHolder(rooms: Rooms, id: string, d: string) {
    exists x :: x != id && VerifiedFor(rooms, x, d) && !Visible(rooms, ByDomain(d), HOLDER_LIMIT, x)
  }

  /** A request that promotes nobody leaves uniqueness alone. */
  lemma NotPromoted(rooms: Rooms, id: string, room: Room, now: int)
    requires Unique(rooms) && id in rooms
    requires room.status == Verified && room.domain.Some? ==>
             rooms[id].status == Verified && room.domain == rooms[id].domain
    requires room.live ==> rooms[id].live
    ensures Unique(Put(rooms, id, room, now))
  {
    var next := Put(rooms, id, room, now);
    forall a, d | VerifiedFor(next, a, d) ensures VerifiedFor(rooms, a, d) {
    }
  }

  lemma Promoted(rooms: Rooms, id: string, room: Room, d: string, now: int)
    requires Unique(rooms) && id in rooms && room.live && room.status == Verified && room.domain == Some(d)
    ensures Unique(Put(rooms, id, room, now)) <==> !exists x :: x != id && VerifiedFor(rooms, x, d)
  {
    var next := Put(rooms, id, room, now);
    if x :| x != id && VerifiedFor(rooms, x, d) {
      assert VerifiedFor(next, x, d) && VerifiedFor(next, id, d);
    }
    forall a, e | a != id ensures VerifiedFor(next, a, e) == VerifiedFor(rooms, a, e) {
    }
  }

  /** With one verified holder at most, the lookup reports the domain free unless it sees that holder. */
  lemma HeldOrHidden(rooms: Rooms, id: string, d: string)
    requires Unique(rooms)
    ensures (exists x :: x != id && VerifiedFor(rooms, x, d))
            <==> Held(rooms, d, Some(id)) || HiddenHolder(rooms, id, d)
    ensures !(Held(rooms, d, Some(id)) && HiddenHolder(rooms, id, d))
  {
    if x :| x != id && VerifiedFor(rooms, x, d) {
      assert Visible(rooms, ByDomain(d), HOLDER_LIMIT, x) ==> Held(rooms, d, Some(id));
    }
    if Held(rooms, d, Some(id)) {
      var x :| Visible(rooms, ByDomain(d), HOLDER_LIMIT, x) && Some(x) != Some(id) && rooms[x].status == Verified;
      assert VerifiedFor(rooms, x, d);
    }
  }

  /**
   A request breaks uniqueness exactly when it would verify a domain whose DNS
   matches and whose present holder is hidden from the lookup.
   */
  lemma UniqueExactly(rooms: Rooms, id: string, r: Request, now: int)
    requires Unique(rooms) && Normal(rooms)
    ensures Unique(Next(rooms, Serve(id, r, now))) <==>
            !(DnsMatches(r) && Target(rooms, id, r).Some? && HiddenHolder(rooms, id, Target(rooms, id, r).value))
  {
    var outcome := Decide(rooms, id, r, now);
    if Target(rooms, id, r).Some? {
      HeldOrHidden(rooms, id, Target(rooms, id, r).value);
    }
    if outcome.Wrote? {
      if outcome.room.status == Verified && (r.Claim? || r.Recheck?) {
        Promoted(rooms, id, outcome.room, Target(rooms, id, r).value, now);
      } else {
        NotPromoted(rooms, id, outcome.room, now);
      }
    }
  }

  lemma NextNormal(rooms: Rooms, id: string, r: Request, now: int)
    requires Normal(rooms)
    ensures Normal(Next(rooms, Serve(id, r, now)))
  {
    if r.Claim? && Normalise(r.raw).Ok? {
      NormaliseIdempotent(r.raw);
    }
  }

  /**
   Throughout the run no more rooms name a request's domain than the lookup looks at, and
   no patch names the verified state.
   */
  ghost predicate Uncrowded(rooms: Rooms, ops: seq<Op>) {
    ops == [] ||
    var before, op := Run(rooms, ops[..|ops| - 1]), ops[|ops| - 1];
    && Uncrowded(rooms, ops[..|ops| - 1])
    && match op
       case Serve(id, request, _) =>
         Target(before, id, request).Some? ==>
           |Matching(before, ByDomain(Target(before, id, request).value))| <= HOLDER_LIMIT
       case PatchRoom(_, patch, _) => patch.status != Some(Verified)
  }

  lemma UncrowdedShowsHolder(rooms: Rooms, id: string, d: string)
    requires |Matching(rooms, ByDomain(d))| <= HOLDER_LIMIT
    ensures !HiddenHolder(rooms, id, d)
  {
    forall x | VerifiedFor(rooms, x, d) ensures Visible(rooms, ByDomain(d), HOLDER_LIMIT, x) {
      FewAreVisible(rooms, ByDomain(d), HOLDER_LIMIT, x);
    }
  }

  /** No two live rooms are ever verified for one domain, while at most five name it at a time. */
  lemma {:induction false} UniqueOverRuns(rooms: Rooms, ops: seq<Op>)
    requires Unique(rooms) && Normal(rooms) && Uncrowded(rooms, ops)
    ensures Unique(Run(rooms, ops)) && Normal(Run(rooms, ops))
  {
    if ops != [] {
      var before, op := Run(rooms, ops[..|ops| - 1]), ops[|ops| - 1];
      UniqueOverRuns(rooms, ops[..|ops| - 1]);
      match op
      case Serve(id, request, now) =>
        if Target(before, id, request).Some? {
          UncrowdedShowsHolder(before, id, Target(before, id, request).value);
        }
        UniqueExactly(before, id, request, now);
        NextNormal(before, id, request, now);
      case PatchRoom(id, patch, now) =>
        if LiveRoom(before, id) { PatchUniqueExactly(before, id, patch, now); }
    }
  }

  // ------------------------------------------------------------------------
  // Six rooms are too many
  // ------------------------------------------------------------------------

  lemma RunExtends(rooms: Rooms, ops: seq<Op>, op: Op)
    ensures Run(rooms, ops + [op]) == Next(Run(rooms, ops), op)
  {
    assert (ops + [op])[..|ops|] == ops;
  }

  ghost predicate NobodyHolds(rooms: Rooms, d: string) {
    forall x :: !VerifiedFor(rooms, x, d)
  }

  predicate Waits(rooms: Rooms, id: string, d: string) {
    LiveRoom(rooms, id) && rooms[id].domain == Some(d) && rooms[id].status != Verified
  }

  /** Service requests only, each later than the one before, all after `start` and none after `end`. */
  ghost predicate Timed(ops: seq<Op>, start: int, end: int) {
    && (forall i :: 0 <= i < |ops| ==> ops[i].Serve? && start < ops[i].now <= end)
    && (forall i, j :: 0 <= i < j < |ops| ==> ops[i].now < ops[j].now)
  }

  predicate SixRooms(ids: seq<string>) {
    |ids| == 6 && forall i, j :: 0 <= i < j < 6 ==> ids[i] != ids[j]
  }

  function ForceClaim(id: string, d: string, now: int): Op {
    Serve(id, Claim(d, true, false, "s", "c"), now)
  }

  lemma ForceOne(rooms: Rooms, id: string, d: string, now: int)
    requires LiveRoom(rooms, id) && Normalise(d) == Ok(d) && NobodyHolds(rooms, d)
    ensures Next(rooms, ForceClaim(id, d, now)) == Put(rooms, id, Attached(id, rooms[id], d, false, "s", "c", now), now)
  {
    forall x | Visible(rooms, ByDomain(d), HOLDER_LIMIT, x) ensures rooms[x].status != Verified {
      assert !VerifiedFor(rooms, x, d);
    }
  }

  lemma RecheckFree(rooms: Rooms, id: string, d: string, now: int)
    requires LiveRoom(rooms, id) && rooms[id].domain == Some(d) && d != "" && Normalise(d) == Ok(d)
    requires !Held(rooms, d, Some(id))
    ensures Next(rooms, Serve(id, Recheck(true), now)) == Put(rooms, id, Rechecked(rooms[id], true, now), now)
  {
  }

  /** What the six rooms look like while the first n are being put on the domain. */
  ghost predicate Gathering(rooms: Rooms, ids: seq<string>, d: string, n: nat)
    requires SixRooms(ids) && n <= 6
  {
    && NobodyHolds(rooms, d)
    && (forall i :: 0 <= i < 6 ==> LiveRoom(rooms, ids[i]))
    && (forall i :: 0 <= i < n ==> Waits(rooms, ids[i], d))
  }

  lemma GatherOne(rooms: Rooms, ids: seq<string>, d: string, n: nat, now: int)
    requires SixRooms(ids) && n < 6 && Gathering(rooms, ids, d, n)
    ensures Gathering(Put(rooms, ids[n], Attached(ids[n], rooms[ids[n]], d, false, "s", "c", now), now), ids, d, n + 1)
  {
    var next := Put(rooms, ids[n], Attached(ids[n], rooms[ids[n]], d, false, "s", "c", now), now);
    forall x ensures !VerifiedFor(next, x, d) {
      assert !VerifiedFor(rooms, x, d);
    }
    forall i | 0 <= i < 6 && i != n ensures ids[i] != ids[n] {
    }
  }

  lemma TimedExtends(ops: seq<Op>, op: Op, start: int, end: int)
    requires Timed(ops, start, end) && op.Serve? && start <= end < op.now
    ensures Timed(ops + [op], start, op.now)
  {
  }

  lemma OneMoreWaits(rooms: Rooms, s: Rooms, ops: seq<Op>, ids: seq<string>, d: string, t: int, n: nat)
    returns (more: seq<Op>, next: Rooms)
    requires SixRooms(ids) && n < 6 && Normalise(d) == Ok(d)
    requires s == Run(rooms, ops) && Gathering(s, ids, d, n) && Timed(ops, t, t + n)
    ensures next == Run(rooms, more) && Gathering(next, ids, d, n + 1) && Timed(more, t, t + n + 1)
  {
    var now := t + n + 1;
    more := ops + [ForceClaim(ids[n], d, now)];
    next := Put(s, ids[n], Attached(ids[n], s[ids[n]], d, false, "s", "c", now), now);
    GatherOne(s, ids, d, n, now);
    TimedExtends(ops, ForceClaim(ids[n], d, now), t, t + n);
    assert Run(rooms, more) == next by {
      RunExtends(rooms, ops, ForceClaim(ids[n], d, now));
      ForceOne(s, ids[n], d, now);
    }
  }

  /** Forced claims put any number of rooms on one domain, none of them verified. */
  lemma {:induction false} AllWait(rooms: Rooms, ids: seq<string>, d: string, t: int, n: nat)
    returns (ops: seq<Op>, s: Rooms)
    requires SixRooms(ids) && n <= 6 && Normalise(d) == Ok(d) && Gathering(rooms, ids, d, 0)
    ensures s == Run(rooms, ops) && Gathering(s, ids, d, n) && Timed(ops, t, t + n)
  {
    if n == 0 {
      ops, s := [], rooms;
    } else {
      var earlier: seq<Op>, before: Rooms;
      earlier, before := AllWait(rooms, ids, d, t, n - 1);
      ops, s := OneMoreWaits(rooms, before, earlier, ids, d, t, n - 1);
    }
  }

  /** The first room was verified at `at`, and the next n have been written since. */
  ghost predicate Burying(rooms: Rooms, ids: seq<string>, d: string, n: nat, at: int)
    requires SixRooms(ids)
  {
    && VerifiedFor(rooms, ids[0], d) && rooms[ids[0]].updated == at
    && (forall x :: VerifiedFor(rooms, x, d) ==> x == ids[0])
    && (forall i :: 1 <= i < 6 ==> Waits(rooms, ids[i], d))
    && (forall i :: 1 <= i <= n && i < 6 ==> rooms[ids[i]].updated > at)
  }

  lemma VerifyFirst(rooms: Rooms, ids: seq<string>, d: string, now: int)
    requires SixRooms(ids) && Normalise(d) == Ok(d) && d != "" && Gathering(rooms, ids, d, 6)
    ensures Burying(Next(rooms, Serve(ids[0], Recheck(true), now)), ids, d, 0, now)
  {
    forall x | Visible(rooms, ByDomain(d), HOLDER_LIMIT, x) ensures rooms[x].status != Verified {
      assert !VerifiedFor(rooms, x, d);
    }
    RecheckFree(rooms, ids[0], d, now);
    FirstVerified(rooms, ids, d, now);
  }

  lemma FirstVerified(rooms: Rooms, ids: seq<string>, d: string, now: int)
    requires SixRooms(ids) && Gathering(rooms, ids, d, 6)
    ensures Burying(Put(rooms, ids[0], Rechecked(rooms[ids[0]], true, now), now), ids, d, 0, now)
  {
    var next := Put(rooms, ids[0], Rechecked(rooms[ids[0]], true, now), now);
    assert Waits(rooms, ids[0], d);
    forall i | 1 <= i < 6 ensures Waits(next, ids[i], d) {
      assert ids[i] != ids[0] && Waits(rooms, ids[i], d);
    }
    forall x | VerifiedFor(next, x, d) ensures x == ids[0] {
      assert !VerifiedFor(rooms, x, d);
    }
  }

  lemma StartBurying(rooms: Rooms, s: Rooms, ops: seq<Op>, ids: seq<string>, d: string, now: int)
    requires SixRooms(ids) && Normalise(d) == Ok(d) && d != "" && s == Run(rooms, ops) && Gathering(s, ids, d, 6)
    ensures Burying(Run(rooms, ops + [Serve(ids[0], Recheck(true), now)]), ids, d, 0, now)
  {
    var op := Serve(ids[0], Recheck(true), now);
    VerifyFirst(s, ids, d, now);
    var next := Next(s, op);
    assert Run(rooms, ops + [op]) == next by { RunExtends(rooms, ops, op); }
  }

  lemma GoOnBurying(rooms: Rooms, s: Rooms, ops: seq<Op>, ids: seq<string>, d: string, n: nat, at: int, now: int)
    requires SixRooms(ids) && 1 <= n < 6 && s == Run(rooms, ops) && Burying(s, ids, d, n - 1, at) && now > at
    ensures Burying(Run(rooms, ops + [Serve(ids[n], Brand(map[], true), now)]), ids, d, n, at)
  {
    var op := Serve(ids[n], Brand(map[], true), now);
    BuryOne(s, ids, d, n, at, now);
    var next := Next(s, op);
    assert Run(rooms, ops + [op]) == next by { RunExtends(rooms, ops, op); }
  }

  lemma BuryFirst(rooms: Rooms, ids: seq<string>, d: string, t: int) returns (ops: seq<Op>)
    requires SixRooms(ids) && Normalise(d) == Ok(d) && d != "" && Gathering(rooms, ids, d, 0)
    ensures Burying(Run(rooms, ops), ids, d, 0, t + 7) && Timed(ops, t, t + 7)
  {
    var earlier, s := AllWait(rooms, ids, d, t, 6);
    StartBurying(rooms, s, earlier, ids, d, t + 7);
    TimedExtends(earlier, Serve(ids[0], Recheck(true), t + 7), t, t + 6);
    ops := earlier + [Serve(ids[0], Recheck(true), t + 7)];
  }

  lemma {:induction false} Buried(rooms: Rooms, ids: seq<string>, d: string, t: int, first: seq<Op>, n: nat)
    returns (ops: seq<Op>)
    requires SixRooms(ids) && n < 6 && Burying(Run(rooms, first), ids, d, 0, t + 7) && Timed(first, t, t + 7)
    ensures Burying(Run(rooms, ops), ids, d, n, t + 7) && Timed(ops, t, t + 7 + n)
  {
    if n == 0 {
      ops := first;
    } else {
      var earlier := Buried(rooms, ids, d, t, first, n - 1);
      GoOnBurying(rooms, Run(rooms, earlier), earlier, ids, d, n, t + 7, t + 7 + n);
      TimedExtends(earlier, Serve(ids[n], Brand(map[], true), t + 7 + n), t, t + 6 + n);
      ops := earlier + [Serve(ids[n], Brand(map[], true), t + 7 + n)];
    }
  }

  lemma BuryOne(rooms: Rooms, ids: seq<string>, d: string, n: nat, at: int, now: int)
    requires SixRooms(ids) && 1 <= n < 6 && Burying(rooms, ids, d, n - 1, at) && now > at
    ensures Burying(Next(rooms, Serve(ids[n], Brand(map[], true), now)), ids, d, n, at)
  {
    var next := Next(rooms, Serve(ids[n], Brand(map[], true), now));
    assert ids[0] != ids[n];
    forall x | VerifiedFor(next, x, d) ensures x == ids[0] {
      assert VerifiedFor(rooms, x, d);
    }
    forall i | 1 <= i < 6 ensures Waits(next, ids[i], d) {
      assert i != n ==> next[ids[i]] == rooms[ids[i]];
    }
  }

  lemma BuriedIsHidden(rooms: Rooms, ids: seq<string>, d: string, at: int)
    requires SixRooms(ids) && Burying(rooms, ids, d, 5, at)
    ensures !Visible(rooms, ByDomain(d), HOLDER_LIMIT, ids[0]) && !Held(rooms, d, Some(ids[1]))
  {
    var newer := NewerThan(rooms, ByDomain(d), ids[0]);
    DistinctSize(ids[1..]);
    forall x | x in ids[1..] ensures x in newer {
      var i :| 0 <= i < 5 && ids[1..][i] == x;
      assert Waits(rooms, ids[i + 1], d);
    }
    SubsetSize((set x | x in ids[1..]), newer);
    forall x | Visible(rooms, ByDomain(d), HOLDER_LIMIT, x) && rooms[x].status == Verified ensures x == ids[0] {
      assert VerifiedFor(rooms, x, d);
    }
  }

  lemma SecondVerified(rooms: Rooms, s: Rooms, ops: seq<Op>, ids: seq<string>, d: string, at: int, now: int)
    requires SixRooms(ids) && Normalise(d) == Ok(d) && d != "" && s == Run(rooms, ops) && Burying(s, ids, d, 5, at)
    ensures !Unique(Run(rooms, ops + [Serve(ids[1], Recheck(true), now)]))
  {
    var op := Serve(ids[1], Recheck(true), now);
    BuriedIsHidden(s, ids, d, at);
    assert Waits(s, ids[1], d) && ids[0] != ids[1];
    RecheckFree(s, ids[1], d, now);
    var next := Next(s, op);
    assert VerifiedFor(next, ids[0], d) && VerifiedFor(next, ids[1], d);
    assert Run(rooms, ops + [op]) == next by { RunExtends(rooms, ops, op); }
  }

  /**
   The limit matters: from any state with six live rooms and a domain nobody holds,
   some run of service requests under an advancing clock ends with two rooms verified for that domain.
   */
  lemma CrowdedRunsBreakUniqueness(rooms: Rooms, ids: seq<string>, d: string, t: int)
    requires SixRooms(ids) && Normalise(d) == Ok(d) && d != ""
    requires NobodyHolds(rooms, d) && forall i :: 0 <= i < 6 ==> LiveRoom(rooms, ids[i])
    ensures exists ops :: Timed(ops, t, t + 13) && !Unique(Run(rooms, ops))
  {
    var first := BuryFirst(rooms, ids, d, t);
    var ops := Buried(rooms, ids, d, t, first, 5);
    SecondVerified(rooms, Run(rooms, ops), ops, ids, d, t + 7, t + 13);
    TimedExtends(ops, Serve(ids[1], Recheck(true), t + 13), t, t + 12);
  }

  /** A guarded patch can also promote a room, by naming the verification state; otherwise it keeps uniqueness. */
  lemma PatchUniqueExactly(rooms: Rooms, id: string, p: RoomPatch, now: int)
    requires Unique(rooms) && LiveRoom(rooms, id)
    ensures Unique(Next(rooms, PatchRoom(id, p, now))) <==>
            !(p.status == Some(Verified) && rooms[id].domain.Some?
              && exists x :: x != id && VerifiedFor(rooms, x, rooms[id].domain.value))
  {
    var room := Patched(rooms[id], StripReserved(p));
    if room.status == Verified && room.domain.Some? {
      Promoted(rooms, id, room, room.domain.value, now);
      assert rooms[id].status == Verified ==> VerifiedFor(rooms, id, room.domain.value);
    } else {
      NotPromoted(rooms, id, room, now);
    }
  }

  // ------------------------------------------------------------------------
  // The history of a room's domains
  // ------------------------------------------------------------------------

  /** Every domain room `id` lost over a run, with the time it lost it. */
  ghost function RetiredOver(rooms: Rooms, ops: seq<Op>, id: string): seq<Retired>
    requires id in rooms
  {
    if ops == [] then []
    else
      var earlier, op := ops[..|ops| - 1], ops[|ops| - 1];
      RunKeepsRooms(rooms, earlier);
      RunKeepsRooms(rooms, ops);
      var before, after := Run(rooms, earlier)[id], Run(rooms, ops)[id];
      RetiredOver(rooms, earlier, id)
      + if before.HasDomain() && after.domain != before.domain then [Retired(before.domain.value, op.now, id)] else []
  }

  lemma {:induction false} RunKeepsRooms(rooms: Rooms, ops: seq<Op>)
    ensures Run(rooms, ops).Keys == rooms.Keys
    ensures forall id :: id in rooms ==> Run(rooms, ops)[id].live == rooms[id].live
  {
    if ops != [] {
      RunKeepsRooms(rooms, ops[..|ops| - 1]);
    }
  }

  lemma LastTwentyAdds(history: seq<Retired>, entry: Retired)
    ensures LastTwenty(LastTwenty(history) + [entry]) == LastTwenty(history + [entry])
  {
  }

  /** A service request, or a guarded patch that does not name the history. */
  predicate LeavesHistory(op: Op) {
    op.PatchRoom? ==> op.patch.history.None?
  }

  lemma NextHistory(rooms: Rooms, op: Op, id: string)
    requires id in rooms && LeavesHistory(op) && id in Next(rooms, op)
    ensures var before, after := rooms[id], Next(rooms, op)[id];
            after.history == if before.HasDomain() && after.domain != before.domain
                             then LastTwenty(before.history + [Retired(before.domain.value, op.now, id)])
                               else before.history
  {
  }

  /** A room's stored history is the last twenty of all the domains it ever lost, in order. */
  lemma {:induction false} HistoryOverRuns(rooms: Rooms, ops: seq<Op>, id: string)
    requires id in rooms && |rooms[id].history| <= HISTORY_LIMIT
    requires forall i :: 0 <= i < |ops| ==> LeavesHistory(ops[i])
    ensures id in Run(rooms, ops)
    ensures Run(rooms, ops)[id].history == LastTwenty(rooms[id].history + RetiredOver(rooms, ops, id))
  {
    RunKeepsRooms(rooms, ops);
    if ops == [] {
      assert rooms[id].history + [] == rooms[id].history;
    } else {
      var earlier, op := ops[..|ops| - 1], ops[|ops| - 1];
      RunKeepsRooms(rooms, earlier);
      HistoryOverRuns(rooms, earlier, id);
      NextHistory(Run(rooms, earlier), op, id);
      var lost := RetiredOver(rooms, earlier, id);
      var before, after := Run(rooms, earlier)[id], Run(rooms, ops)[id];
      if before.HasDomain() && after.domain != before.domain {
        var entry := Retired(before.domain.value, op.now, id);
        LastTwentyAdds(rooms[id].history + lost, entry);
        assert rooms[id].history + lost + [entry] == rooms[id].history + (lost + [entry]);
      } else {
        assert lost + [] == lost;
      }
    }
  }

  /** Claiming the domain already held adds nothing. */
  lemma ReclaimAddsNothing(rooms: Rooms, id: string, r: Request, now: int)
    requires LiveRoom(rooms, id) && r.Claim? && Normalise(r.raw).Ok? && rooms[id].domain == Some(Normalise(r.raw).value)
    ensures Next(rooms, Serve(id, r, now))[id].history == rooms[id].history
  {
  }

  // ------------------------------------------------------------------------
  // The link secret is the room's identity
  // ------------------------------------------------------------------------

  predicate DistinctSecrets(rooms: Rooms) {
    forall a, b :: a in rooms && b in rooms && rooms[a].HasSecret() && rooms[a].secret == rooms[b].secret ==> a == b
  }

  /** The secret a request would mint is new. */
  predicate MintsFresh(rooms: Rooms, op: Op) {
    op.Serve? && (op.request.Claim? || op.request.EnsureSecret?) ==>
      op.request.secret != "" && forall x :: x in rooms ==> rooms[x].secret != Some(op.request.secret)
  }

  ghost predicate FreshThroughout(rooms: Rooms, ops: seq<Op>) {
    ops == [] || (FreshThroughout(rooms, ops[..|ops| - 1]) && MintsFresh(Run(rooms, ops[..|ops| - 1]), ops[|ops| - 1]))
  }

  /** No operation, not even a guarded patch, changes or clears a secret. */
  lemma NextKeepsSecret(rooms: Rooms, op: Op, id: string)
    requires id in rooms && rooms[id].HasSecret()
    ensures id in Next(rooms, op) && Next(rooms, op)[id].secret == rooms[id].secret
  {
  }

  lemma NextKeepsDistinct(rooms: Rooms, op: Op)
    requires DistinctSecrets(rooms) && MintsFresh(rooms, op)
    ensures DistinctSecrets(Next(rooms, op))
  {
    var next := Next(rooms, op);
    forall x | x in rooms && x != op.id ensures next[x] == rooms[x] {
    }
    if op.id in rooms {
      assert next[op.id].secret == rooms[op.id].secret || (op.Serve? && next[op.id].secret == Some(op.request.secret));
    }
  }

  lemma {:induction false} SecretsOverRuns(rooms: Rooms, ops: seq<Op>, id: string)
    requires DistinctSecrets(rooms) && FreshThroughout(rooms, ops) && LiveRoom(rooms, id) && rooms[id].HasSecret()
    ensures DistinctSecrets(Run(rooms, ops)) && LiveRoom(Run(rooms, ops), id)
    ensures Run(rooms, ops)[id].secret == rooms[id].secret
  {
    RunKeepsRooms(rooms, ops);
    if ops != [] {
      SecretsOverRuns(rooms, ops[..|ops| - 1], id);
      NextKeepsSecret(Run(rooms, ops[..|ops| - 1]), ops[|ops| - 1], id);
      NextKeepsDistinct(Run(rooms, ops[..|ops| - 1]), ops[|ops| - 1]);
    }
  }

  /** A secret once minted finds its own room, and only it, after any run. */
  lemma SecretFindsItsRoom(rooms: Rooms, ops: seq<Op>, id: string)
    requires DistinctSecrets(rooms) && FreshThroughout(rooms, ops) && LiveRoom(rooms, id) && rooms[id].HasSecret()
    ensures Matching(Run(rooms, ops), BySecret(rooms[id].secret.value)) == {id}
  {
    SecretsOverRuns(rooms, ops, id);
  }

  // ------------------------------------------------------------------------
  // Which hosts are served
  // ------------------------------------------------------------------------

  /**
   Within the query limits a host is served exactly when it is the deployment's own,
   the room's recorded domain whatever its state, or some room's verified domain.
   */
  lemma ServedHosts(rooms: Rooms, base: string, id: string, host: string)
    requires LiveRoom(rooms, id)
    requires HostDomain(host).Ok? ==> |Matching(rooms, ByDomain(HostDomain(host).value))| <= HOLDER_LIMIT
    ensures HostServed(rooms, base, rooms[id], host) <==>
            || RecognisedHost(host, base)
            || (rooms[id].domain.Some? && Normalise(rooms[id].domain.value) == Ok(WithoutPort(host)))
            || (HostDomain(host).Ok? && exists x :: VerifiedFor(rooms, x, HostDomain(host).value))
  {
    assert !IsCustomDomain("");
    EmptyIsNoDomain();
    if HostDomain(host).Ok? {
      HeldExactly(rooms, HostDomain(host).value, None);
    }
  }

  lemma EmptyIsNoDomain()
    ensures Normalise("").Err?
  {
  }

  lemma HeldExactly(rooms: Rooms, d: string, exclude: Option<string>)
    requires |Matching(rooms, ByDomain(d))| <= 5
    ensures Held(rooms, d, exclude) <==> exists x :: Some(x) != exclude && VerifiedFor(rooms, x, d)
  {
    if Held(rooms, d, exclude) {
      var x :| Visible(rooms, ByDomain(d), HOLDER_LIMIT, x) && Some(x) != exclude && rooms[x].status == Verified;
      assert VerifiedFor(rooms, x, d);
    }
    forall x | VerifiedFor(rooms, x, d) && Some(x) != exclude ensures Held(rooms, d, exclude) {
      FewAreVisible(rooms, ByDomain(d), HOLDER_LIMIT, x);
    }
  }

  /** Within both limits the indexed lookup answers as a scan of every claimed domain would, a room excluded or not. */
  lemma LookupAgreesWithScan(rooms: Rooms, d: string, exclude: Option<string>)
    requires d != "" && |Matching(rooms, ByDomain(d))| <= 5 && |Matching(rooms, AnyRoom)| <= 1000
    ensures Held(rooms, d, exclude) <==> Listed(rooms, d, exclude)
  {
    HeldExactly(rooms, d, exclude);
    forall x | VerifiedFor(rooms, x, d) && Some(x) != exclude ensures Listed(rooms, d, exclude) {
      FewAreVisible(rooms, AnyRoom, LIST_LIMIT, x);
    }
    if Listed(rooms, d, exclude) {
      var x :| Visible(rooms, AnyRoom, LIST_LIMIT, x) && Some(x) != exclude && rooms[x].domain == Some(d)
               && rooms[x].status == Verified;
      assert VerifiedFor(rooms, x, d);
    }
  }

  /** A room's stored domain, as a host, is that domain. */
  lemma NormalIsHost(d: string)
    requires Normalise(d) == Ok(d)
    ensures HostDomain(d) == Ok(d)
  {
    NormalHasNoColon(d);
  }

  lemma WithoutRoom(rooms: Rooms, id: string, room: Room, d: string, now: int)
    requires id in rooms && room.domain.None?
    ensures Matching(Put(rooms, id, room, now), ByDomain(d)) == Matching(rooms, ByDomain(d)) - {id}
    ensures forall x :: VerifiedFor(Put(rooms, id, room, now), x, d) <==> x != id && VerifiedFor(rooms, x, d)
  {
  }

  lemma ReleasedHostOnly(rooms: Rooms, base: string, id: string, d: string)
    requires Normalise(d) == Ok(d) && id in rooms && rooms[id].domain.None?
    ensures HostServed(rooms, base, rooms[id], d) <==> RecognisedHost(d, base) || Held(rooms, d, None)
  {
    EmptyIsNoDomain();
    NormalIsHost(d);
  }

  /**
   A released domain is no longer recorded, so it is served exactly if it is the
   deployment's own or another room is verified for it, while at most five others
   name it.
   */
  lemma ReleasedHostServed(rooms: Rooms, base: string, id: string, now: int)
    requires Normal(rooms) && LiveRoom(rooms, id) && rooms[id].HasDomain()
    requires |Matching(rooms, ByDomain(rooms[id].domain.value)) - {id}| <= HOLDER_LIMIT
    ensures var d := rooms[id].domain.value;
            var next := Next(rooms, Serve(id, Release, now));
            && id in next
            && (HostServed(next, base, next[id], d)
                <==> RecognisedHost(d, base) || exists x :: x != id && VerifiedFor(rooms, x, d))
  {
    var d := rooms[id].domain.value;
    var next := Next(rooms, Serve(id, Release, now));
    ReleasedHostOnly(next, base, id, d);
    WithoutRoom(rooms, id, Detached(id, rooms[id], now), d, now);
    HeldExactly(next, d, None);
  }
}

/**
 Service calls that overlap. Each reads its room and looks up who holds its domain
 and, some time later, merges its fields into the room; the write names no revision,
 so nothing notices what happened in between.
 */
module OverlappingClaims {
  import opened Domains
  import opened DomainLaws
  import opened Hostnames
  import opened Prelude

  /**
   A call that has looked and not yet written: the fields it will write, None for those
   it leaves alone. `d` is the domain it looked up, "" if it looked none up.
   */
  datatype Pending = Pending(
    id: string, d: string, at: int, domain: Option<Option<string>>, status: Option<Status>, checked: bool,
    activated: bool, history: Option<seq<Retired>>, secret: Option<string>, collaborator: Option<string>,
    branding: Option<map<string, string>>)
  {
    /** The call is about to verify its room. */
    predicate Promotes() {
      status == Some(Verified)
    }

    /** It is a recheck about to do so: it takes the room's domain as it will find it. */
    predicate Confirms() {
      Promotes() && domain.None?
    }

    /** The call puts its room on a domain. */
    predicate Moves() {
      domain.Some? && domain.value.Some?
    }
  }

  datatype System = System(rooms: Rooms, pending: map<nat, Pending>)

  datatype Step =
    | Look(w: nat, id: string, request: Request, now: int)
    | Write(w: nat, now: int)
    /** A guarded patch; the route reads nothing first. */
    | Patch(id: string, patch: RoomPatch, now: int)

  /** Writing this domain over the room's own makes the room lose one. */
  predicate Retires(room: Room, domain: Option<string>) {
    room.HasDomain() && room.domain != domain
  }

  /** The history after it does. */
  function Recorded(room: Room, id: string, domain: Option<string>, at: int): seq<Retired> {
    if Retires(room, domain) then LastTwenty(room.history + [Retired(room.domain.value, at, id)]) else room.history
  }

  function NewHistory(room: Room, id: string, domain: Option<string>, at: int): Option<seq<Retired>> {
    if Retires(room, domain) then Some(Recorded(room, id, domain, at)) else None
  }

  function NewToken(room: Room, token: string): Option<string> {
    if room.collaborator.Some? && room.collaborator.value != "" then None else Some(token)
  }

  function NewSecret(room: Room, secret: string): Option<string> {
    if room.HasSecret() then None else Some(secret)
  }

  /** A call that writes nothing yet. */
  function Idle(id: string, d: string, at: int): Pending {
    Pending(id, d, at, None, None, false, false, None, None, None, None)
  }

  /** What a call is about to write, if it gets that far. */
  ghost function Prepared(rooms: Rooms, id: string, r: Request, now: int): Option<Pending>
    requires LiveRoom(rooms, id)
  {
    var room := rooms[id];
    match r
    case Claim(raw, force, matched, secret, token) =>
      if Normalise(raw).Err? || (!matched && !force) || Held(rooms, Normalise(raw).value, Some(id)) then None
      else
        var d := Normalise(raw).value;
        Some(Idle(id, d, now).(domain := Some(Some(d)), status := Some(if matched then Verified else Unverified),
                               checked := true, history := NewHistory(room, id, Some(d), now),
                               secret := NewSecret(room, secret), collaborator := NewToken(room, token)))
    case Release =>
      if !room.HasDomain() then None
      else
        Some(Idle(id, "", now).(domain := Some(None), status := Some(Unverified),
                                history := NewHistory(room, id, None, now)))
    case Recheck(matched) =>
      if !room.HasDomain() || Normalise(room.domain.value).Err? then None
      else
        var ready := matched && !Held(rooms, Normalise(room.domain.value).value, Some(id));
        Some(Idle(id, room.domain.value, now).(status := Some(if ready then Verified else Failed), checked := true,
                                               activated := ready && room.status != Verified))
    case EnsureSecret(secret, token) =>
      if room.HasSecret() then None
      else Some(Idle(id, "", now).(secret := Some(secret), collaborator := NewToken(room, token)))
    case Brand(tokens, valid) =>
      if valid then Some(Idle(id, "", now).(branding := Some(room.branding + tokens))) else None
  }

  /** The store's merge of those fields into the room as it is by then. */
  function Merged(room: Room, p: Pending): Room {
    room.(domain := if p.domain.Some? then p.domain.value else room.domain,
          status := if p.status.Some? then p.status.value else room.status,
          checkedAt := if p.checked then Some(p.at) else room.checkedAt,
          activatedAt := if p.activated then Some(p.at) else room.activatedAt,
          history := if p.history.Some? then p.history.value else room.history,
          secret := if p.secret.Some? then p.secret else room.secret,
          collaborator := if p.collaborator.Some? then p.collaborator else room.collaborator,
          branding := if p.branding.Some? then p.branding.value else room.branding)
  }

  function Written(rooms: Rooms, p: Pending, now: int): Rooms
    requires LiveRoom(rooms, p.id)
  {
    Put(rooms, p.id, Merged(rooms[p.id], p), now)
  }

  ghost function Next(s: System, step: Step): System {
    match step
    case Look(w, id, request, now) =>
      if w in s.pending || !LiveRoom(s.rooms, id) || Prepared(s.rooms, id, request, now).None? then s
      else s.(pending := s.pending[w := Prepared(s.rooms, id, request, now).value])
    case Write(w, now) =>
      if w !in s.pending then s
      else if !LiveRoom(s.rooms, s.pending[w].id) then s.(pending := s.pending - {w})
      else System(Written(s.rooms, s.pending[w], now), s.pending - {w})
    case Patch(id, patch, now) => s.(rooms := Domains.Next(s.rooms, PatchRoom(id, patch, now)))
  }

  ghost function Run(s: System, steps: seq<Step>): System {
    if steps == [] then s else Next(Run(s, steps[..|steps| - 1]), steps[|steps| - 1])
  }

  lemma MergedIsServed(rooms: Rooms, id: string, r: Request, now: int)
    requires LiveRoom(rooms, id)
    ensures match Prepared(rooms, id, r, now)
            case Some(p) => p.id == id && Decide(rooms, id, r, now) == Wrote(Merged(rooms[id], p))
            case None => !Decide(rooms, id, r, now).Wrote?
  {
  }

  /** A look and a write with nothing in between are the request served alone. */
  lemma UninterruptedIsServed(s: System, w: nat, id: string, r: Request, now: int)
    requires w !in s.pending
    ensures Next(Next(s, Look(w, id, r, now)), Write(w, now)) == s.(rooms := Domains.Next(s.rooms, Serve(id, r, now)))
  {
    if LiveRoom(s.rooms, id) {
      MergedIsServed(s.rooms, id, r, now);
      if Prepared(s.rooms, id, r, now).Some? {
        LookThenWrite(s, w, id, r, Prepared(s.rooms, id, r, now).value, now);
      }
    }
  }

  lemma LookThenWrite(s: System, w: nat, id: string, r: Request, p: Pending, now: int)
    requires w !in s.pending && LiveRoom(s.rooms, id) && Prepared(s.rooms, id, r, now) == Some(p) && p.id == id
    ensures Next(Next(s, Look(w, id, r, now)), Write(w, now)) == s.(rooms := Written(s.rooms, p, now))
  {
    var looked := s.(pending := s.pending[w := p]);
    assert Next(s, Look(w, id, r, now)) == looked;
    assert looked.pending - {w} == s.pending;
  }

  // ------------------------------------------------------------------------
  // What one write does
  // ------------------------------------------------------------------------

  /** What every call's fields are like, whatever it found. */
  predicate Shaped(p: Pending) {
    && (p.domain.Some? ==> p.status.Some?)
    && (p.Moves() ==> p.domain.value == Some(p.d))
    && (p.Promotes() ==> p.Confirms() || p.Moves())
    && (p.Promotes() || p.Moves() ==> Normalise(p.d) == Ok(p.d))
  }

  lemma PreparedIsShaped(rooms: Rooms, id: string, r: Request, now: int)
    requires Normal(rooms) && LiveRoom(rooms, id) && Prepared(rooms, id, r, now).Some?
    ensures Shaped(Prepared(rooms, id, r, now).value) && Prepared(rooms, id, r, now).value.id == id
  {
    if r.Claim? { NormaliseIdempotent(r.raw); }
  }

  /**
   A write verifies its room for a domain the call never looked up exactly when it is
   a recheck whose room has meanwhile been put on another one.
   */
  lemma UnmatchedExactly(rooms: Rooms, p: Pending, now: int)
    requires LiveRoom(rooms, p.id) && Shaped(p)
    ensures p.Promotes() && (exists e :: e != p.d && VerifiedFor(Written(rooms, p, now), p.id, e)) <==>
            p.Confirms() && rooms[p.id].domain.Some? && rooms[p.id].domain != Some(p.d)
  {
    if p.Confirms() && rooms[p.id].domain.Some? {
      assert VerifiedFor(Written(rooms, p, now), p.id, rooms[p.id].domain.value);
    }
  }

  /**
   In any state with unique domains a write keeps them so exactly unless it verifies
   its room while another is verified for the domain the room then has.
   */
  lemma WriteUniqueExactly(rooms: Rooms, p: Pending, now: int)
    requires Unique(rooms) && LiveRoom(rooms, p.id) && Shaped(p)
    ensures Unique(Written(rooms, p, now)) <==>
            var domain := if p.Moves() then Some(p.d) else rooms[p.id].domain;
            !(p.Promotes() && domain.Some? && exists x :: x != p.id && VerifiedFor(rooms, x, domain.value))
  {
    var room := Merged(rooms[p.id], p);
    if p.Promotes() && room.domain.Some? {
      Promoted(rooms, p.id, room, room.domain.value, now);
    } else {
      NotPromoted(rooms, p.id, room, now);
    }
  }

  /** A write replaces a secret exactly if its call looked before there was one and brings another. */
  lemma SecretReplacedExactly(before: Rooms, rooms: Rooms, id: string, r: Request, at: int, now: int)
    requires LiveRoom(before, id) && Prepared(before, id, r, at).Some?
    requires LiveRoom(rooms, id) && rooms[id].HasSecret()
    ensures var p := Prepared(before, id, r, at).value;
            p.id == id && (Written(rooms, p, now)[id].secret != rooms[id].secret <==>
                             (r.Claim? || r.EnsureSecret?) && !before[id].HasSecret()
                               && rooms[id].secret != Some(r.secret))
  {
  }

  function Newest19(history: seq<Retired>): seq<Retired> {
    if |history| < HISTORY_LIMIT then history else history[|history| - HISTORY_LIMIT + 1..]
  }

  lemma LastTwentyOf(history: seq<Retired>, entry: Retired)
    ensures LastTwenty(history + [entry]) == Newest19(history) + [entry]
  {
  }

  /** Twenty copies of one entry, which one more does not change. */
  predicate FullOf(history: seq<Retired>, entry: Retired) {
    |history| == HISTORY_LIMIT && forall i :: 0 <= i < |history| ==> history[i] == entry
  }

  lemma {:induction false} ShiftedSame(h: seq<Retired>, entry: Retired, i: nat)
    requires i < |h| && h[1..] + [entry] == h
    ensures h[i] == entry
    decreases |h| - i
  {
    if i < |h| - 1 {
      ShiftedSame(h, entry, i + 1);
      assert (h[1..] + [entry])[i] == h[i + 1];
    } else {
      assert (h[1..] + [entry])[i] == entry;
    }
  }

  lemma FullStays(h: seq<Retired>, entry: Retired)
    requires |h| <= HISTORY_LIMIT
    ensures LastTwenty(h + [entry]) == h <==> FullOf(h, entry)
  {
    LastTwentyOf(h, entry);
    if |h| == HISTORY_LIMIT && h[1..] + [entry] == h {
      forall i | 0 <= i < |h| ensures h[i] == entry {
        ShiftedSame(h, entry, i);
      }
    }
    if FullOf(h, entry) {
      assert h[1..] + [entry] == h;
    }
  }

  /**
   What has to be the same about a room, between a call's look and its write of a
   domain, for the write to leave the history it should.
   */
  predicate HistoryStands(before: Room, room: Room, id: string, domain: Option<string>, at: int) {
    if Retires(before, domain) then
      if Retires(room, domain) then room.domain == before.domain && Newest19(room.history) == Newest19(before.history)
      else room.history == Newest19(before.history) + [Retired(before.domain.value, at, id)]
    else Retires(room, domain) ==> FullOf(room.history, Retired(room.domain.value, at, id))
  }

  /**
   A claim or release leaves the history its room should have, every earlier entry and
   one for the domain it takes away, exactly when the room it read still stands: the
   same domain to retire after the same nineteen entries, or the retirement already
   recorded as it would be, or none to record either time.
   */
  lemma HistoryKeptExactly(before: Rooms, rooms: Rooms, id: string, r: Request, at: int, now: int)
    requires LiveRoom(before, id) && (r.Claim? || r.Release?) && Prepared(before, id, r, at).Some?
    requires LiveRoom(rooms, id) && |rooms[id].history| <= HISTORY_LIMIT
    ensures var p := Prepared(before, id, r, at).value;
            && p.id == id && p.domain.Some?
            && (Written(rooms, p, now)[id].history == Recorded(rooms[id], id, p.domain.value, at)
                <==> HistoryStands(before[id], rooms[id], id, p.domain.value, at))
  {
    HistoryCases(before[id], rooms[id], id, Prepared(before, id, r, at).value.domain.value, at);
  }

  lemma HistoryCases(before: Room, room: Room, id: string, domain: Option<string>, at: int)
    requires |room.history| <= HISTORY_LIMIT
    ensures var written := if Retires(before, domain) then Recorded(before, id, domain, at) else room.history;
            written == Recorded(room, id, domain, at) <==> HistoryStands(before, room, id, domain, at)
  {
    if Retires(before, domain) {
      LastTwentyOf(before.history, Retired(before.domain.value, at, id));
    }
    if Retires(room, domain) {
      var entry := Retired(room.domain.value, at, id);
      LastTwentyOf(room.history, entry);
      FullStays(room.history, entry);
      if Retires(before, domain) {
        SameEnds(Newest19(before.history), Retired(before.domain.value, at, id), Newest19(room.history), entry);
      }
    }
  }

  lemma SameEnds<T>(a: seq<T>, x: T, b: seq<T>, y: T)
    ensures a + [x] == b + [y] <==> a == b && x == y
  {
    if a + [x] == b + [y] {
      assert (a + [x])[..|a|] == a && (b + [y])[..|b|] == b;
      assert (a + [x])[|a|] == x && (b + [y])[|b|] == y;
    }
  }

  // ------------------------------------------------------------------------
  // Apart, the domains stay unique
  // ------------------------------------------------------------------------

  /** One of two calls rechecks a room the other is putting on a different domain, or both would verify one domain. */
  predicate Clash(p: Pending, q: Pending) {
    if p.id == q.id then ((p.Confirms() && q.Moves()) || (q.Confirms() && p.Moves())) && p.d != q.d
    else p.Promotes() && q.Promotes() && p.d == q.d
  }

  ghost predicate Apart(s: System) {
    forall v, w :: v in s.pending && w in s.pending && v != w ==> !Clash(s.pending[v], s.pending[w])
  }

  /**
   What a lookup found is still so: nobody else is verified for the domain, and a
   recheck's room has not moved to another.
   */
  ghost predicate Current(rooms: Rooms, p: Pending) {
    && LiveRoom(rooms, p.id) && Shaped(p)
    && (p.Promotes() ==> forall x :: VerifiedFor(rooms, x, p.d) ==> x == p.id)
    && (p.Confirms() ==> rooms[p.id].domain.None? || rooms[p.id].domain == Some(p.d))
  }

  ghost predicate Sound(s: System) {
    && Unique(s.rooms) && Normal(s.rooms)
    && forall w :: w in s.pending ==> Current(s.rooms, s.pending[w])
  }

  /** At most five rooms name the domain a lookup is about, and no patch names the verified state. */
  ghost predicate Sees(s: System, step: Step) {
    match step
    case Look(_, id, request, _) =>
      Target(s.rooms, id, request).Some? ==>
        |Matching(s.rooms, ByDomain(Target(s.rooms, id, request).value))| <= HOLDER_LIMIT
    case Patch(_, patch, _) => patch.status != Some(Verified)
    case Write(_, _) => true
  }

  lemma PreparedIsCurrent(rooms: Rooms, id: string, r: Request, now: int)
    requires Unique(rooms) && Normal(rooms) && LiveRoom(rooms, id) && Prepared(rooms, id, r, now).Some?
    requires Target(rooms, id, r).Some? ==> |Matching(rooms, ByDomain(Target(rooms, id, r).value))| <= HOLDER_LIMIT
    ensures Current(rooms, Prepared(rooms, id, r, now).value)
  {
    PreparedIsShaped(rooms, id, r, now);
    if r.Claim? || r.Recheck? {
      var d := Target(rooms, id, r).value;
      UncrowdedShowsHolder(rooms, id, d);
      HeldOrHidden(rooms, id, d);
    }
  }

  /** A write verifies its own room for its own domain, or nobody. */
  lemma WriteVerifies(rooms: Rooms, p: Pending, now: int, x: string, e: string)
    requires Current(rooms, p)
    ensures VerifiedFor(Written(rooms, p, now), x, e) ==>
              (x == p.id && p.Promotes() && e == p.d) || VerifiedFor(rooms, x, e)
  {
  }

  lemma WriteSound(rooms: Rooms, p: Pending, now: int)
    requires Unique(rooms) && Normal(rooms) && Current(rooms, p)
    ensures Unique(Written(rooms, p, now)) && Normal(Written(rooms, p, now))
  {
    WriteUniqueExactly(rooms, p, now);
  }

  lemma WriteKeepsCurrent(rooms: Rooms, p: Pending, q: Pending, now: int)
    requires Current(rooms, p) && Current(rooms, q) && !Clash(p, q)
    ensures Current(Written(rooms, p, now), q)
  {
    forall x | q.Promotes() && VerifiedFor(Written(rooms, p, now), x, q.d) ensures x == q.id {
      WriteVerifies(rooms, p, now, x, q.d);
    }
  }

  lemma PatchVerifies(rooms: Rooms, op: Op, x: string, e: string)
    requires op.PatchRoom? && op.patch.status != Some(Verified)
    ensures VerifiedFor(Domains.Next(rooms, op), x, e) ==> VerifiedFor(rooms, x, e)
    ensures LiveRoom(rooms, x) ==>
              LiveRoom(Domains.Next(rooms, op), x) && Domains.Next(rooms, op)[x].domain == rooms[x].domain
  {
  }

  lemma PatchSound(s: System, op: Op)
    requires Sound(s) && op.PatchRoom? && op.patch.status != Some(Verified)
    ensures Sound(s.(rooms := Domains.Next(s.rooms, op)))
  {
    var rooms := Domains.Next(s.rooms, op);
    forall x, e ensures VerifiedFor(rooms, x, e) ==> VerifiedFor(s.rooms, x, e) {
      PatchVerifies(s.rooms, op, x, e);
    }
    forall w | w in s.pending ensures Current(rooms, s.pending[w]) {
      PatchVerifies(s.rooms, op, s.pending[w].id, s.pending[w].d);
    }
  }

  lemma LookSound(s: System, w: nat, id: string, r: Request, now: int)
    requires Sound(s) && Sees(s, Look(w, id, r, now)) && LiveRoom(s.rooms, id) && Prepared(s.rooms, id, r, now).Some?
    ensures Sound(Next(s, Look(w, id, r, now)))
  {
    var p := Prepared(s.rooms, id, r, now).value;
    assert Current(s.rooms, p) by { PreparedIsCurrent(s.rooms, id, r, now); }
    assert w !in s.pending ==> Next(s, Look(w, id, r, now)) == s.(pending := s.pending[w := p]);
  }

  lemma WriteStepSound(s: System, w: nat, now: int)
    requires Sound(s) && Apart(s) && w in s.pending
    ensures Sound(Next(s, Write(w, now)))
  {
    var p, next := s.pending[w], Next(s, Write(w, now));
    assert next == System(Written(s.rooms, p, now), s.pending - {w});
    assert Unique(next.rooms) && Normal(next.rooms) by { WriteSound(s.rooms, p, now); }
    forall v | v in next.pending ensures Current(next.rooms, next.pending[v]) {
      WriteKeepsCurrent(s.rooms, p, s.pending[v], now);
    }
  }

  lemma NextSound(s: System, step: Step)
    requires Sound(s) && Apart(s) && Sees(s, step)
    ensures Sound(Next(s, step))
  {
    match step
    case Look(w, id, r, now) =>
      if LiveRoom(s.rooms, id) && Prepared(s.rooms, id, r, now).Some? { LookSound(s, w, id, r, now); }
    case Write(w, now) =>
      if w in s.pending { WriteStepSound(s, w, now); }
    case Patch(id, patch, now) => PatchSound(s, PatchRoom(id, patch, now));
  }

  ghost predicate ApartThroughout(s: System, steps: seq<Step>) {
    && Apart(Run(s, steps))
    && (steps != [] ==>
          ApartThroughout(s, steps[..|steps| - 1]) && Sees(Run(s, steps[..|steps| - 1]), steps[|steps| - 1]))
  }

  /**
   In any interleaving of requests and guarded patches that do not name the verified
   state, in which no two calls in flight clash, no two live rooms are ever verified
   for one domain.
   */
  lemma {:induction false} UniqueWhenApart(s: System, steps: seq<Step>)
    requires Sound(s) && ApartThroughout(s, steps)
    ensures Sound(Run(s, steps))
  {
    if steps != [] {
      UniqueWhenApart(s, steps[..|steps| - 1]);
      NextSound(Run(s, steps[..|steps| - 1]), steps[|steps| - 1]);
    }
  }

  // ------------------------------------------------------------------------
  // A secret there from the start
  // ------------------------------------------------------------------------

  /** The room has this secret, and no call in flight for the room brings one. */
  ghost predicate Settled(s: System, id: string, secret: Option<string>) {
    && LiveRoom(s.rooms, id) && s.rooms[id].HasSecret() && s.rooms[id].secret == secret
    && forall w :: w in s.pending && s.pending[w].id == id ==> s.pending[w].secret.None?
  }

  lemma NextSettled(s: System, step: Step, id: string, secret: Option<string>)
    requires Settled(s, id, secret)
    ensures Settled(Next(s, step), id, secret)
  {
    if step.Patch? { NextKeepsSecret(s.rooms, PatchRoom(step.id, step.patch, step.now), id); }
  }

  /** A secret that was there before any call in flight looked stays, in every interleaving. */
  lemma {:induction false} SecretStays(s: System, steps: seq<Step>, id: string)
    requires LiveRoom(s.rooms, id) && Settled(s, id, s.rooms[id].secret)
    ensures Settled(Run(s, steps), id, s.rooms[id].secret)
  {
    if steps != [] {
      SecretStays(s, steps[..|steps| - 1], id);
      NextSettled(Run(s, steps[..|steps| - 1]), steps[|steps| - 1], id, s.rooms[id].secret);
    }
  }

  // ------------------------------------------------------------------------
  // Overlapping, none of this need hold
  // ------------------------------------------------------------------------

  /** The room the call verifies is, or will be, on the call's domain. */
  predicate Lands(rooms: Rooms, p: Pending) {
    LiveRoom(rooms, p.id) && (p.Confirms() ==> rooms[p.id].domain == Some(p.d))
  }

  function Both(rooms: Rooms, p: Pending, q: Pending, t: int, u: int): Rooms
    requires LiveRoom(rooms, p.id) && LiveRoom(rooms, q.id) && p.id != q.id
  {
    Written(Written(rooms, p, t), q, u)
  }

  /**
   Two calls in flight for different rooms, whose lookups both still hold, write a
   second verified room for a domain exactly when both would verify the same one.
   */
  lemma OverlapExactly(rooms: Rooms, p: Pending, q: Pending, t: int, u: int)
    requires Unique(rooms) && Normal(rooms) && Current(rooms, p) && Current(rooms, q)
    requires Lands(rooms, p) && Lands(rooms, q) && p.id != q.id
    ensures Unique(Both(rooms, p, q, t, u)) <==> !(p.Promotes() && q.Promotes() && p.d == q.d)
  {
    if Clash(p, q) {
      assert VerifiedFor(Both(rooms, p, q, t, u), p.id, p.d) && VerifiedFor(Both(rooms, p, q, t, u), q.id, p.d);
    } else {
      WriteSound(rooms, p, t);
      WriteKeepsCurrent(rooms, p, q, t);
      WriteSound(Written(rooms, p, t), q, u);
    }
  }

  lemma RunFour(s: System, a: Step, b: Step, c: Step, d: Step)
    ensures Run(s, [a, b, c, d][..3]) == Next(Next(Next(s, a), b), c)
    ensures Run(s, [a, b, c, d]) == Next(Next(Next(Next(s, a), b), c), d)
  {
    var steps := [a, b, c, d];
    assert steps[..3] == [a, b, c] && [a, b, c][..2] == [a, b] && [a, b][..1] == [a] && [a][..0] == [];
    assert Run(s, [a]) == Next(s, a);
    assert Run(s, [a, b]) == Next(Next(s, a), b);
    assert Run(s, [a, b, c]) == Next(Next(Next(s, a), b), c);
  }

  /** Two calls that both look before either writes, the one that looked last writing first if `swap`. */
  function Crossed(a: string, r: Request, b: string, q: Request, swap: bool, t: int): seq<Step> {
    [Look(0, a, r, t), Look(1, b, q, t), Write(if swap then 1 else 0, t), Write(if swap then 0 else 1, t)]
  }

  lemma CrossedRun(rooms: Rooms, a: string, r: Request, b: string, q: Request, swap: bool, t: int)
    requires LiveRoom(rooms, a) && Prepared(rooms, a, r, t).Some? && Prepared(rooms, a, r, t).value.id == a
    requires LiveRoom(rooms, b) && Prepared(rooms, b, q, t).Some? && Prepared(rooms, b, q, t).value.id == b
    ensures var x, y := Prepared(rooms, a, r, t).value, Prepared(rooms, b, q, t).value;
            var first, second := if swap then y else x, if swap then x else y;
            var after, steps := Written(rooms, first, t), Crossed(a, r, b, q, swap, t);
            && LiveRoom(after, second.id)
            && Run(System(rooms, map[]), steps[..3]).rooms == after
            && Run(System(rooms, map[]), steps).rooms == Written(after, second, t)
  {
    var x, y := Prepared(rooms, a, r, t).value, Prepared(rooms, b, q, t).value;
    var steps := Crossed(a, r, b, q, swap, t);
    TwoLooks(rooms, a, r, x, b, q, y, t);
    RunFour(System(rooms, map[]), steps[0], steps[1], steps[2], steps[3]);
    TwoWrites(System(rooms, map[0 := x, 1 := y]), x, y, swap, t);
  }

  lemma TwoLooks(rooms: Rooms, a: string, r: Request, x: Pending, b: string, q: Request, y: Pending, t: int)
    requires LiveRoom(rooms, a) && Prepared(rooms, a, r, t) == Some(x)
    requires LiveRoom(rooms, b) && Prepared(rooms, b, q, t) == Some(y)
    ensures Next(Next(System(rooms, map[]), Look(0, a, r, t)), Look(1, b, q, t)) == System(rooms, map[0 := x, 1 := y])
  {
    assert Next(System(rooms, map[]), Look(0, a, r, t)) == System(rooms, map[0 := x]);
  }

  lemma TwoWrites(s: System, x: Pending, y: Pending, swap: bool, t: int)
    requires s.pending == map[0 := x, 1 := y] && LiveRoom(s.rooms, x.id) && LiveRoom(s.rooms, y.id)
    ensures var first, second := if swap then y else x, if swap then x else y;
            var after := Next(s, Write(if swap then 1 else 0, t));
            && after.rooms == Written(s.rooms, first, t) && LiveRoom(after.rooms, second.id)
            && Next(after, Write(if swap then 0 else 1, t)).rooms == Written(after.rooms, second, t)
  {
  }

  function Matched(d: string): Request {
    Claim(d, false, true, "s", "c")
  }

  function Forced(d: string): Request {
    Claim(d, true, false, "t", "c")
  }

  lemma FreeIsPrepared(rooms: Rooms, id: string, r: Request, d: string, now: int)
    requires LiveRoom(rooms, id) && Normalise(d) == Ok(d) && NobodyHolds(rooms, d)
    requires r == Matched(d) || r == Forced(d) || (r == Recheck(true) && rooms[id].domain == Some(d) && d != "")
    ensures var p := Prepared(rooms, id, r, now);
            && p.Some? && p.value.id == id && p.value.d == d
            && (p.value.Promotes() <==> r != Forced(d))
            && (if r.Recheck? then p.value.domain.None? else p.value.domain == Some(Some(d)))
            && (r.Claim? ==> p.value.history == NewHistory(rooms[id], id, Some(d), now)
                             && p.value.secret == NewSecret(rooms[id], r.secret))
            && (r.Recheck? ==> p.value.history.None?)
  {
    forall x | Visible(rooms, ByDomain(d), HOLDER_LIMIT, x) ensures rooms[x].status != Verified {
      assert !VerifiedFor(rooms, x, d);
    }
  }

  /** Two rooms are enough: claims of one free domain that cross verify both rooms for it. */
  lemma TwoClaimsBothVerified(rooms: Rooms, a: string, b: string, d: string, t: int)
    requires a != b && LiveRoom(rooms, a) && LiveRoom(rooms, b) && Normalise(d) == Ok(d) && NobodyHolds(rooms, d)
    ensures var after := Run(System(rooms, map[]), Crossed(a, Matched(d), b, Matched(d), false, t)).rooms;
            VerifiedFor(after, a, d) && VerifiedFor(after, b, d)
  {
    FreeIsPrepared(rooms, a, Matched(d), d, t);
    FreeIsPrepared(rooms, b, Matched(d), d, t);
    CrossedRun(rooms, a, Matched(d), b, Matched(d), false, t);
  }

  /**
   One room is enough to verify a domain nothing matched: a recheck that looked before
   a forced claim and writes after it verifies the domain forced.
   */
  lemma RecheckVerifiesForcedClaim(rooms: Rooms, a: string, d: string, e: string, t: int)
    requires LiveRoom(rooms, a) && rooms[a].domain == Some(d) && d != "" && Normalise(d) == Ok(d)
             && NobodyHolds(rooms, d)
    requires Normalise(e) == Ok(e) && NobodyHolds(rooms, e)
    ensures VerifiedFor(Run(System(rooms, map[]), Crossed(a, Recheck(true), a, Forced(e), true, t)).rooms, a, e)
  {
    FreeIsPrepared(rooms, a, Recheck(true), d, t);
    FreeIsPrepared(rooms, a, Forced(e), e, t);
    CrossedRun(rooms, a, Recheck(true), a, Forced(e), true, t);
  }

  predicate Shows(rooms: Rooms, id: string, domain: string, secret: string, history: seq<Retired>) {
    && LiveRoom(rooms, id) && rooms[id].domain == Some(domain) && rooms[id].secret == Some(secret)
    && rooms[id].history == history
  }

  /**
   Two claims of one room that cross: the domain and the secret the first one gave it
   are replaced, and its history never mentions that domain.
   */
  lemma CrossedClaimsForget(rooms: Rooms, a: string, d: string, e: string, t: int)
    requires LiveRoom(rooms, a) && rooms[a].domain.None? && rooms[a].secret.None? && d != e
    requires Normalise(d) == Ok(d) && NobodyHolds(rooms, d) && Normalise(e) == Ok(e) && NobodyHolds(rooms, e)
    ensures var s0, steps := System(rooms, map[]), Crossed(a, Matched(d), a, Forced(e), true, t);
            && Shows(Run(s0, steps[..3]).rooms, a, e, "t", rooms[a].history)
            && Shows(Run(s0, steps).rooms, a, d, "s", rooms[a].history)
  {
    FreeIsPrepared(rooms, a, Matched(d), d, t);
    FreeIsPrepared(rooms, a, Forced(e), e, t);
    CrossedRun(rooms, a, Matched(d), a, Forced(e), true, t);
  }
}

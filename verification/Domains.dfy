/** Custom domains, link secrets and branding of rooms. */
module Domains {
  import opened Hostnames
  import opened Prelude

  const HOLDER_LIMIT := 5
  const LIST_LIMIT := 1000
  const HISTORY_LIMIT := 20

  datatype Status = Verified | Unverified | Failed

  datatype Retired = Retired(domain: string, at: int, room: string)

  /**
   A room record. `updated` is the millisecond of its last write and `rowid` its place
   in insertion order; a missing verification state is read as unverified.
   */
  datatype Room = Room(
    domain: Option<string>, status: Status, checkedAt: Option<int>, activatedAt: Option<int>,
    secret: Option<string>, collaborator: Option<string>, history: seq<Retired>, branding: map<string, string>,
    live: bool, updated: int, rowid: nat)
  {
    predicate HasDomain() {
      domain.Some? && domain.value != ""
    }

    predicate HasSecret() {
      secret.Some? && secret.value != ""
    }
  }

  type Rooms = map<string, Room>

  // ------------------------------------------------------------------------
  // The store's queries
  // ------------------------------------------------------------------------

  /** What a query asks of a live room. */
  datatype Key = ByDomain(domain: string) | BySecret(secret: string) | AnyRoom

  predicate Matches(room: Room, key: Key) {
    room.live &&
    match key
    case ByDomain(d) => room.domain == Some(d)
    case BySecret(s) => room.secret == Some(s)
    case AnyRoom => true
  }

  /** Most recently updated first, ties by insertion, latest first. */
  predicate Newer(a: Room, b: Room) {
    a.updated > b.updated || (a.updated == b.updated && a.rowid > b.rowid)
  }

  predicate Rowed(rooms: Rooms) {
    forall a, b :: a in rooms && b in rooms && a != b ==> rooms[a].rowid != rooms[b].rowid
  }

  function Matching(rooms: Rooms, key: Key): set<string> {
    set id | id in rooms && Matches(rooms[id], key)
  }

  function NewerThan(rooms: Rooms, key: Key, id: string): set<string>
    requires id in rooms
  {
    set x | x in rooms && Matches(rooms[x], key) && Newer(rooms[x], rooms[id])
  }

  /** The room is among the first `limit` answers. */
  predicate Visible(rooms: Rooms, key: Key, limit: nat, id: string) {
    id in rooms && Matches(rooms[id], key) && |NewerThan(rooms, key, id)| < limit
  }

  /** The answers of a limited query. */
  predicate Answers(rooms: Rooms, key: Key, limit: nat, m: seq<string>) {
    && |m| <= limit
    && (forall i :: 0 <= i < |m| ==> m[i] in rooms && Matches(rooms[m[i]], key))
    && (forall i, j :: 0 <= i < j < |m| ==> Newer(rooms[m[i]], rooms[m[j]]))
    && (forall x :: x in rooms && Matches(rooms[x], key) && x !in m ==>
          |m| == limit && forall i :: 0 <= i < |m| ==> Newer(rooms[m[i]], rooms[x]))
  }

  /** A query answers exactly the visible rooms. */
  lemma AnswersAreVisible(rooms: Rooms, key: Key, limit: nat, m: seq<string>, id: string)
    requires Answers(rooms, key, limit, m)
    ensures id in m <==> Visible(rooms, key, limit, id)
  {
    forall i, j | 0 <= i < j < |m| ensures m[i] != m[j] {
      assert Newer(rooms[m[i]], rooms[m[j]]);
    }
    if id in m {
      var k :| 0 <= k < |m| && m[k] == id;
      var earlier := set x | x in m[..k];
      DistinctSize(m[..k]);
      forall x | x in NewerThan(rooms, key, id) ensures x in earlier {
        assert x in m;
        var i :| 0 <= i < |m| && m[i] == x;
        assert i < k;
        assert m[..k][i] == x;
      }
      SubsetSize(NewerThan(rooms, key, id), earlier);
    } else if id in rooms && Matches(rooms[id], key) {
      var all := set x | x in m;
      DistinctSize(m);
      SubsetSize(all, NewerThan(rooms, key, id));
    }
  }

  /** The first answer is the one room nothing newer than it matches. */
  lemma NewestIsFirst(rooms: Rooms, key: Key, limit: nat, m: seq<string>)
    requires Answers(rooms, key, limit, m) && m != []
    ensures forall id :: Visible(rooms, key, 1, id) <==> id == m[0]
  {
    forall x | x in rooms && Matches(rooms[x], key) ensures !Newer(rooms[x], rooms[m[0]]) {
    }
    assert NewerThan(rooms, key, m[0]) == {};
    forall id | id in rooms && Matches(rooms[id], key) && id != m[0] ensures !Visible(rooms, key, 1, id) {
      assert m[0] in NewerThan(rooms, key, id);
      SubsetSize({m[0]}, NewerThan(rooms, key, id));
    }
  }

  /** When no more rooms match than the query may answer, all of them are visible. */
  lemma FewAreVisible(rooms: Rooms, key: Key, limit: nat, id: string)
    requires |Matching(rooms, key)| <= limit && id in Matching(rooms, key)
    ensures Visible(rooms, key, limit, id)
  {
    SubsetSize(NewerThan(rooms, key, id), Matching(rooms, key) - {id});
  }

  // ------------------------------------------------------------------------
  // What each request does
  // ------------------------------------------------------------------------

  /**
   A request to the service. `matched` is what DNS answers for the domain concerned,
   `secret` and `token` what would be minted if needed, `valid` whether the brand
   tokens pass their grammars.
   */
  datatype Request =
    | Claim(raw: string, force: bool, matched: bool, secret: string, token: string)
    | Release
    | Recheck(matched: bool)
    | EnsureSecret(secret: string, token: string)
    | Brand(tokens: map<string, string>, valid: bool)

  datatype Refusal =
    | NoSuchRoom | BadDomain | DomainConflict | NoDomain | BadToken | NoSecret | UnknownSecret | HostNotServed

  datatype Outcome = Refused(refusal: Refusal) | Unchanged | Wrote(room: Room)

  predicate LiveRoom(rooms: Rooms, id: string) {
    id in rooms && rooms[id].live
  }

  /** The indexed lookup finds a room other than `exclude` that is verified for the domain. */
  ghost predicate Held(rooms: Rooms, d: string, exclude: Option<string>) {
    exists x :: Visible(rooms, ByDomain(d), HOLDER_LIMIT, x) && Some(x) != exclude && rooms[x].status == Verified
  }

  function LastTwenty(history: seq<Retired>): seq<Retired> {
    if |history| <= HISTORY_LIMIT then history else history[|history| - HISTORY_LIMIT..]
  }

  function Mint(room: Room, secret: string, token: string): Room {
    room.(secret := if room.HasSecret() then room.secret else Some(secret),
          collaborator := if room.collaborator.Some? && room.collaborator.value != "" then room.collaborator
                          else Some(token))
  }

  /** The record after attaching normalised domain `d`. */
  function Attached(id: string, room: Room, d: string, ready: bool, secret: string, token: string, now: int): Room {
    Mint(room.(domain := Some(d),
               status := if ready then Verified else Unverified,
               checkedAt := Some(now),
               history := if room.HasDomain() && room.domain.value != d
                          then LastTwenty(room.history + [Retired(room.domain.value, now, id)]) else room.history),
         secret, token)
  }

  function Detached(id: string, room: Room, now: int): Room
    requires room.domain.Some?
  {
    room.(domain := None, status := Unverified,
          history := LastTwenty(room.history + [Retired(room.domain.value, now, id)]))
  }

  function Rechecked(room: Room, ready: bool, now: int): Room {
    room.(status := if ready then Verified else Failed,
          checkedAt := Some(now),
          activatedAt := if ready && room.status != Verified then Some(now) else room.activatedAt)
  }

  ghost function Decide(rooms: Rooms, id: string, r: Request, now: int): Outcome {
    if !LiveRoom(rooms, id) then Refused(NoSuchRoom)
    else
      var room := rooms[id];
      match r
      case Claim(raw, force, matched, secret, token) =>
        var d := Normalise(raw);
        if d.Err? then Refused(BadDomain)
        else
          var available := !Held(rooms, d.value, Some(id));
          if !available || (!matched && !force) then Refused(DomainConflict)
          else Wrote(Attached(id, room, d.value, matched, secret, token, now))
      case Release => if room.HasDomain() then Wrote(Detached(id, room, now)) else Refused(NoDomain)
      case Recheck(matched) =>
        if !room.HasDomain() then Refused(NoDomain)
        else
          var d := Normalise(room.domain.value);
          if d.Err? then Refused(BadDomain)
          else Wrote(Rechecked(room, matched && !Held(rooms, d.value, Some(id)), now))
      case EnsureSecret(secret, token) => if room.HasSecret() then Unchanged else Wrote(Mint(room, secret, token))
      case Brand(tokens, valid) => if valid then Wrote(room.(branding := room.branding + tokens)) else Refused(BadToken)
  }

  /** The store's write: the record is replaced and stamped. */
  function Put(rooms: Rooms, id: string, room: Room, now: int): Rooms {
    rooms[id := room.(updated := now)]
  }

  function After(rooms: Rooms, id: string, outcome: Outcome, now: int): Rooms {
    if outcome.Wrote? then Put(rooms, id, outcome.room, now) else rooms
  }

  /** What a generic record patch may carry; None leaves a field alone. */
  datatype RoomPatch = RoomPatch(
    domain: Option<Option<string>>, status: Option<Status>, secret: Option<Option<string>>,
    collaborator: Option<Option<string>>, history: Option<seq<Retired>>, branding: Option<map<string, string>>)

  /** Drop the fields the product owns from a caller-supplied patch. */
  function StripReserved(p: RoomPatch): RoomPatch {
    p.(domain := None, secret := None, collaborator := None)
  }

  function Patched(room: Room, p: RoomPatch): Room {
    room.(domain := if p.domain.Some? then p.domain.value else room.domain,
          status := if p.status.Some? then p.status.value else room.status,
          secret := if p.secret.Some? then p.secret.value else room.secret,
          collaborator := if p.collaborator.Some? then p.collaborator.value else room.collaborator,
          history := if p.history.Some? then p.history.value else room.history,
          branding := if p.branding.Some? then p.branding.value else room.branding)
  }

  datatype Op =
    | Serve(id: string, request: Request, now: int)
    /** The generic route, guarded. */
    | PatchRoom(id: string, patch: RoomPatch, now: int)

  ghost function Next(rooms: Rooms, op: Op): Rooms {
    match op
    case Serve(id, request, now) => After(rooms, id, Decide(rooms, id, request, now), now)
    case PatchRoom(id, patch, now) =>
      if LiveRoom(rooms, id) then Put(rooms, id, Patched(rooms[id], StripReserved(patch)), now) else rooms
  }

  ghost function Run(rooms: Rooms, ops: seq<Op>): Rooms {
    if ops == [] then rooms else Next(Run(rooms, ops[..|ops| - 1]), ops[|ops| - 1])
  }

  // ------------------------------------------------------------------------
  // Resolution
  // ------------------------------------------------------------------------

  ghost predicate HostServed(rooms: Rooms, base: string, room: Room, host: string) {
    || RecognisedHost(host, base)
    || HostMatches(host, if room.domain.Some? then room.domain.value else "")
    || (HostDomain(host).Ok? && Held(rooms, HostDomain(host).value, None))
  }

  datatype Resolved = Resolved(id: string, onCustomDomain: bool)

  function OnCustomDomain(room: Room, host: Option<string>): bool {
    room.HasDomain() && room.status == Verified && host.Some? && host.value != ""
      && HostMatches(host.value, room.domain.value)
  }

  /** What a link to the room answers on a host. */
  ghost function ResolvedTo(rooms: Rooms, base: string, id: string, host: Option<string>): Result<Resolved, Refusal>
    requires id in rooms
  {
    if host.Some? && !HostServed(rooms, base, rooms[id], host.value) then Err(HostNotServed)
    else Ok(Resolved(id, OnCustomDomain(rooms[id], host)))
  }

  // ------------------------------------------------------------------------
  // The service
  // ------------------------------------------------------------------------

  class DomainService {
    var rooms: Rooms
    /** The deployment's own host name. */
    const base: string

    ghost predicate Valid()
      reads this
    {
      Rowed(rooms)
    }

    constructor (rooms: Rooms, base: string)
      requires Rowed(rooms)
      ensures Valid() && this.rooms == rooms && this.base == base
    {
      this.rooms, this.base := rooms, base;
    }

    /** The newest of some rooms. */
    method NewestOf(ids: set<string>) returns (newest: string)
      requires Valid() && ids != {} && ids <= rooms.Keys
      ensures newest in ids
      ensures forall x :: x in ids && x != newest ==> Newer(rooms[newest], rooms[x])
    {
      newest := PickOne(ids);
      var rest := ids - {newest};
      while rest != {}
        invariant newest in ids && rest <= ids && newest !in rest
        invariant forall x :: x in ids && x !in rest && x != newest ==> Newer(rooms[newest], rooms[x])
        decreases rest
      {
        var x := PickOne(rest);
        rest := rest - {x};
        if Newer(rooms[x], rooms[newest]) {
          newest := x;
        }
      }
    }

    /** The store's query: matching live rooms, newest first, at most `limit` of them. */
    method Find(key: Key, limit: nat) returns (m: seq<string>)
      requires Valid()
      ensures Answers(rooms, key, limit, m)
    {
      var left := Matching(rooms, key);
      m := [];
      while left != {} && |m| < limit
        invariant left <= Matching(rooms, key) && |m| <= limit
        invariant forall x :: x in Matching(rooms, key) <==> x in left || x in m
        invariant forall i :: 0 <= i < |m| ==> m[i] in rooms && Matches(rooms[m[i]], key)
        invariant forall i, x :: 0 <= i < |m| && x in left ==> Newer(rooms[m[i]], rooms[x])
        invariant forall i, j :: 0 <= i < j < |m| ==> Newer(rooms[m[i]], rooms[m[j]])
        decreases left
      {
        var x := NewestOf(left);
        left := left - {x};
        m := m + [x];
      }
    }

    /** The live room already holding a domain, if the lookup finds one. */
    method DomainHolder(d: string, exclude: Option<string>) returns (holder: Option<string>)
      requires Valid()
      ensures holder.Some? <==> Held(rooms, d, exclude)
      ensures holder.Some? ==> Visible(rooms, ByDomain(d), HOLDER_LIMIT, holder.value)
                               && Some(holder.value) != exclude && rooms[holder.value].status == Verified
    {
      var m := Find(ByDomain(d), HOLDER_LIMIT);
      forall x ensures x in m <==> Visible(rooms, ByDomain(d), HOLDER_LIMIT, x) {
        AnswersAreVisible(rooms, ByDomain(d), HOLDER_LIMIT, m, x);
      }
      for i := 0 to |m|
        invariant forall j :: 0 <= j < i ==> Some(m[j]) == exclude || rooms[m[j]].status != Verified
      {
        if Some(m[i]) != exclude && rooms[m[i]].status == Verified {
          assert m[i] in m;
          return Some(m[i]);
        }
      }
      holder := None;
    }

    /** Every verified domain of the rooms one listing returns. */
    method ClaimedDomains(exclude: Option<string>) returns (domains: seq<string>)
      requires Valid()
      ensures forall d :: d in domains <==> Listed(rooms, d, exclude)
    {
      var m := Find(AnyRoom, LIST_LIMIT);
      forall x ensures x in m <==> Visible(rooms, AnyRoom, LIST_LIMIT, x) {
        AnswersAreVisible(rooms, AnyRoom, LIST_LIMIT, m, x);
      }
      domains := [];
      for i := 0 to |m|
        invariant forall d :: d in domains <==>
                    exists j :: 0 <= j < i && Some(m[j]) != exclude && rooms[m[j]].domain == Some(d) && d != ""
                      && rooms[m[j]].status == Verified
      {
        var room := rooms[m[i]];
        if Some(m[i]) != exclude && room.HasDomain() && room.status == Verified {
          domains := domains + [room.domain.value];
        }
      }
    }

    method EnsureLinkSecret(id: string, secret: string, token: string, now: int) returns (outcome: Outcome)
      requires Valid()
      modifies this`rooms
      ensures Valid() && outcome == Decide(old(rooms), id, EnsureSecret(secret, token), now)
      ensures rooms == After(old(rooms), id, outcome, now)
    {
      if id !in rooms || !rooms[id].live { return Refused(NoSuchRoom); }
      if rooms[id].HasSecret() { return Unchanged; }
      outcome := Wrote(Mint(rooms[id], secret, token));
      rooms := Put(rooms, id, outcome.room, now);
    }

    /** Check a candidate domain without claiming it. */
    method Verify(raw: string, forRoom: Option<string>, matched: bool) returns (report: Option<(string, bool, bool)>)
      requires Valid()
      ensures report.None? <==> Normalise(raw).Err?
      ensures report.Some? ==>
                report.value.0 == Normalise(raw).value && report.value.1 == !Held(rooms, report.value.0, forRoom)
                && report.value.2 == (matched && report.value.1)
    {
      var d := Normalise(raw);
      if d.Err? { return None; }
      var holder := DomainHolder(d.value, forRoom);
      report := Some((d.value, holder.None?, matched && holder.None?));
    }

    /** The availability half of a claim, and its second look at the holder, which never differs from the first. */
    method CheckAvailable(id: string, d: string, matched: bool) returns (available: bool, ready: bool)
      requires Valid() && Normalise(d) == Ok(d)
      ensures available == !Held(rooms, d, Some(id)) && ready == (matched && available)
    {
      var report := Verify(d, Some(id), matched);
      if !report.value.1 { return false, false; }
      var holder := DomainHolder(d, None);
      if holder.Some? && holder.value != id {
        assert false;
      }
      available, ready := true, report.value.2;
    }

    method ClaimDomain(id: string, raw: string, force: bool, matched: bool, secret: string, token: string, now: int)
      returns (outcome: Outcome)
      requires Valid()
      modifies this`rooms
      ensures Valid() && outcome == Decide(old(rooms), id, Claim(raw, force, matched, secret, token), now)
      ensures rooms == After(old(rooms), id, outcome, now)
    {
      if id !in rooms || !rooms[id].live { return Refused(NoSuchRoom); }
      var d := Normalise(raw);
      if d.Err? { return Refused(BadDomain); }
      NormaliseIdempotent(raw);
      var available, ready := CheckAvailable(id, d.value, matched);
      if !ready && !force { return Refused(DomainConflict); }
      if !available { return Refused(DomainConflict); }
      outcome := Wrote(Attached(id, rooms[id], d.value, ready, secret, token, now));
      rooms := Put(rooms, id, outcome.room, now);
    }

    method ReleaseDomain(id: string, now: int) returns (outcome: Outcome)
      requires Valid()
      modifies this`rooms
      ensures Valid() && outcome == Decide(old(rooms), id, Release, now)
      ensures rooms == After(old(rooms), id, outcome, now)
    {
      if id !in rooms || !rooms[id].live { return Refused(NoSuchRoom); }
      if !rooms[id].HasDomain() { return Refused(NoDomain); }
      outcome := Wrote(Detached(id, rooms[id], now));
      rooms := Put(rooms, id, outcome.room, now);
    }

    method RecheckDomain(id: string, matched: bool, now: int) returns (outcome: Outcome)
      requires Valid()
      modifies this`rooms
      ensures Valid() && outcome == Decide(old(rooms), id, Recheck(matched), now)
      ensures rooms == After(old(rooms), id, outcome, now)
    {
      if id !in rooms || !rooms[id].live { return Refused(NoSuchRoom); }
      if !rooms[id].HasDomain() { return Refused(NoDomain); }
      var report := Verify(rooms[id].domain.value, Some(id), matched);
      if report.None? { return Refused(BadDomain); }
      outcome := Wrote(Rechecked(rooms[id], report.value.2, now));
      rooms := Put(rooms, id, outcome.room, now);
    }

    method UpdateBranding(id: string, tokens: map<string, string>, valid: bool, now: int) returns (outcome: Outcome)
      requires Valid()
      modifies this`rooms
      ensures Valid() && outcome == Decide(old(rooms), id, Brand(tokens, valid), now)
      ensures rooms == After(old(rooms), id, outcome, now)
    {
      if id !in rooms || !rooms[id].live { return Refused(NoSuchRoom); }
      if !valid { return Refused(BadToken); }
      outcome := Wrote(rooms[id].(branding := rooms[id].branding + tokens));
      rooms := Put(rooms, id, outcome.room, now);
    }

    /** Whether a host is routed to this deployment, checked in increasing order of cost. */
    method HostIsServed(host: string, room: Room) returns (served: bool)
      requires Valid()
      ensures served <==> HostServed(rooms, base, room, host)
    {
      if RecognisedHost(host, base) { return true; }
      if HostMatches(host, if room.domain.Some? then room.domain.value else "") { return true; }
      var d := HostDomain(host);
      if d.Err? { return false; }
      var holder := DomainHolder(d.value, None);
      served := holder.Some?;
    }

    /** Resolve a share-link secret to a room, the newest should several carry it. */
    method Resolve(secret: string, host: Option<string>) returns (answer: Result<Resolved, Refusal>)
      requires Valid()
      ensures secret == "" ==> answer == Err(NoSecret)
      ensures secret != "" && Matching(rooms, BySecret(secret)) == {} ==> answer == Err(UnknownSecret)
      ensures forall id :: secret != "" && Visible(rooms, BySecret(secret), 1, id) ==>
                answer == ResolvedTo(rooms, base, id, host)
    {
      if secret == "" { return Err(NoSecret); }
      var m := Find(BySecret(secret), 2);
      if m == [] {
        return Err(UnknownSecret);
      }
      NewestIsFirst(rooms, BySecret(secret), 2, m);
      assert m[0] in Matching(rooms, BySecret(secret));
      answer := ResolveRoom(m[0], host);
    }

    method ResolveRoom(id: string, host: Option<string>) returns (answer: Result<Resolved, Refusal>)
      requires Valid() && id in rooms
      ensures answer == ResolvedTo(rooms, base, id, host)
    {
      if host.Some? {
        var served := HostIsServed(host.value, rooms[id]);
        if !served { return Err(HostNotServed); }
      }
      answer := Ok(Resolved(id, OnCustomDomain(rooms[id], host)));
    }
  }

  /** The listing returns a room other than `exclude` that is verified for the domain. */
  ghost predicate Listed(rooms: Rooms, d: string, exclude: Option<string>) {
    exists x :: Visible(rooms, AnyRoom, LIST_LIMIT, x) && Some(x) != exclude && rooms[x].domain == Some(d) && d != ""
      && rooms[x].status == Verified
  }
}

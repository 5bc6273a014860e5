/** What each request to the domain service changes about its room, field by field, and what it answers. */
module DomainRequests {
  import opened Domains
  import opened DomainLaws
  import opened Hostnames
  import opened Prelude

  /** At most five rooms name the domain, so that the lookup sees them all. */
  ghost predicate Seen(rooms: Rooms, d: string) {
    |Matching(rooms, ByDomain(d))| <= 5
  }

  /** Another live room is verified for the domain. */
  ghost predicate Taken(rooms: Rooms, id: string, d: string) {
    exists x :: x != id && x in rooms && rooms[x].live && rooms[x].domain == Some(d) && rooms[x].status == Verified
  }

  /** Every other room is as it was, and this one keeps what no request may change. */
  predicate RestKept(rooms: Rooms, next: Rooms, id: string, now: int) {
    && id in rooms && next.Keys == rooms.Keys
    && (forall x :: x in rooms && x != id ==> next[x] == rooms[x])
    && next[id].live == rooms[id].live && next[id].rowid == rooms[id].rowid && next[id].updated == now
  }

  /** A secret or token there stays; otherwise the new one is taken. */
  function Minted(current: Option<string>, minted: string): Option<string> {
    if current.Some? && current.value != "" then current else Some(minted)
  }

  lemma TakenExactly(rooms: Rooms, id: string, d: string)
    requires Seen(rooms, d)
    ensures Held(rooms, d, Some(id)) <==> Taken(rooms, id, d)
  {
    HeldExactly(rooms, d, Some(id));
    if Taken(rooms, id, d) {
      var x :| x != id && x in rooms && rooms[x].live && rooms[x].domain == Some(d) && rooms[x].status == Verified;
      assert VerifiedFor(rooms, x, d);
    }
  }

  /**
   A claim is refused for a room that is not there, then for text that is no domain,
   then for a domain another room is verified for, whatever is forced, or one whose DNS
   does not match unless it is forced. Otherwise the room has the domain, verified
   exactly if its DNS matched.
   */
  lemma ClaimExactly(rooms: Rooms, id: string, raw: string, force: bool, matched: bool, secret: string, token: string,
                     now: int)
    requires Normalise(raw).Ok? ==> Seen(rooms, Normalise(raw).value)
    ensures var r := Claim(raw, force, matched, secret, token);
            var outcome, next := Decide(rooms, id, r, now), Next(rooms, Serve(id, r, now));
            if !(id in rooms && rooms[id].live) then outcome == Refused(NoSuchRoom) && next == rooms
            else if Normalise(raw).Err? then outcome == Refused(BadDomain) && next == rooms
            else if Taken(rooms, id, Normalise(raw).value) || (!matched && !force) then
              outcome == Refused(DomainConflict) && next == rooms
            else
              && outcome.Wrote? && RestKept(rooms, next, id, now)
              && next[id].domain == Some(Normalise(raw).value)
              && next[id].status == (if matched then Verified else Unverified)
              && next[id].checkedAt == Some(now) && next[id].activatedAt == rooms[id].activatedAt
              && next[id].secret == Minted(rooms[id].secret, secret)
              && next[id].collaborator == Minted(rooms[id].collaborator, token)
              && next[id].branding == rooms[id].branding
  {
    if Normalise(raw).Ok? { TakenExactly(rooms, id, Normalise(raw).value); }
  }

  /** A release takes the domain away, unverified, and leaves the secret. */
  lemma ReleaseExactly(rooms: Rooms, id: string, now: int)
    ensures var outcome, next := Decide(rooms, id, Release, now), Next(rooms, Serve(id, Release, now));
            if !(id in rooms && rooms[id].live) then outcome == Refused(NoSuchRoom) && next == rooms
            else if rooms[id].domain in {None, Some("")} then outcome == Refused(NoDomain) && next == rooms
            else
              && outcome.Wrote? && RestKept(rooms, next, id, now)
              && next[id]
                == rooms[id].(domain := None, status := Unverified, history := next[id].history, updated := now)
              && next[id].history != []
              && next[id].history[|next[id].history| - 1] == Retired(rooms[id].domain.value, now, id)
  {
    if id in rooms && rooms[id].HasDomain() {
      LastTwentyEnds(rooms[id].history, Retired(rooms[id].domain.value, now, id));
    }
  }

  /** The history keeps its twenty latest entries, in order. */
  lemma LastTwentyEnds(history: seq<Retired>, entry: Retired)
    ensures var kept := LastTwenty(history + [entry]);
            if |history| < 20 then kept == history + [entry] else kept == history[|history| - 19..] + [entry]
    ensures LastTwenty(history + [entry])[|LastTwenty(history + [entry])| - 1] == entry
  {
    if |history| >= 20 {
      assert (history + [entry])[|history| - 19..] == history[|history| - 19..] + [entry];
    }
  }

  /**
   A recheck verifies the room exactly if the DNS matches and nobody else has the domain;
   the first time it is activated.
   */
  lemma RecheckExactly(rooms: Rooms, id: string, matched: bool, now: int)
    requires id in rooms && rooms[id].domain.Some? ==> Seen(rooms, rooms[id].domain.value)
    requires Normal(rooms)
    ensures var outcome, next := Decide(rooms, id, Recheck(matched), now),
            Next(rooms, Serve(id, Recheck(matched), now));
            if !(id in rooms && rooms[id].live) then outcome == Refused(NoSuchRoom) && next == rooms
            else if rooms[id].domain in {None, Some("")} then outcome == Refused(NoDomain) && next == rooms
            else
              var ready := matched && !Taken(rooms, id, rooms[id].domain.value);
              && outcome.Wrote? && RestKept(rooms, next, id, now)
              && next[id] == rooms[id].(
                               status := if ready then Verified else Failed,
                               checkedAt := Some(now),
                               activatedAt := if ready
                                 && rooms[id].status != Verified then Some(now) else rooms[id].activatedAt,
                               updated := now)
  {
    if id in rooms && rooms[id].live && rooms[id].HasDomain() {
      TakenExactly(rooms, id, rooms[id].domain.value);
    }
  }

  /** A secret is minted once, with a collaborator token if there is none. */
  lemma EnsureSecretExactly(rooms: Rooms, id: string, secret: string, token: string, now: int)
    ensures var r := EnsureSecret(secret, token);
            var outcome, next := Decide(rooms, id, r, now), Next(rooms, Serve(id, r, now));
            if !(id in rooms && rooms[id].live) then outcome == Refused(NoSuchRoom) && next == rooms
            else if rooms[id].secret.Some? && rooms[id].secret.value != "" then outcome == Unchanged && next == rooms
            else
              && outcome.Wrote? && RestKept(rooms, next, id, now)
              && next[id] == rooms[id].(secret := Some(secret), collaborator := Minted(rooms[id].collaborator, token),
                                        updated := now)
  {
  }

  /** Brand tokens are set one by one, and those not named stay; an invalid one refuses them all. */
  lemma BrandExactly(rooms: Rooms, id: string, tokens: map<string, string>, valid: bool, now: int, name: string)
    ensures var r := Brand(tokens, valid);
            var outcome, next := Decide(rooms, id, r, now), Next(rooms, Serve(id, r, now));
            if !(id in rooms && rooms[id].live) then outcome == Refused(NoSuchRoom) && next == rooms
            else if !valid then outcome == Refused(BadToken) && next == rooms
            else
              && outcome.Wrote? && RestKept(rooms, next, id, now)
              && next[id] == rooms[id].(branding := next[id].branding, updated := now)
              && (name in next[id].branding <==> name in tokens || name in rooms[id].branding)
              && (name in tokens ==> next[id].branding[name] == tokens[name])
              && (name !in tokens && name in rooms[id].branding ==> next[id].branding[name] == rooms[id].branding[name])
  {
  }

  /** A guarded patch never touches the domain, the secret or the collaborator token; what else it names it sets. */
  lemma PatchExactly(rooms: Rooms, id: string, patch: RoomPatch, now: int)
    ensures var next := Next(rooms, PatchRoom(id, patch, now));
            if !(id in rooms && rooms[id].live) then next == rooms
            else
              && RestKept(rooms, next, id, now)
              && next[id].domain == rooms[id].domain && next[id].secret == rooms[id].secret
              && next[id].collaborator == rooms[id].collaborator
              && next[id].checkedAt == rooms[id].checkedAt && next[id].activatedAt == rooms[id].activatedAt
              && next[id].status == (if patch.status.Some? then patch.status.value else rooms[id].status)
              && next[id].history == (if patch.history.Some? then patch.history.value else rooms[id].history)
              && next[id].branding == (if patch.branding.Some? then patch.branding.value else rooms[id].branding)
  {
  }
}

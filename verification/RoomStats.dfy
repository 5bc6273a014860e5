/** The per-room totals: actions, visitors, visits, and actions by kind. */
module RoomStats {
  import opened Charts
  import opened Instants
  import opened Prelude
  import opened VisitLaws
  import opened Visits

  const OTHER := "other"
  const ACTION_KINDS := ["view", "download", "comment", OTHER]

  datatype Stats = Stats(actions: nat, visitors: nat, totalVisits: nat, viewSeconds: real, byKind: map<string, nat>,
                         last: Option<int>, daysSince: Option<nat>)

  function KindOf(e: Event): string {
    if e.kind == "" then OTHER else e.kind
  }

  function OfKind(events: seq<Event>, kind: string): nat {
    if events == [] then 0
    else OfKind(events[..|events| - 1], kind) + if KindOf(events[|events| - 1]) == kind then 1 else 0
  }

  /** The sum of the values of a map. */
  ghost function Sum(m: map<string, nat>): nat
    decreases |m|
  {
    if m == map[] then 0
    else
      var k :| k in m;
      m[k] + Sum(m - {k})
  }

  lemma {:induction false} SumWithout(m: map<string, nat>, k: string)
    requires k in m
    ensures Sum(m) == m[k] + Sum(m - {k})
    decreases |m|
  {
    var j :| j in m && Sum(m) == m[j] + Sum(m - {j});
    if j != k {
      SumWithout(m - {j}, k);
      SumWithout(m - {k}, j);
      assert m - {j} - {k} == m - {k} - {j};
    }
  }

  lemma SumAdd(m: map<string, nat>, k: string, n: nat)
    ensures Sum(m[k := (if k in m then m[k] else 0) + n]) == Sum(m) + n
  {
    var added := m[k := (if k in m then m[k] else 0) + n];
    SumWithout(added, k);
    assert added - {k} == m - {k};
    if k in m {
      SumWithout(m, k);
    } else {
      assert m - {k} == m;
    }
  }

  /** Actions per kind, in one pass; a kind nobody declared gets its own entry. */
  method CountKinds(events: seq<Event>) returns (byKind: map<string, nat>)
    ensures forall k :: k in ACTION_KINDS ==> k in byKind
    ensures forall k :: OfKind(events, k) == if k in byKind then byKind[k] else 0
    ensures Sum(byKind) == |events|
  {
    byKind := map["view" := 0, "download" := 0, "comment" := 0, OTHER := 0];
    assert Sum(byKind) == 0 by {
      SumAdd(map[], "view", 0);
      SumAdd(map["view" := 0], "download", 0);
      SumAdd(map["view" := 0, "download" := 0], "comment", 0);
      SumAdd(map["view" := 0, "download" := 0, "comment" := 0], OTHER, 0);
    }
    for i := 0 to |events|
      invariant forall k :: k in ACTION_KINDS ==> k in byKind
      invariant forall k :: OfKind(events[..i], k) == if k in byKind then byKind[k] else 0
      invariant Sum(byKind) == i
    {
      assert events[..i + 1][..i] == events[..i];
      var kind := KindOf(events[i]);
      SumAdd(byKind, kind, 1);
      byKind := byKind[kind := (if kind in byKind then byKind[kind] else 0) + 1];
    }
    assert events[..|events|] == events;
  }

  /** The latest instant any event carries. */
  function LatestAt(events: seq<Event>): Option<int> {
    if events == [] then None
    else
      var rest, at := LatestAt(events[..|events| - 1]), events[|events| - 1].at;
      if at.None? then rest
      else if rest.None? || rest.value < at.value then at
      else rest
  }

  /** The time spent over some events. */
  function Seconds(events: seq<Event>): real {
    if events == [] then 0.0 else Seconds(events[..|events| - 1]) + events[|events| - 1].seconds
  }

  /** Nearest thousandth, ties to even. */
  function RoundMillis(x: real): real {
    var low := (x * 1000.0).Floor;
    var rest := x * 1000.0 - low as real;
    (if rest < 0.5 || (rest == 0.5 && low % 2 == 0) then low else low + 1) as real / 1000.0
  }

  /** The totals of a room's records, apart from the count by kind. */
  predicate Totals(events: seq<Event>, visits: seq<seq<Event>>, now: int, s: Stats) {
    && s.actions == |events|
    && s.visitors == |People(events)|
    && s.totalVisits == |visits|
    && s.viewSeconds == RoundMillis(Seconds(events))
    && s.last == LatestAt(events)
    && s.daysSince == if s.last.None? then None else Some(WholeDays(now - s.last.value))
  }

  ghost predicate StatsOf(events: seq<Event>, visits: seq<seq<Event>>, now: int, s: Stats) {
    && Totals(events, visits, now, s)
    && (forall k :: OfKind(events, k) == if k in s.byKind then s.byKind[k] else 0)
    && Sum(s.byKind) == |events|
  }

  method RoomTotals(events: seq<Event>, visits: seq<seq<Event>>, now: int) returns (s: Stats)
    ensures StatsOf(events, visits, now, s)
  {
    var byKind := CountKinds(events);
    var last: Option<int> := None;
    var seconds := 0.0;
    for i := 0 to |events|
      invariant last == LatestAt(events[..i]) && seconds == Seconds(events[..i])
    {
      assert events[..i + 1][..i] == events[..i];
      seconds := seconds + events[i].seconds;
      var at := events[i].at;
      if at.Some? && (last.None? || last.value < at.value) {
        last := at;
      }
    }
    assert events[..|events|] == events;
    s := Stats(|events|, |People(events)|, |visits|, RoundMillis(seconds), byKind, last,
               if last.None? then None else Some(WholeDays(now - last.value)));
  }

  /** The person each visit belongs to. */
  function VisitPeople(visits: seq<seq<Event>>): seq<string>
    requires forall i :: 0 <= i < |visits| ==> visits[i] != []
  {
    seq(|visits|, i requires 0 <= i < |visits| => PersonOf(visits[i][0]))
  }

  lemma {:induction false} FlattenAtLeast<T>(ss: seq<seq<T>>)
    requires forall i :: 0 <= i < |ss| ==> ss[i] != []
    ensures |ss| <= |Flatten(ss)|
  {
    if ss != [] {
      FlattenAtLeast(ss[..|ss| - 1]);
    }
  }

  /** Nobody visits less than once, no visit is without an action, and every action has a kind. */
  lemma StatsAreOrdered(events: seq<Event>, minutes: Option<int>, now: int, s: Stats)
    requires StatsOf(events, VisitList(events, Gap(minutes)), now, s)
    ensures s.visitors <= s.totalVisits <= s.actions == Sum(s.byKind)
    ensures s.visitors == 0 <==> s.actions == 0
  {
    SessionsAreCanonical(events, minutes);
    SessionsOrder(events, Gap(minutes), VisitList(events, Gap(minutes)));
    if events != [] { assert PersonOf(events[0]) in People(events); }
  }

  lemma SessionsOrder(events: seq<Event>, gap: int, visits: seq<seq<Event>>)
    requires Sessions(events, gap, visits)
    ensures |People(events)| <= |visits| <= |events|
  {
    FlattenAtLeast(visits);
    assert |events| == |multiset(events)| == |multiset(Flatten(visits))| == |Flatten(visits)|;
    var people := VisitPeople(visits);
    var faces := set p | p in people;
    ImageSize(people);
    forall p | p in People(events) ensures p in faces {
      var e :| e in events && PersonOf(e) == p;
      assert SameVisit(visits, e, e);
      var i :| 0 <= i < |visits| && e in visits[i];
      assert VisitorOf(e) == VisitorOf(visits[i][0]);
      assert people[i] == p;
    }
    SubsetSize(People(events), faces);
  }

  lemma OneMorePerson(people: set<string>, all: set<string>, p: string)
    requires all == people + {p}
    ensures |people| <= |all| <= |people| + 1
  {
    SubsetSize(people, all);
    if p in people { assert all == people; }
  }

  lemma PeopleOfMore(events: seq<Event>, e: Event)
    ensures People(events + [e]) == People(events) + {PersonOf(e)}
  {
    forall x | x in People(events) ensures x in People(events + [e]) {
      var y :| y in events && PersonOf(y) == x;
      assert y in events + [e];
    }
    assert e in events + [e];
  }

  lemma MorePeople(events: seq<Event>, e: Event)
    ensures |People(events)| <= |People(events + [e])| <= |People(events)| + 1
    ensures events != [] ==> |People(events)| >= 1
  {
    PeopleOfMore(events, e);
    OneMorePerson(People(events), People(events + [e]), PersonOf(e));
    if events != [] {
      assert PersonOf(events[0]) in People(events);
    }
  }

  lemma LatestOfMore(events: seq<Event>, e: Event, now: int)
    requires e.at == Some(now)
    ensures LatestAt(events + [e]).Some? && LatestAt(events + [e]).value >= now
  {
    assert (events + [e])[..|events|] == events;
  }

  /** The totals with one more record, made now: an action more, a visitor more at most, and no day since. */
  lemma OneMoreRecord(events: seq<Event>, e: Event, visits: seq<seq<Event>>, more: seq<seq<Event>>, now: int, s: Stats,
                      t: Stats)
    requires e.at == Some(now) && Totals(events, visits, now, s) && Totals(events + [e], more, now, t)
    ensures t.actions == s.actions + 1 && s.visitors <= t.visitors <= s.visitors + 1 && t.daysSince == Some(0)
    ensures events != [] ==> s.visitors >= 1
  {
    MorePeople(events, e);
    LatestOfMore(events, e, now);
  }

  // ------------------------------------------------------------------------
  // Time is conserved
  // ------------------------------------------------------------------------

  lemma {:induction false} SecondsConcat(a: seq<Event>, b: seq<Event>)
    ensures Seconds(a + b) == Seconds(a) + Seconds(b)
  {
    if b == [] {
      assert a + b == a;
    } else {
      SecondsConcat(a, b[..|b| - 1]);
      assert (a + b)[..|a + b| - 1] == a + b[..|b| - 1];
    }
  }

  lemma SecondsAround(p: seq<Event>, e: Event, q: seq<Event>)
    ensures Seconds(p + [e] + q) == Seconds(p + q) + e.seconds
  {
    SecondsConcat(p + [e], q);
    SecondsConcat(p, q);
    assert (p + [e])[..|p|] == p;
  }

  /** The order of the events does not matter. */
  lemma {:induction false} SecondsOfBag(a: seq<Event>, b: seq<Event>)
    requires multiset(a) == multiset(b)
    ensures Seconds(a) == Seconds(b)
  {
    if a == [] {
      assert b == [] by { assert |multiset(b)| == 0; }
    } else {
      var init, e := a[..|a| - 1], a[|a| - 1];
      assert a == init + [e];
      assert e in multiset(b);
      var i :| 0 <= i < |b| && b[i] == e;
      var p, q := b[..i], b[i + 1..];
      assert b == p + [e] + q;
      SameRest(init, e, p, q);
      SecondsOfBag(init, p + q);
      SecondsAround(p, e, q);
    }
  }

  function SecondsOfVisits(visits: seq<seq<Event>>): real {
    if visits == [] then 0.0 else SecondsOfVisits(visits[..|visits| - 1]) + Seconds(visits[|visits| - 1])
  }

  lemma {:induction false} SecondsFlatten(visits: seq<seq<Event>>)
    ensures Seconds(Flatten(visits)) == SecondsOfVisits(visits)
  {
    if visits != [] {
      SecondsFlatten(visits[..|visits| - 1]);
      SecondsConcat(Flatten(visits[..|visits| - 1]), visits[|visits| - 1]);
    }
  }

  /** The time shown for a room is the time of its visits, none lost and none counted twice. */
  lemma VisitTimeConserved(events: seq<Event>, minutes: Option<int>, now: int, s: Stats)
    requires StatsOf(events, VisitList(events, Gap(minutes)), now, s)
    ensures s.viewSeconds == RoundMillis(SecondsOfVisits(VisitList(events, Gap(minutes))))
  {
    SessionsPartition(events, Gap(minutes));
    SecondsOfBag(events, Flatten(VisitList(events, Gap(minutes))));
    SecondsFlatten(VisitList(events, Gap(minutes)));
  }
}

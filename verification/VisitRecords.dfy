/** What visits and charts say about the records themselves: their rooms, persons and instants. */
module VisitRecords {
  import opened ChartLaws
  import opened Charts
  import Instants
  import opened Prelude
  import opened RoomStats
  import opened VisitLaws
  import opened Visits

  const DAY_MICROS := 86_400_000_000

  // ------------------------------------------------------------------------
  // Who is who
  // ------------------------------------------------------------------------

  /** A record that names nobody. */
  predicate Nameless(person: string) {
    person == "" || person == "anonymous"
  }

  predicate SamePerson(a: Event, b: Event) {
    a.person == b.person || (Nameless(a.person) && Nameless(b.person))
  }

  lemma SameVisitorExactly(a: Event, b: Event)
    ensures VisitorOf(a) == VisitorOf(b) <==> a.room == b.room && SamePerson(a, b)
  {
  }

  /** The configured gap, in microseconds: half an hour if there is no number, a minute at least. */
  lemma GapExactly(minutes: Option<int>)
    ensures Gap(minutes) == 60_000_000 * (if minutes.None? then 30 else if minutes.value < 1 then 1 else minutes.value)
  {
  }

  /** No visit holds records of two rooms or of two persons; those that name nobody count as one. */
  lemma VisitOfOnePerson(events: seq<Event>, minutes: Option<int>, i: nat, a: Event, b: Event)
    requires i < |VisitList(events, Gap(minutes))|
    requires a in VisitList(events, Gap(minutes))[i] && b in VisitList(events, Gap(minutes))[i]
    ensures a.room == b.room && SamePerson(a, b)
  {
    SessionsAreCanonical(events, minutes);
    SameVisitorExactly(a, b);
  }

  // ------------------------------------------------------------------------
  // When two records share a visit
  // ------------------------------------------------------------------------

  /** A record of the same room and person dated strictly between. */
  predicate Between(e: Event, a: Event, b: Event) {
    e.room == a.room && SamePerson(e, a) && e.at.Some? && a.at.Some? && b.at.Some?
      && a.at.value < e.at.value < b.at.value
  }

  lemma {:induction false} CannotJump(events: seq<Event>, a: Event, b: Event, path: seq<Event>, gap: int, t: nat)
    requires a.at.Some? && b.at.Some? && b.at.value - a.at.value > gap && Chain(events, VisitorOf(a), path, gap)
    requires path[0].at == a.at && t < |path| && forall e :: e in events ==> !Between(e, a, b)
    ensures path[t].at.value <= a.at.value
  {
    if t > 0 {
      CannotJump(events, a, b, path, gap, t - 1);
      SameVisitorExactly(path[t], a);
      assert !Between(path[t], a, b);
      assert Near(path[t - 1], path[t], gap);
    }
  }

  lemma NeighboursLinked(events: seq<Event>, a: Event, b: Event, gap: int)
    requires a in events && b in events && VisitorOf(a) == VisitorOf(b) && gap > 0
    requires a.at.Some? && b.at.Some? && a.at.value <= b.at.value && forall e :: e in events ==> !Between(e, a, b)
    ensures Linked(events, a, b, gap) <==> b.at.value - a.at.value <= gap
  {
    if b.at.value - a.at.value <= gap {
      assert Chain(events, VisitorOf(a), [a, b], gap);
    } else if Linked(events, a, b, gap) {
      var path :| Chain(events, VisitorOf(a), path, gap) && path[0] == a && path[|path| - 1] == b;
      CannotJump(events, a, b, path, gap, |path| - 1);
      assert false;
    }
  }

  lemma SharedIffJoined(events: seq<Event>, gap: int, visits: seq<seq<Event>>, a: Event, b: Event)
    requires Sessions(events, gap, visits) && a in events && b in events
    ensures SameVisit(visits, a, b) <==> Joined(events, a, b, gap)
  {
    assert SameVisit(visits, a, a) && SameVisit(visits, b, b);
    var i :| 0 <= i < |visits| && a in visits[i];
    var j :| 0 <= j < |visits| && b in visits[j];
    assert i == j <==> Joined(events, a, b, gap);
    if SameVisit(visits, a, b) {
      var k :| 0 <= k < |visits| && a in visits[k] && b in visits[k];
      assert k == k <==> Joined(events, a, b, gap);
    }
  }

  /**
   Two dated records of one room and person with none of theirs in between share a
   visit exactly if they are at most the configured minutes apart.
   */
  lemma NeighboursShareExactly(events: seq<Event>, minutes: Option<int>, a: Event, b: Event)
    requires a in events && b in events && a.room == b.room && SamePerson(a, b)
    requires a.at.Some? && b.at.Some? && a.at.value <= b.at.value && forall e :: e in events ==> !Between(e, a, b)
    ensures SameVisit(VisitList(events, Gap(minutes)), a, b) <==>
            b.at.value - a.at.value
            <= 60_000_000 * (if minutes.None? then 30 else if minutes.value < 1 then 1 else minutes.value)
  {
    SameVisitorExactly(a, b);
    GapExactly(minutes);
    SessionsAreCanonical(events, minutes);
    SharedIffJoined(events, Gap(minutes), VisitList(events, Gap(minutes)), a, b);
    NeighboursLinked(events, a, b, Gap(minutes));
  }

  /** Records of one room and person of which neither is dated always share a visit; of two rooms or persons, never. */
  lemma UndatedShareExactly(events: seq<Event>, minutes: Option<int>, a: Event, b: Event)
    requires a in events && b in events && a.at.None? && b.at.None?
    ensures SameVisit(VisitList(events, Gap(minutes)), a, b) <==> a.room == b.room && SamePerson(a, b)
  {
    SameVisitorExactly(a, b);
    SessionsAreCanonical(events, minutes);
    SharedIffJoined(events, Gap(minutes), VisitList(events, Gap(minutes)), a, b);
  }

  // ------------------------------------------------------------------------
  // How many people
  // ------------------------------------------------------------------------

  /** The names on the records. */
  function Names(events: seq<Event>): set<string> {
    set e | e in events && !Nameless(e.person) :: e.person
  }

  /** Everybody named counts once, and all who are not named count as one. */
  lemma PeopleExactly(events: seq<Event>)
    ensures |People(events)| == |Names(events)| + (if exists e :: e in events && Nameless(e.person) then 1 else 0)
  {
    forall x ensures x in People(events)
      <==> x in Names(events) || (x == ANONYMOUS && exists e :: e in events && Nameless(e.person)) {
      if e :| e in events && PersonOf(e) == x { assert Nameless(e.person) || x in Names(events); }
      if e :| e in events && Nameless(e.person) { assert PersonOf(e) == ANONYMOUS; }
      if x in Names(events) {
        var e :| e in events && !Nameless(e.person) && e.person == x;
        assert PersonOf(e) == x;
      }
    }
    assert ANONYMOUS !in Names(events);
    if exists e :: e in events && Nameless(e.person) {
      assert People(events) == Names(events) + {ANONYMOUS};
    } else {
      assert People(events) == Names(events);
    }
  }

  // ------------------------------------------------------------------------
  // What the charts count
  // ------------------------------------------------------------------------

  /** The records dated from `low` to `high`, both included. */
  function Dated(events: seq<Event>, low: int, high: int): seq<Event> {
    if events == [] then []
    else
      var init, e := Dated(events[..|events| - 1], low, high), events[|events| - 1];
      if e.at.Some? && low <= e.at.value <= high then init + [e] else init
  }

  /** The visits that have a dated record from `low` to `high` and none before `low`. */
  function Begun(visits: seq<seq<Event>>, low: int, high: int): seq<seq<Event>> {
    if visits == [] then []
    else
      var init, visit := Begun(visits[..|visits| - 1], low, high), visits[|visits| - 1];
      if Begins(visit, low, high) then init + [visit] else init
  }

  predicate Begins(visit: seq<Event>, low: int, high: int) {
    && (exists e :: e in visit && e.at.Some? && e.at.value <= high)
    && (forall e :: e in visit && e.at.Some? ==> low <= e.at.value)
  }

  lemma {:induction false} EarliestExactly(visit: seq<Event>)
    ensures Earliest(visit).None? <==> forall e :: e in visit ==> e.at.None?
    ensures Earliest(visit).Some? ==>
              && (exists e :: e in visit && e.at == Earliest(visit))
              && (forall e :: e in visit && e.at.Some? ==> Earliest(visit).value <= e.at.value)
  {
    if visit != [] {
      var init, last := visit[..|visit| - 1], visit[|visit| - 1];
      EarliestExactly(init);
      assert visit == init + [last];
      assert last in visit && forall e :: e in visit <==> e in init || e == last;
    }
  }

  lemma BeginsExactly(visit: seq<Event>, low: int, high: int)
    ensures Begins(visit, low, high) <==> Earliest(visit).Some? && low <= Earliest(visit).value <= high
  {
    EarliestExactly(visit);
  }

  lemma {:induction false} WindowDated(events: seq<Event>, w: Window)
    ensures InWindow(events, w) == Dated(events, w.start, w.end)
  {
    if events != [] {
      WindowDated(events[..|events| - 1], w);
    }
  }

  lemma {:induction false} WindowBegun(visits: seq<seq<Event>>, w: Window)
    ensures StartingIn(visits, w) == Begun(visits, w.start, w.end)
  {
    if visits != [] {
      WindowBegun(visits[..|visits| - 1], w);
      BeginsExactly(visits[|visits| - 1], w.start, w.end);
    }
  }

  /** The first instant of a chart: as many days back as asked, and one at least. */
  function ChartStart(now: int, days: int): int {
    now - (if days < 1 then 1 else days) * DAY_MICROS
  }

  /** The actions of the engagement chart are the records of the last days, up to now. */
  lemma EngagementTotal(events: seq<Event>, now: int, days: int, grain: Grain, points: seq<Point>)
    requires RecentPoints(events, ChartWindow(now, days, grain), points)
    ensures SumActions(points) == |Dated(events, ChartStart(now, days), now)|
  {
    EngagementConserves(events, ChartWindow(now, days, grain), points);
    WindowDated(events, ChartWindow(now, days, grain));
  }

  /** The visits of the frequency chart are those begun in the last days, up to now; their actions, all they hold. */
  lemma FrequencyTotal(events: seq<Event>, minutes: Option<int>, now: int, days: int, grain: Grain, points: seq<Point>)
    requires FrequencyPoints(VisitList(events, Gap(minutes)), ChartWindow(now, days, grain), points)
    ensures var begun := Begun(VisitList(events, Gap(minutes)), ChartStart(now, days), now);
            SumVisits(points) == |begun| && SumActions(points) == |Flatten(begun)|
  {
    var w := ChartWindow(now, days, grain);
    assert w.start == ChartStart(now, days) && w.end == now;
    WindowTotal(events, minutes, w, points);
  }

  lemma WindowTotal(events: seq<Event>, minutes: Option<int>, w: Window, points: seq<Point>)
    requires FrequencyPoints(VisitList(events, Gap(minutes)), w, points)
    ensures var begun := Begun(VisitList(events, Gap(minutes)), w.start, w.end);
            SumVisits(points) == |begun| && SumActions(points) == |Flatten(begun)|
  {
    FrequencyConserves(events, minutes, w, points);
    BegunInstead(VisitList(events, Gap(minutes)), w, SumVisits(points), SumActions(points));
  }

  lemma BegunInstead(visits: seq<seq<Event>>, w: Window, count: nat, actions: nat)
    requires count == |StartingIn(visits, w)| && actions == |Flatten(StartingIn(visits, w))|
    ensures count == |Begun(visits, w.start, w.end)| && actions == |Flatten(Begun(visits, w.start, w.end))|
  {
    WindowBegun(visits, w);
  }

  /** How long a point lasts: a day or seven. */
  function Span(grain: Grain): int {
    if grain.Week? then 7 * DAY_MICROS else DAY_MICROS
  }

  lemma BucketSpan(at: int, key: int, grain: Grain)
    requires key % Span(grain) == 0
    ensures BucketStart(at, grain) == key <==> key <= at < key + Span(grain)
  {
    BucketIsIndex(at, grain);
    var step := Span(grain);
    assert Step(grain) == step;
    assert at == at / step * step + at % step && key == key / step * step;
    if key <= at < key + step {
      assert at / step == key / step;
    }
  }

  lemma {:induction false} BucketDated(events: seq<Event>, w: Window, key: int)
    requires key % Span(w.grain) == 0
    ensures InBucket(events, w, key) == Dated(events, Max(w.start, key), Min(w.end, key + Span(w.grain) - 1))
  {
    if events != [] {
      BucketDated(events[..|events| - 1], w, key);
      var e := events[|events| - 1];
      if e.at.Some? { BucketSpan(e.at.value, key, w.grain); }
    }
  }

  lemma GridOnSpan(points: seq<Point>, w: Window, i: nat)
    requires OnGrid(points, w) && i < |points|
    ensures points[i].bucket % Span(w.grain) == 0
  {
    GridPlace(points, w, i);
    assert Step(w.grain) == Span(w.grain);
    MultipleOf(w.start / Step(w.grain) + i, w.grain);
  }

  lemma MultipleOf(n: int, grain: Grain)
    ensures n * Span(grain) % Span(grain) == 0
  {
    if grain.Week? {
      assert n * 604_800_000_000 % 604_800_000_000 == 0;
    } else {
      assert n * 86_400_000_000 % 86_400_000_000 == 0;
    }
  }

  /**
   Each point of the engagement chart starts at midnight UTC, of a Monday for weeks,
   and counts the records of its day or week that the window holds, and the people on
   them.
   */
  lemma EngagementPointExactly(events: seq<Event>, now: int, days: int, grain: Grain, points: seq<Point>, i: nat)
    requires RecentPoints(events, ChartWindow(now, days, grain), points) && i < |points|
    ensures var p := points[i];
            var counted := Dated(events, Max(ChartStart(now, days), p.bucket), Min(now, p.bucket + Span(grain) - 1));
            && p.bucket % Span(grain) == 0
            && p.tally.actions == |counted|
            && p.tally.visitors == |Names(counted)| + (if exists e :: e in counted && Nameless(e.person) then 1 else 0)
  {
    var w := ChartWindow(now, days, grain);
    assert points[i] in points;
    GridOnSpan(points, w, i);
    EngagementPoint(events, w, points, points[i]);
    BucketDated(events, w, points[i].bucket);
    PeopleExactly(InBucket(events, w, points[i].bucket));
  }

  // ------------------------------------------------------------------------
  // A room's totals
  // ------------------------------------------------------------------------

  lemma {:induction false} LatestExactly(events: seq<Event>)
    ensures LatestAt(events).None? <==> forall e :: e in events ==> e.at.None?
    ensures LatestAt(events).Some? ==>
              && (exists e :: e in events && e.at == LatestAt(events))
              && (forall e :: e in events && e.at.Some? ==> e.at.value <= LatestAt(events).value)
  {
    if events != [] {
      var init, last := events[..|events| - 1], events[|events| - 1];
      LatestExactly(init);
      assert events == init + [last];
      assert last in events && forall e :: e in events <==> e in init || e == last;
    }
  }

  /** The records of a kind; one that says none is of the kind "other". */
  function OfThisKind(events: seq<Event>, kind: string): seq<Event> {
    if events == [] then []
    else
      var init, e := OfThisKind(events[..|events| - 1], kind), events[|events| - 1];
      if e.kind == kind || (e.kind == "" && kind == "other") then init + [e] else init
  }

  lemma {:induction false} KindsExactly(events: seq<Event>, kind: string)
    requires kind != ""
    ensures OfKind(events, kind) == |OfThisKind(events, kind)|
  {
    if events != [] {
      KindsExactly(events[..|events| - 1], kind);
    }
  }

  /** The totals of a room, in terms of its records. */
  lemma TotalsExactly(events: seq<Event>, visits: seq<seq<Event>>, now: int, s: Stats)
    requires StatsOf(events, visits, now, s)
    ensures s.actions == |events| && s.totalVisits == |visits|
    ensures s.visitors == |Names(events)| + (if exists e :: e in events && Nameless(e.person) then 1 else 0)
    ensures forall kind :: kind in s.byKind && kind != "" ==> s.byKind[kind] == |OfThisKind(events, kind)|
    ensures s.last.None? <==> s.daysSince.None?
    ensures s.last.None? <==> forall e :: e in events ==> e.at.None?
    ensures s.last.Some? ==>
              && (exists e :: e in events && e.at == s.last)
                && (forall e :: e in events && e.at.Some? ==> e.at.value <= s.last.value)
              && (now >= s.last.value ==>
                    s.daysSince.value * DAY_MICROS <= now - s.last.value < (s.daysSince.value + 1) * DAY_MICROS)
              && (now < s.last.value ==> s.daysSince.value == 0)
    ensures -0.0005 <= s.viewSeconds - Seconds(events) <= 0.0005
  {
    PeopleExactly(events);
    LatestExactly(events);
    forall kind | kind in s.byKind && kind != "" ensures s.byKind[kind] == |OfThisKind(events, kind)| {
      KindsExactly(events, kind);
    }
    if s.last.Some? { DaysExactly(now - s.last.value); }
    MillisExactly(Seconds(events));
  }

  lemma DaysExactly(delta: int)
    ensures delta >= 0 ==>
            Instants.WholeDays(delta) * DAY_MICROS <= delta < (Instants.WholeDays(delta) + 1) * DAY_MICROS
    ensures delta < 0 ==> Instants.WholeDays(delta) == 0
  {
  }

  lemma MillisExactly(x: real)
    ensures -0.0005 <= RoundMillis(x) - x <= 0.0005
  {
    var low := (x * 1000.0).Floor;
    assert low as real <= x * 1000.0 < (low + 1) as real;
    assert RoundMillis(x) == low as real / 1000.0 || RoundMillis(x) == (low + 1) as real / 1000.0;
  }
}

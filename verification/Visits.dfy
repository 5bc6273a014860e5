/**
 Sessionisation of buyer activity.

 An activity record may carry no usable timestamp, in which case `at` is None.
 */
module Visits {
  import opened Instants
  import opened Prelude

  datatype Event =
    Event(id: string, room: Option<string>, person: string, kind: string, at: Option<int>, seconds: real)

  /** The key events are grouped by. */
  datatype Visitor = Visitor(room: Option<string>, person: string)

  const ANONYMOUS := "anonymous"
  const DEFAULT_GAP_MINUTES := 30

  function PersonOf(e: Event): string {
    if e.person == "" then ANONYMOUS else e.person
  }

  function VisitorOf(e: Event): Visitor {
    Visitor(e.room, PersonOf(e))
  }

  /** The configured gap; None stands for a value that is not a number. */
  function Gap(minutes: Option<int>): int {
    Max(1, if minutes.Some? then minutes.value else DEFAULT_GAP_MINUTES) * MINUTE
  }

  // ------------------------------------------------------------------------
  // What the method below computes
  // ------------------------------------------------------------------------

  /** The sort key: dated events by instant, undated ones after them all. */
  predicate NotAfter(a: Event, b: Event) {
    b.at.None? || (a.at.Some? && a.at.value <= b.at.value)
  }

  predicate Sorted(s: seq<Event>) {
    forall i, j :: 0 <= i < j < |s| ==> NotAfter(s[i], s[j])
  }

  function Insert(s: seq<Event>, e: Event): (r: seq<Event>)
    ensures multiset(r) == multiset(s) + multiset{e}
  {
    if s == [] then
      [e]
    else
      var init, last := s[..|s| - 1], s[|s| - 1];
      assert s == init + [last];
      if NotAfter(last, e) then s + [e] else Insert(init, e) + [last]
  }

  lemma {:induction false} InsertSorted(s: seq<Event>, e: Event)
    requires Sorted(s)
    ensures Sorted(Insert(s, e))
  {
    if s != [] && !NotAfter(s[|s| - 1], e) {
      var init, last := s[..|s| - 1], s[|s| - 1];
      InsertSorted(init, e);
      var r := Insert(init, e);
      forall i | 0 <= i < |r| ensures NotAfter(r[i], last) {
        assert r[i] in multiset(r);
        assert r[i] == e || r[i] in init;
      }
      assert Insert(s, e) == r + [last];
    }
  }

  /** A stable sort: an event never overtakes one that is not after it. */
  function SortByTime(s: seq<Event>): (r: seq<Event>)
    ensures multiset(r) == multiset(s)
    ensures Sorted(r)
  {
    if s == [] then
      []
    else
      assert s == s[..|s| - 1] + [s[|s| - 1]];
      InsertSorted(SortByTime(s[..|s| - 1]), s[|s| - 1]);
      Insert(SortByTime(s[..|s| - 1]), s[|s| - 1])
  }

  function LastDated(o: seq<Event>): Option<int> {
    if o == [] then None
    else if o[|o| - 1].at.Some? then o[|o| - 1].at
    else LastDated(o[..|o| - 1])
  }

  predicate Breaks(previous: Option<int>, e: Event, gap: int) {
    previous.Some? && e.at.Some? && e.at.value - previous.value > gap
  }

  /** Cut a visitor's ordered events wherever the gap is exceeded. */
  function Split(o: seq<Event>, gap: int): seq<seq<Event>> {
    if o == [] then
      []
    else
      var before, e := o[..|o| - 1], o[|o| - 1];
      var runs := Split(before, gap);
      if runs == [] then [[e]]
      else if Breaks(LastDated(before), e, gap) then runs + [[e]]
      else runs[..|runs| - 1] + [runs[|runs| - 1] + [e]]
  }

  /** One visitor's events, in input order. */
  function Of(events: seq<Event>, v: Visitor): seq<Event> {
    if events == [] then
      []
    else
      var init, e := events[..|events| - 1], events[|events| - 1];
      if VisitorOf(e) == v then Of(init, v) + [e] else Of(init, v)
  }

  /** The distinct visitors, in order of first appearance. */
  function Visitors(events: seq<Event>): seq<Visitor> {
    if events == [] then
      []
    else
      var r := Visitors(events[..|events| - 1]);
      var v := VisitorOf(events[|events| - 1]);
      if v in r then r else r + [v]
  }

  lemma {:induction false} OfHolds(events: seq<Event>, v: Visitor)
    ensures forall x :: x in Of(events, v) <==> x in events && VisitorOf(x) == v
    ensures forall x :: VisitorOf(x) == v ==> multiset(Of(events, v))[x] == multiset(events)[x]
  {
    if events != [] {
      OfHolds(events[..|events| - 1], v);
      assert events == events[..|events| - 1] + [events[|events| - 1]];
    }
  }

  lemma {:induction false} VisitorsHolds(events: seq<Event>)
    ensures forall x :: x in events ==> VisitorOf(x) in Visitors(events)
    ensures forall v :: v in Visitors(events) <==> Of(events, v) != []
    ensures forall i, j :: 0 <= i < j < |Visitors(events)| ==> Visitors(events)[i] != Visitors(events)[j]
  {
    if events != [] {
      VisitorsHolds(events[..|events| - 1]);
      assert events == events[..|events| - 1] + [events[|events| - 1]];
    }
  }

  function VisitsOf(events: seq<Event>, vs: seq<Visitor>, gap: int): seq<seq<Event>> {
    if vs == [] then
      []
    else
      VisitsOf(events, vs[..|vs| - 1], gap) + Split(SortByTime(Of(events, vs[|vs| - 1])), gap)
  }

  function VisitList(events: seq<Event>, gap: int): seq<seq<Event>> {
    VisitsOf(events, Visitors(events), gap)
  }

  /** The events of each visitor, and the visitors in order of first appearance. */
  method GroupByVisitor(events: seq<Event>) returns (order: seq<Visitor>, byVisitor: map<Visitor, seq<Event>>)
    ensures order == Visitors(events)
    ensures forall v :: v in order <==> v in byVisitor
    ensures forall v :: v in byVisitor ==> byVisitor[v] == Of(events, v)
  {
    order, byVisitor := [], map[];
    for i := 0 to |events|
      invariant order == Visitors(events[..i])
      invariant forall v :: v in order <==> v in byVisitor
      invariant forall v :: v in byVisitor ==> byVisitor[v] == Of(events[..i], v)
    {
      var e, v := events[i], VisitorOf(events[i]);
      assert events[..i + 1][..i] == events[..i];
      if v !in byVisitor {
        assert Of(events[..i], v) == [] by {
          VisitorsHolds(events[..i]);
        }
        order, byVisitor := order + [v], byVisitor[v := []];
      }
      byVisitor := byVisitor[v := byVisitor[v] + [e]];
    }
    assert events[..|events|] == events;
  }

  lemma {:induction false} SplitNonEmpty(o: seq<Event>, gap: int)
    ensures Split(o, gap) == [] <==> o == []
  {
  }

  /** Cut one visitor's ordered events into visits, in one pass. */
  method CutAtGaps(ordered: seq<Event>, gap: int) returns (visits: seq<seq<Event>>)
    ensures visits == Split(ordered, gap)
  {
    visits := [];
    var current: seq<Event>, previous: Option<int> := [], None;
    for k := 0 to |ordered|
      invariant previous == LastDated(ordered[..k])
      invariant current == [] <==> k == 0
      invariant Split(ordered[..k], gap) == if k == 0 then visits else visits + [current]
      invariant k == 0 ==> visits == []
    {
      var e := ordered[k];
      SplitNonEmpty(ordered[..k], gap);
      assert ordered[..k + 1][..k] == ordered[..k];
      assert k > 0 ==> (visits + [current])[..|visits|] == visits;
      if current != [] && Breaks(previous, e, gap) {
        visits := visits + [current];
        current := [];
      }
      assert current == [] ==> current + [e] == [e];
      current := current + [e];
      if e.at.Some? {
        previous := e.at;
      }
    }
    assert ordered[..|ordered|] == ordered;
    if current != [] {
      visits := visits + [current];
    }
  }

  /** Group events into sessions: one visit per visitor per gap window. */
  method CountVisits(events: seq<Event>, gapMinutes: Option<int>) returns (visits: seq<seq<Event>>)
    ensures visits == VisitList(events, Gap(gapMinutes))
  {
    var order, byVisitor := GroupByVisitor(events);
    visits := [];
    for j := 0 to |order|
      invariant visits == VisitsOf(events, order[..j], Gap(gapMinutes))
    {
      assert order[..j + 1][..j] == order[..j];
      var cut := CutAtGaps(SortByTime(byVisitor[order[j]]), Gap(gapMinutes));
      visits := visits + cut;
    }
    assert order[..|order|] == order;
  }
}

/** What the charts conserve. */
module ChartLaws {
  import opened Charts
  import opened Instants
  import opened Prelude
  import opened VisitLaws
  import opened Visits

  // ------------------------------------------------------------------------
  // The grid
  // ------------------------------------------------------------------------

  lemma {:induction false} GridPlace(points: seq<Point>, w: Window, i: nat)
    requires OnGrid(points, w) && i < |points|
    ensures points[i].bucket == (w.start / Step(w.grain) + i) * Step(w.grain)
  {
    BucketIsIndex(w.start, w.grain);
    if i > 0 {
      GridPlace(points, w, i - 1);
    }
  }

  lemma StepCancels(a: int, b: int, grain: Grain)
    requires a * Step(grain) == b * Step(grain)
    ensures a == b
  {
    assert grain == Week || grain == Day;
  }

  /** The chart has one point for each step from the first bucket to the last. */
  lemma GridSize(points: seq<Point>, w: Window)
    requires OnGrid(points, w)
    ensures |points| == w.end / Step(w.grain) - w.start / Step(w.grain) + 1
  {
    GridPlace(points, w, |points| - 1);
    BucketIsIndex(w.end, w.grain);
    StepCancels(w.start / Step(w.grain) + |points| - 1, w.end / Step(w.grain), w.grain);
  }

  /** A day chart over n days has exactly n + 1 points, whatever the time of day. */
  lemma DayChartSize(points: seq<Point>, now: int, days: int)
    requires OnGrid(points, ChartWindow(now, days, Day))
    ensures |points| == Max(1, days) + 1
  {
    GridSize(points, ChartWindow(now, days, Day));
    assert (now - Max(1, days) * DAY) / DAY == now / DAY - Max(1, days);
  }

  lemma GridIncreases(points: seq<Point>, w: Window, i: nat, j: nat)
    requires OnGrid(points, w) && i < j < |points|
    ensures points[i].bucket + Step(w.grain) <= points[j].bucket
  {
    GridPlace(points, w, i);
    GridPlace(points, w, j);
    var a := w.start / Step(w.grain);
    assert (a + j) * Step(w.grain) == (a + i) * Step(w.grain) + (j - i) * Step(w.grain);
    assert (j - i) * Step(w.grain) >= Step(w.grain);
  }

  lemma IndexMonotone(a: int, b: int, grain: Grain)
    requires a <= b
    ensures a / Step(grain) <= b / Step(grain)
  {
    assert grain == Week || grain == Day;
  }

  /** Every instant of the window is covered by a point. */
  lemma GridCovers(points: seq<Point>, w: Window, at: int) returns (i: nat)
    requires OnGrid(points, w) && w.start <= at <= w.end
    ensures i < |points| && points[i].bucket == BucketStart(at, w.grain)
  {
    IndexMonotone(w.start, at, w.grain);
    IndexMonotone(at, w.end, w.grain);
    GridSize(points, w);
    i := at / Step(w.grain) - w.start / Step(w.grain);
    GridPlace(points, w, i);
    BucketIsIndex(at, w.grain);
  }

  // ------------------------------------------------------------------------
  // Conservation
  // ------------------------------------------------------------------------

  function SumActions(points: seq<Point>): nat {
    if points == [] then 0 else points[0].tally.actions + SumActions(points[1..])
  }

  function SumVisits(points: seq<Point>): nat {
    if points == [] then 0 else points[0].tally.visits + SumVisits(points[1..])
  }

  function GridWeight(points: seq<Point>, marks: seq<Mark>): nat {
    if points == [] then 0 else WeightAt(marks, points[0].bucket) + GridWeight(points[1..], marks)
  }

  /** No two points stand for the same bucket. */
  ghost predicate Distinct(points: seq<Point>) {
    forall i, j :: 0 <= i < j < |points| ==> points[i].bucket != points[j].bucket
  }

  lemma {:induction false} GridWeightStep(points: seq<Point>, marks: seq<Mark>)
    requires Distinct(points) && marks != []
    ensures var last := marks[|marks| - 1];
            GridWeight(points, marks) == GridWeight(points, marks[..|marks| - 1])
            + if exists i :: 0 <= i < |points| && last.bucket == Some(points[i].bucket) then last.weight else 0
  {
    if points != [] {
      var last, rest := marks[|marks| - 1], points[1..];
      GridWeightStep(rest, marks);
      if last.bucket == Some(points[0].bucket) {
        assert !exists i :: 0 <= i < |rest| && last.bucket == Some(rest[i].bucket);
      } else if i :| 0 <= i < |points| && last.bucket == Some(points[i].bucket) {
        assert rest[i - 1] == points[i];
      } else {
        assert !exists i :: 0 <= i < |rest| && last.bucket == Some(rest[i].bucket);
      }
    }
  }

  /** When every marked bucket is on the chart, the chart weighs what was marked. */
  lemma {:induction false} GridConserves(points: seq<Point>, marks: seq<Mark>)
    requires Distinct(points)
    requires forall m :: m in marks && m.bucket.Some? ==>
             exists i :: 0 <= i < |points| && points[i].bucket == m.bucket.value
    ensures GridWeight(points, marks) == Weight(marks)
  {
    if marks == [] {
      GridWeightEmpty(points);
    } else {
      GridConserves(points, marks[..|marks| - 1]);
      GridWeightStep(points, marks);
      assert marks[|marks| - 1] in marks;
    }
  }

  lemma {:induction false} GridWeightEmpty(points: seq<Point>)
    ensures GridWeight(points, []) == 0
  {
    if points != [] {
      GridWeightEmpty(points[1..]);
    }
  }

  lemma GridDistinct(points: seq<Point>, w: Window)
    requires OnGrid(points, w)
    ensures Distinct(points)
  {
    forall i, j | 0 <= i < j < |points| ensures points[i].bucket != points[j].bucket {
      GridIncreases(points, w, i, j);
    }
  }

  /** Marks made by a window are all on its chart. */
  lemma ChartWeighs(points: seq<Point>, w: Window, marks: seq<Mark>)
    requires OnGrid(points, w)
    requires forall m :: m in marks ==> exists at :: m.bucket == w.Bucket(at)
    ensures GridWeight(points, marks) == Weight(marks)
  {
    GridDistinct(points, w);
    forall m | m in marks && m.bucket.Some?
      ensures exists i :: 0 <= i < |points| && points[i].bucket == m.bucket.value
    {
      var at :| m.bucket == w.Bucket(at);
      var i := GridCovers(points, w, at.value);
    }
    GridConserves(points, marks);
  }

  /** The events whose instant falls in the window. */
  function InWindow(events: seq<Event>, w: Window): seq<Event> {
    if events == [] then []
    else
      var init, e := events[..|events| - 1], events[|events| - 1];
      if w.Holds(e.at) then InWindow(init, w) + [e] else InWindow(init, w)
  }

  /** The visits whose earliest instant falls in the window. */
  function StartingIn(visits: seq<seq<Event>>, w: Window): seq<seq<Event>> {
    if visits == [] then []
    else
      var init, visit := visits[..|visits| - 1], visits[|visits| - 1];
      if w.Holds(Earliest(visit)) then StartingIn(init, w) + [visit] else StartingIn(init, w)
  }

  lemma {:induction false} EventsWeigh(events: seq<Event>, w: Window)
    ensures Weight(EventMarks(events, w)) == |InWindow(events, w)|
  {
    if events != [] {
      EventsWeigh(events[..|events| - 1], w);
      assert EventMarks(events, w)[..|events| - 1] == EventMarks(events[..|events| - 1], w);
    }
  }

  lemma VisitMarksGrow(visits: seq<seq<Event>>, w: Window)
    requires visits != []
    ensures VisitMarks(visits, w)[..|visits| - 1] == VisitMarks(visits[..|visits| - 1], w)
    ensures VisitSizeMarks(visits, w)[..|visits| - 1] == VisitSizeMarks(visits[..|visits| - 1], w)
  {
  }

  lemma {:induction false} VisitsWeigh(visits: seq<seq<Event>>, w: Window)
    ensures Weight(VisitMarks(visits, w)) == |StartingIn(visits, w)|
    ensures Weight(VisitSizeMarks(visits, w)) == |Flatten(StartingIn(visits, w))|
  {
    if visits != [] {
      var init := visits[..|visits| - 1];
      VisitsWeigh(init, w);
      VisitMarksGrow(visits, w);
    }
  }

  lemma {:induction false} BucketWeighs(events: seq<Event>, w: Window, key: int)
    ensures WeightAt(EventMarks(events, w), key) == |InBucket(events, w, key)|
  {
    if events != [] {
      BucketWeighs(events[..|events| - 1], w, key);
      assert EventMarks(events, w)[..|events| - 1] == EventMarks(events[..|events| - 1], w);
    }
  }

  lemma {:induction false} PeopleSize(events: seq<Event>)
    ensures |People(events)| <= |events|
  {
    if events != [] {
      var init, e := events[..|events| - 1], events[|events| - 1];
      PeopleSize(init);
      assert events == init + [e];
      assert People(events) == People(init) + {PersonOf(e)};
    }
  }

  lemma {:induction false} ActionsWeigh(points: seq<Point>, marks: seq<Mark>)
    requires forall p :: p in points ==> p.tally.actions == WeightAt(marks, p.bucket)
    ensures SumActions(points) == GridWeight(points, marks)
  {
    if points != [] {
      ActionsWeigh(points[1..], marks);
    }
  }

  lemma {:induction false} StartsWeigh(points: seq<Point>, marks: seq<Mark>)
    requires forall p :: p in points ==> p.tally.visits == WeightAt(marks, p.bucket)
    ensures SumVisits(points) == GridWeight(points, marks)
  {
    if points != [] {
      StartsWeigh(points[1..], marks);
    }
  }

  /** The span a point stands for. */
  predicate Covers(bucket: int, at: Option<int>, grain: Grain) {
    at.Some? && bucket <= at.value < bucket + Step(grain)
  }

  lemma BucketCovers(at: int, grain: Grain)
    ensures Covers(BucketStart(at, grain), Some(at), grain)
  {
    BucketIsIndex(at, grain);
    assert grain == Week || grain == Day;
  }

  lemma {:induction false} InBucketHolds(events: seq<Event>, w: Window, key: int)
    ensures forall e :: e in InBucket(events, w, key) <==> e in events && w.Bucket(e.at) == Some(key)
  {
    if events != [] {
      InBucketHolds(events[..|events| - 1], w, key);
      assert events == events[..|events| - 1] + [events[|events| - 1]];
    }
  }

  lemma EventMarksAreBuckets(events: seq<Event>, w: Window)
    ensures forall m :: m in EventMarks(events, w) ==> exists at :: m.bucket == w.Bucket(at)
  {
    forall m | m in EventMarks(events, w) ensures exists at :: m.bucket == w.Bucket(at) {
      var i :| 0 <= i < |events| && EventMarks(events, w)[i] == m;
      assert m.bucket == w.Bucket(events[i].at);
    }
  }

  /** Nothing is lost and nothing counted twice: the actions add up to the events in the window. */
  lemma EngagementConserves(events: seq<Event>, w: Window, points: seq<Point>)
    requires RecentPoints(events, w, points)
    ensures SumActions(points) == |InWindow(events, w)|
  {
    EventMarksAreBuckets(events, w);
    ChartWeighs(points, w, EventMarks(events, w));
    ActionsWeigh(points, EventMarks(events, w));
    EventsWeigh(events, w);
  }

  /**
   Each event of the window is counted on exactly one point, the one whose span
   covers its instant; and points are in strictly increasing order.
   */
  lemma EngagementPlaces(events: seq<Event>, w: Window, points: seq<Point>, e: Event) returns (i: nat)
    requires RecentPoints(events, w, points) && e in events && w.Holds(e.at)
    ensures i < |points| && e in InBucket(events, w, points[i].bucket) && Covers(points[i].bucket, e.at, w.grain)
    ensures forall j :: 0 <= j < |points| && j != i ==> e !in InBucket(events, w, points[j].bucket)
    ensures forall j, k :: 0 <= j < k < |points| ==> points[j].bucket < points[k].bucket
  {
    i := GridCovers(points, w, e.at.value);
    BucketCovers(e.at.value, w.grain);
    InBucketHolds(events, w, points[i].bucket);
    forall j, k | 0 <= j < k < |points| ensures points[j].bucket < points[k].bucket {
      GridIncreases(points, w, j, k);
    }
    forall j | 0 <= j < |points| && j != i ensures e !in InBucket(events, w, points[j].bucket) {
      InBucketHolds(events, w, points[j].bucket);
      assert points[j].bucket != points[i].bucket;
    }
  }

  /** A point shows the number of events of its bucket, and no more visitors than actions. */
  lemma EngagementPoint(events: seq<Event>, w: Window, points: seq<Point>, p: Point)
    requires RecentPoints(events, w, points) && p in points
    ensures p.tally.visitors <= p.tally.actions == |InBucket(events, w, p.bucket)|
    ensures p.tally.visitors == 0 <==> p.tally.actions == 0
  {
    BucketWeighs(events, w, p.bucket);
    var here := InBucket(events, w, p.bucket);
    PeopleSize(here);
    if here != [] {
      assert here[0] in here;
      assert PersonOf(here[0]) in People(here);
    }
  }

  lemma {:induction false} FrequencyWeighs(visits: seq<seq<Event>>, w: Window, key: int)
    ensures FrequencyTally(visits, w, key).visits == WeightAt(VisitMarks(visits, w), key)
    ensures FrequencyTally(visits, w, key).actions == WeightAt(VisitSizeMarks(visits, w), key)
  {
    if visits != [] {
      var init := visits[..|visits| - 1];
      FrequencyWeighs(init, w, key);
      assert VisitMarks(visits, w)[..|init|] == VisitMarks(init, w);
      assert VisitSizeMarks(visits, w)[..|init|] == VisitSizeMarks(init, w);
    }
  }

  predicate OnePersons(visit: seq<Event>) {
    visit != [] && forall e :: e in visit ==> PersonOf(e) == PersonOf(visit[0])
  }

  lemma OnePersonCounts(visit: seq<Event>)
    requires OnePersons(visit)
    ensures |People(visit)| == 1
  {
    assert visit[0] in visit;
    assert People(visit) == {PersonOf(visit[0])};
  }

  lemma {:induction false} VisitorsAreVisits(visits: seq<seq<Event>>, w: Window, key: int)
    requires forall i :: 0 <= i < |visits| ==> OnePersons(visits[i])
    ensures FrequencyTally(visits, w, key).visitors == FrequencyTally(visits, w, key).visits
  {
    if visits != [] {
      VisitorsAreVisits(visits[..|visits| - 1], w, key);
      OnePersonCounts(visits[|visits| - 1]);
    }
  }

  /**
   The visit chart counts exactly the visits that start in the window, and exactly
   the actions of those visits, even those made outside it. Every point shows as many visitors as visits.
   */
  lemma FrequencyConserves(events: seq<Event>, minutes: Option<int>, w: Window, points: seq<Point>)
    requires FrequencyPoints(VisitList(events, Gap(minutes)), w, points)
    ensures SumVisits(points) == |StartingIn(VisitList(events, Gap(minutes)), w)|
    ensures SumActions(points) == |Flatten(StartingIn(VisitList(events, Gap(minutes)), w))|
    ensures forall p :: p in points ==> p.tally.visitors == p.tally.visits
  {
    var visits := VisitList(events, Gap(minutes));
    SessionsAreCanonical(events, minutes);
    FrequencyConservesAny(visits, w, points);
  }

  lemma FrequencyConservesAny(visits: seq<seq<Event>>, w: Window, points: seq<Point>)
    requires FrequencyPoints(visits, w, points)
    requires forall i, x :: 0 <= i < |visits| && x in visits[i] ==> VisitorOf(x) == VisitorOf(visits[i][0])
    requires forall i :: 0 <= i < |visits| ==> visits[i] != []
    ensures SumVisits(points) == |StartingIn(visits, w)|
    ensures SumActions(points) == |Flatten(StartingIn(visits, w))|
    ensures forall p :: p in points ==> p.tally.visitors == p.tally.visits
  {
    var starts, sizes := VisitMarks(visits, w), VisitSizeMarks(visits, w);
    forall m | m in starts || m in sizes ensures exists at :: m.bucket == w.Bucket(at) {
      var i :| 0 <= i < |visits| && (starts[i] == m || sizes[i] == m);
      assert m.bucket == w.Bucket(Earliest(visits[i]));
    }
    forall i | 0 <= i < |visits| ensures OnePersons(visits[i]) {
      forall e | e in visits[i] ensures PersonOf(e) == PersonOf(visits[i][0]) {
        assert VisitorOf(e) == VisitorOf(visits[i][0]);
      }
    }
    forall p | p in points
      ensures p.tally.visits == WeightAt(starts, p.bucket) && p.tally.actions == WeightAt(sizes, p.bucket)
      ensures p.tally.visitors == p.tally.visits
    {
      FrequencyWeighs(visits, w, p.bucket);
      VisitorsAreVisits(visits, w, p.bucket);
    }
    ChartWeighs(points, w, starts);
    ChartWeighs(points, w, sizes);
    StartsWeigh(points, starts);
    ActionsWeigh(points, sizes);
    VisitsWeigh(visits, w);
  }
}

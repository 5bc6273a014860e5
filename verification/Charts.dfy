/** Bucketing of activity into dense, zero-filled charts. */
module Charts {
  import opened Instants
  import opened Prelude
  import opened Visits

  datatype Grain = Day | Week

  function Step(grain: Grain): int {
    if grain == Week then WEEK else DAY
  }

  /** Midnight UTC of the day, or of the Monday of the week. */
  function BucketStart(at: int, grain: Grain): int {
    var start := at - at % DAY;
    var weekday := start / DAY % 7;
    if grain == Week then start - weekday * DAY else start
  }

  datatype Tally = Tally(actions: nat, visitors: nat, visits: nat)

  const EMPTY := Tally(0, 0, 0)

  datatype Point = Point(bucket: int, tally: Tally)

  /** What a chart covers: every instant from `start` to `end`, both included. */
  datatype Window = Window(start: int, end: int, grain: Grain) {
    predicate Holds(at: Option<int>) {
      at.Some? && start <= at.value <= end
    }

    function Bucket(at: Option<int>): Option<int> {
      if Holds(at) then Some(BucketStart(at.value, grain)) else None
    }
  }

  function ChartWindow(now: int, days: int, grain: Grain): Window {
    Window(now - Max(1, days) * DAY, now, grain)
  }

  /** One point per bucket, gap-free, from the bucket of `start` to that of `end`. */
  ghost predicate OnGrid(points: seq<Point>, w: Window) {
    && |points| > 0
    && points[0].bucket == BucketStart(w.start, w.grain)
    && points[|points| - 1].bucket == BucketStart(w.end, w.grain)
    && forall i :: 0 < i < |points| ==> points[i].bucket == points[i - 1].bucket + Step(w.grain)
  }

  lemma DayIndex(at: int)
    ensures at - at % DAY == at / DAY * DAY && (at - at % DAY) / DAY == at / DAY
  {
  }

  lemma WeekIndex(day: int)
    ensures (day - day % 7) == day / 7 * 7
  {
  }

  lemma WeekOfDay(at: int)
    ensures at / DAY / 7 == at / WEEK
  {
    var day := at / DAY;
    var week := day / 7;
    assert day * DAY <= at < day * DAY + DAY;
    assert 7 * week <= day < 7 * week + 7;
    assert week * WEEK <= at < week * WEEK + WEEK;
  }

  /** The calendar rule is a plain grid of steps, counted from the first Monday. */
  lemma BucketIsIndex(at: int, grain: Grain)
    ensures BucketStart(at, grain) == at / Step(grain) * Step(grain)
  {
    DayIndex(at);
    WeekIndex(at / DAY);
    WeekOfDay(at);
  }

  /** Stepping from `cursor` lands exactly on `limit`. */
  ghost predicate Reaches(cursor: int, limit: int, step: int)
    requires step > 0
    decreases limit - cursor
  {
    cursor == limit || (cursor < limit && Reaches(cursor + step, limit, step))
  }

  lemma {:induction false} StepsReach(first: int, n: nat, step: int)
    requires step > 0
    ensures Reaches(first, first + n * step, step)
    decreases n
  {
    if n > 0 {
      StepsReach(first + step, n - 1, step);
      assert first + n * step == first + step + (n - 1) * step;
      assert n * step > 0;
    }
  }

  /** Earlier instants are in earlier buckets, and the later bucket is whole steps away. */
  lemma BucketReaches(a: int, b: int, grain: Grain)
    requires a <= b
    ensures Reaches(BucketStart(a, grain), BucketStart(b, grain), Step(grain))
  {
    BucketIsIndex(a, grain);
    BucketIsIndex(b, grain);
    var i, j, step := a / Step(grain), b / Step(grain), Step(grain);
    assert i <= j by { assert grain == Week ==> a / WEEK <= b / WEEK; }
    StepsReach(i * step, j - i, step);
    assert i * step + (j - i) * step == j * step;
  }

  /** The zero-filled series from `first` to `limit`. */
  method Dense(buckets: map<int, Tally>, first: int, limit: int, step: int) returns (points: seq<Point>)
    requires step > 0 && Reaches(first, limit, step)
    ensures |points| > 0 && points[0].bucket == first && points[|points| - 1].bucket == limit
    ensures forall i :: 0 < i < |points| ==> points[i].bucket == points[i - 1].bucket + step
    ensures forall p :: p in points ==> p.tally == if p.bucket in buckets then buckets[p.bucket] else EMPTY
  {
    points := [];
    var cursor := first;
    while cursor <= limit
      invariant cursor == limit + step || Reaches(cursor, limit, step)
      invariant if points == [] then cursor == first
                else points[0].bucket == first && points[|points| - 1].bucket == cursor - step
      invariant forall i :: 0 < i < |points| ==> points[i].bucket == points[i - 1].bucket + step
      invariant forall p :: p in points ==> p.tally == if p.bucket in buckets then buckets[p.bucket] else EMPTY
      decreases limit - cursor
    {
      points := points + [Point(cursor, if cursor in buckets then buckets[cursor] else EMPTY)];
      cursor := cursor + step;
    }
  }

  /** Dense series over a window: one point per bucket, zero-filled so gaps are visible. */
  method Chart(buckets: map<int, Tally>, w: Window) returns (points: seq<Point>)
    requires w.start <= w.end
    ensures OnGrid(points, w)
    ensures forall p :: p in points ==> p.tally == if p.bucket in buckets then buckets[p.bucket] else EMPTY
  {
    BucketReaches(w.start, w.end, w.grain);
    points := Dense(buckets, BucketStart(w.start, w.grain), BucketStart(w.end, w.grain), Step(w.grain));
  }

  // ------------------------------------------------------------------------
  // Weighing items by bucket
  // ------------------------------------------------------------------------

  /** An item's bucket, when it falls in the window, and how much it counts for. */
  datatype Mark = Mark(bucket: Option<int>, weight: nat)

  function WeightAt(marks: seq<Mark>, key: int): nat {
    if marks == [] then 0
    else
      var last := marks[|marks| - 1];
      WeightAt(marks[..|marks| - 1], key) + if last.bucket == Some(key) then last.weight else 0
  }

  /** The weight of everything in the window. */
  function Weight(marks: seq<Mark>): nat {
    if marks == [] then 0
    else
      var last := marks[|marks| - 1];
      Weight(marks[..|marks| - 1]) + if last.bucket.Some? then last.weight else 0
  }

  function EventMarks(events: seq<Event>, w: Window): seq<Mark> {
    seq(|events|, i requires 0 <= i < |events| => Mark(w.Bucket(events[i].at), 1))
  }

  /** The instant of the earliest dated event. */
  function Earliest(visit: seq<Event>): Option<int> {
    if visit == [] then None
    else
      var rest, at := Earliest(visit[..|visit| - 1]), visit[|visit| - 1].at;
      if at.None? then rest
      else if rest.None? || at.value < rest.value then at
      else rest
  }

  function VisitMarks(visits: seq<seq<Event>>, w: Window): seq<Mark> {
    seq(|visits|, i requires 0 <= i < |visits| => Mark(w.Bucket(Earliest(visits[i])), 1))
  }

  /** As `VisitMarks`, each visit counting for as many events as it holds. */
  function VisitSizeMarks(visits: seq<seq<Event>>, w: Window): seq<Mark> {
    seq(|visits|, i requires 0 <= i < |visits| => Mark(w.Bucket(Earliest(visits[i])), |visits[i]|))
  }

  function People(events: seq<Event>): set<string> {
    set e | e in events :: PersonOf(e)
  }

  /** The events of one bucket of the window, in input order. */
  function InBucket(events: seq<Event>, w: Window, key: int): seq<Event> {
    if events == [] then []
    else
      var init, e := events[..|events| - 1], events[|events| - 1];
      if w.Bucket(e.at) == Some(key) then InBucket(init, w, key) + [e] else InBucket(init, w, key)
  }

  // ------------------------------------------------------------------------
  // The two charts
  // ------------------------------------------------------------------------

  /** The events of each bucket that has any. */
  method GroupByBucket(events: seq<Event>, w: Window) returns (grouped: map<int, seq<Event>>)
    ensures forall key :: key in grouped ==> grouped[key] == InBucket(events, w, key) != []
    ensures forall key :: key !in grouped ==> InBucket(events, w, key) == []
  {
    grouped := map[];
    for i := 0 to |events|
      invariant forall key :: key in grouped ==> grouped[key] == InBucket(events[..i], w, key) != []
      invariant forall key :: key !in grouped ==> InBucket(events[..i], w, key) == []
    {
      assert events[..i + 1][..i] == events[..i];
      var e := events[i];
      if w.Holds(e.at) {
        var key := BucketStart(e.at.value, w.grain);
        grouped := grouped[key := (if key in grouped then grouped[key] else []) + [e]];
      }
    }
    assert events[..|events|] == events;
  }

  lemma MarksStep(events: seq<Event>, w: Window, i: nat)
    requires i < |events|
    ensures EventMarks(events[..i + 1], w)[..i] == EventMarks(events[..i], w)
    ensures EventMarks(events[..i + 1], w)[i] == Mark(w.Bucket(events[i].at), 1)
  {
  }

  /** The first pass of the engagement chart: actions per bucket. */
  method CountActions(events: seq<Event>, w: Window) returns (buckets: map<int, Tally>)
    ensures forall key :: WeightAt(EventMarks(events, w), key) == if key in buckets then buckets[key].actions else 0
    ensures forall key :: key in buckets ==> buckets[key].visitors == buckets[key].visits == 0
  {
    buckets := map[];
    for i := 0 to |events|
      invariant forall key ::
                  WeightAt(EventMarks(events[..i], w), key) == if key in buckets then buckets[key].actions else 0
      invariant forall key :: key in buckets ==> buckets[key].visitors == buckets[key].visits == 0
    {
      MarksStep(events, w, i);
      var e := events[i];
      if w.Holds(e.at) {
        var key := BucketStart(e.at.value, w.grain);
        var point := if key in buckets then buckets[key] else EMPTY;
        buckets := buckets[key := point.(actions := point.actions + 1)];
      }
    }
    assert events[..|events|] == events;
  }

  /** The second pass: distinct visitors per bucket; the order of the buckets is immaterial. */
  method CountVisitors(grouped: map<int, seq<Event>>, actions: map<int, Tally>) returns (buckets: map<int, Tally>)
    requires forall key :: key in actions ==> actions[key].visitors == actions[key].visits == 0
    ensures buckets.Keys == actions.Keys + grouped.Keys
    ensures forall key :: key in buckets ==>
              buckets[key] == Tally(if key in actions then actions[key].actions else 0,
                                    if key in grouped then |People(grouped[key])| else 0, 0)
  {
    buckets := actions;
    var keys := grouped.Keys;
    while keys != {}
      invariant keys <= grouped.Keys
      invariant buckets.Keys == actions.Keys + (grouped.Keys - keys)
      invariant forall key :: key in buckets ==>
                  buckets[key] == Tally(if key in actions then actions[key].actions else 0,
                                        if key in grouped && key !in keys then |People(grouped[key])| else 0, 0)
      decreases keys
    {
      var key := PickOne(keys);
      var point := if key in buckets then buckets[key] else EMPTY;
      buckets := buckets[key := point.(visitors := |People(grouped[key])|)];
      keys := keys - {key};
    }
  }

  function RecentTally(events: seq<Event>, w: Window, key: int): Tally {
    Tally(WeightAt(EventMarks(events, w), key), |People(InBucket(events, w, key))|, 0)
  }

  /** What the engagement chart shows over a window. */
  ghost predicate RecentPoints(events: seq<Event>, w: Window, points: seq<Point>) {
    OnGrid(points, w) && forall p :: p in points ==> p.tally == RecentTally(events, w, p.bucket)
  }

  method RecentChart(events: seq<Event>, w: Window) returns (points: seq<Point>)
    requires w.start <= w.end
    ensures RecentPoints(events, w, points)
  {
    var actions := CountActions(events, w);
    var grouped := GroupByBucket(events, w);
    var buckets := CountVisitors(grouped, actions);
    assert People([]) == {};
    points := Chart(buckets, w);
  }

  /** Actions and distinct visitors per bucket across the chart window. */
  method RecentEngagement(events: seq<Event>, now: int, days: int, grain: Grain) returns (points: seq<Point>)
    ensures RecentPoints(events, ChartWindow(now, days, grain), points)
  {
    points := RecentChart(events, ChartWindow(now, days, grain));
  }

  function AddVisit(point: Tally, visit: seq<Event>): Tally {
    Tally(point.actions + |visit|, point.visitors + |People(visit)|, point.visits + 1)
  }

  function FrequencyTally(visits: seq<seq<Event>>, w: Window, key: int): Tally {
    if visits == [] then EMPTY
    else
      var before, visit := FrequencyTally(visits[..|visits| - 1], w, key), visits[|visits| - 1];
      if w.Bucket(Earliest(visit)) == Some(key) then AddVisit(before, visit) else before
  }

  method CountStarts(visits: seq<seq<Event>>, w: Window) returns (buckets: map<int, Tally>)
    ensures forall key :: FrequencyTally(visits, w, key) == if key in buckets then buckets[key] else EMPTY
  {
    buckets := map[];
    for i := 0 to |visits|
      invariant forall key :: FrequencyTally(visits[..i], w, key) == if key in buckets then buckets[key] else EMPTY
    {
      assert visits[..i + 1][..i] == visits[..i];
      var startAt := Earliest(visits[i]);
      if w.Holds(startAt) {
        var key := BucketStart(startAt.value, w.grain);
        assert w.Bucket(startAt) == Some(key);
        buckets := buckets[key := AddVisit(if key in buckets then buckets[key] else EMPTY, visits[i])];
      }
    }
    assert visits[..|visits|] == visits;
  }

  /** What the visit chart shows over a window. */
  ghost predicate FrequencyPoints(visits: seq<seq<Event>>, w: Window, points: seq<Point>) {
    OnGrid(points, w) && forall p :: p in points ==> p.tally == FrequencyTally(visits, w, p.bucket)
  }

  method FrequencyChart(visits: seq<seq<Event>>, now: int, days: int, grain: Grain) returns (points: seq<Point>)
    ensures FrequencyPoints(visits, ChartWindow(now, days, grain), points)
  {
    var w := ChartWindow(now, days, grain);
    var buckets := CountStarts(visits, w);
    points := Chart(buckets, w);
  }

  /** Visits per bucket, by the instant each visit starts. */
  method VisitFrequency(events: seq<Event>, now: int, days: int, grain: Grain, gapMinutes: Option<int>)
    returns (points: seq<Point>)
    ensures FrequencyPoints(VisitList(events, Gap(gapMinutes)), ChartWindow(now, days, grain), points)
  {
    var visits := CountVisits(events, gapMinutes);
    points := FrequencyChart(visits, now, days, grain);
  }
}

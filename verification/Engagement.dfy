/**
 Room trend, engagement score and follow-up priority.

 Scores are exact rationals; a configured threshold is None when it is not a number.
 */
module Engagement {
  import opened ChartLaws
  import opened Instants
  import opened Prelude
  import opened RoomStats
  import opened Visits

  datatype Thresholds = Thresholds(
    coldFloor: Option<int>, warmActions: Option<int>, hotActions: Option<int>, hotWithinDays: Option<int>,
    warmWithinDays: Option<int>, inactiveAfterDays: Option<int>, deadlineWithinDays: Option<int>,
    alertAfterDays: Option<int>)

  /** The windowed statistics a room is judged by; `days` is None when nothing was ever recorded. */
  datatype Activity = Activity(actions: nat, visitors: nat, days: Option<nat>)

  datatype Trend = Cold | Warm | Hot

  datatype Alert = LowEngagement | Inactive | DeadlineApproaching

  function AsInt(value: Option<int>, default: int, minimum: int): int {
    if value.None? then default else Max(minimum, value.value)
  }

  function HotActions(t: Thresholds): int {
    AsInt(t.hotActions, 40, 1)
  }

  function Classify(a: Activity, t: Thresholds): Trend {
    if a.days.None? then Cold
    else if a.actions >= HotActions(t) && a.days.value <= AsInt(t.hotWithinDays, 2, 0) then Hot
    else if a.days.value <= AsInt(t.warmWithinDays, 10, 0) || a.actions >= AsInt(t.warmActions, 15, 1) then Warm
    else Cold
  }

  function RMin(x: real, y: real): real {
    if x < y then x else y
  }

  function RMax(x: real, y: real): real {
    if x < y then y else x
  }

  /** Nearest tenth, ties to even. */
  function Round1(x: real): real {
    var tenths := x * 10.0;
    var low := tenths.Floor;
    var rest := tenths - low as real;
    var nearest := if rest < 0.5 || (rest == 0.5 && low % 2 == 0) then low else low + 1;
    nearest as real / 10.0
  }

  function Volume(a: Activity, t: Thresholds): real {
    RMin(1.0, a.actions as real / Max(1, HotActions(t)) as real)
  }

  function Recency(a: Activity, t: Thresholds): real {
    if a.days.None? then 0.0
    else RMax(0.0, 1.0 - a.days.value as real / Max(1, AsInt(t.inactiveAfterDays, 14, 1)) as real)
  }

  function Breadth(a: Activity, t: Thresholds): real {
    RMin(1.0, a.visitors as real / RMax(1.0, Max(1, HotActions(t)) as real / 4.0))
  }

  function Floored(score: real, trend: Trend): real {
    match trend
    case Hot => RMax(score, 60.0)
    case Warm => RMax(score, 30.0)
    case Cold => score
  }

  function EngagementScore(a: Activity, trend: Trend, t: Thresholds): real {
    var score := 100.0 * (0.5 * Volume(a, t) + 0.3 * Recency(a, t) + 0.2 * Breadth(a, t));
    Round1(RMin(100.0, Floored(score, trend)))
  }

  /** Whether an active room raises an alert; `age` and `remaining` are in whole days. */
  predicate Raises(alert: Alert, a: Activity, age: Option<nat>, remaining: Option<int>, t: Thresholds) {
    match alert
    case LowEngagement => a.actions < AsInt(t.coldFloor, 3, 0) && OldEnough(age, t)
    case Inactive => a.days.Some? && a.days.value > AsInt(t.inactiveAfterDays, 14, 1)
    case DeadlineApproaching => remaining.Some? && 0 <= remaining.value <= AsInt(t.deadlineWithinDays, 7, 0)
  }

  /** The room has had time to be engaged with, or nothing says when it was created. */
  predicate OldEnough(age: Option<nat>, t: Thresholds) {
    age.None? || age.value >= AsInt(t.alertAfterDays, 3, 0)
  }

  function Alerts(a: Activity, age: Option<nat>, remaining: Option<int>, t: Thresholds): set<Alert> {
    set alert: Alert | Raises(alert, a, age, remaining, t)
  }

  function DeadlineBonus(remaining: Option<int>, t: Thresholds): real {
    var within := AsInt(t.deadlineWithinDays, 7, 0);
    if remaining.None? || remaining.value < 0 then 0.0
    else if remaining.value <= within then 20.0
    else if remaining.value <= within * 3 then 10.0
    else 0.0
  }

  /** The follow-up score of a room. */
  function Priority(a: Activity, trend: Trend, alerts: set<Alert>, remaining: Option<int>, t: Thresholds): real {
    Round1(RMin(100.0, EngagementScore(a, trend, t) + DeadlineBonus(remaining, t) + (10 * |alerts|) as real))
  }

  // ------------------------------------------------------------------------
  // Order
  // ------------------------------------------------------------------------

  function Rank(trend: Trend): nat {
    match trend
    case Cold => 0
    case Warm => 1
    case Hot => 2
  }

  /** More actions, more visitors and a buyer seen at least as recently. */
  predicate AtMost(a: Activity, b: Activity) {
    && a.actions <= b.actions && a.visitors <= b.visitors
    && (a.days.Some? ==> b.days.Some? && b.days.value <= a.days.value)
  }

  /** More engagement never lowers the trend. */
  lemma TrendMonotone(a: Activity, b: Activity, t: Thresholds)
    requires AtMost(a, b)
    ensures Rank(Classify(a, t)) <= Rank(Classify(b, t))
  {
  }

  lemma DivideMonotone(x: real, y: real, d: real)
    requires x <= y && d > 0.0
    ensures x / d <= y / d
  {
  }

  lemma RoundMonotone(x: real, y: real)
    requires x <= y
    ensures Round1(x) <= Round1(y)
  {
    var p, q := x * 10.0, y * 10.0;
    if p.Floor < q.Floor && p - p.Floor as real >= 0.5 {
      assert p.Floor + 1 <= q.Floor;
    }
  }

  /** Rounding keeps whole numbers. */
  lemma RoundWhole(n: int)
    ensures Round1(n as real) == n as real
  {
    assert (n as real * 10.0).Floor == n * 10;
  }

  lemma RoundWithin(x: real, low: int, high: int)
    requires low as real <= x <= high as real
    ensures low as real <= Round1(x) <= high as real
  {
    RoundMonotone(low as real, x);
    RoundMonotone(x, high as real);
    RoundWhole(low);
    RoundWhole(high);
  }

  lemma PartsMonotone(a: Activity, b: Activity, t: Thresholds)
    requires AtMost(a, b)
    ensures 0.0 <= Volume(a, t) <= Volume(b, t) <= 1.0
    ensures 0.0 <= Recency(a, t) <= Recency(b, t) <= 1.0
    ensures 0.0 <= Breadth(a, t) <= Breadth(b, t) <= 1.0
  {
    var hot := Max(1, HotActions(t)) as real;
    DivideMonotone(a.actions as real, b.actions as real, hot);
    DivideMonotone(0.0, a.actions as real, hot);
    DivideMonotone(a.visitors as real, b.visitors as real, RMax(1.0, hot / 4.0));
    DivideMonotone(0.0, a.visitors as real, RMax(1.0, hot / 4.0));
    var inactive := Max(1, AsInt(t.inactiveAfterDays, 14, 1)) as real;
    if a.days.Some? {
      DivideMonotone(b.days.value as real, a.days.value as real, inactive);
    }
    if b.days.Some? {
      DivideMonotone(0.0, b.days.value as real, inactive);
    }
  }

  /** Nor does it lower the engagement score, whatever trend each room was given in that order. */
  lemma ScoreMonotone(a: Activity, b: Activity, x: Trend, y: Trend, t: Thresholds)
    requires AtMost(a, b) && Rank(x) <= Rank(y)
    ensures EngagementScore(a, x, t) <= EngagementScore(b, y, t)
  {
    PartsMonotone(a, b, t);
    var p := 100.0 * (0.5 * Volume(a, t) + 0.3 * Recency(a, t) + 0.2 * Breadth(a, t));
    var q := 100.0 * (0.5 * Volume(b, t) + 0.3 * Recency(b, t) + 0.2 * Breadth(b, t));
    assert p <= q;
    RoundMonotone(RMin(100.0, Floored(p, x)), RMin(100.0, Floored(q, y)));
  }

  /** The score a room is ranked by, from its own activity. */
  function RoomScore(a: Activity, t: Thresholds): real {
    EngagementScore(a, Classify(a, t), t)
  }

  lemma RoomScoreMonotone(a: Activity, b: Activity, t: Thresholds)
    requires AtMost(a, b)
    ensures RoomScore(a, t) <= RoomScore(b, t)
  {
    TrendMonotone(a, b, t);
    ScoreMonotone(a, b, Classify(a, t), Classify(b, t), t);
  }

  function TrendFloor(trend: Trend): int {
    match trend
    case Hot => 60
    case Warm => 30
    case Cold => 0
  }

  lemma ScoreWithin(a: Activity, trend: Trend, t: Thresholds)
    ensures TrendFloor(trend) as real <= EngagementScore(a, trend, t) <= 100.0
  {
    PartsMonotone(a, a, t);
    var score := 100.0 * (0.5 * Volume(a, t) + 0.3 * Recency(a, t) + 0.2 * Breadth(a, t));
    RoundWithin(RMin(100.0, Floored(score, trend)), TrendFloor(trend), 100);
  }

  /** Every follow-up score is between 0 and 100, a hot room has at least 60 and a warm one at least 30. */
  lemma PriorityWithin(a: Activity, trend: Trend, alerts: set<Alert>, remaining: Option<int>, t: Thresholds)
    ensures TrendFloor(trend) as real <= Priority(a, trend, alerts, remaining, t) <= 100.0
  {
    ScoreWithin(a, trend, t);
    var score := EngagementScore(a, trend, t) + DeadlineBonus(remaining, t) + (10 * |alerts|) as real;
    RoundWithin(RMin(100.0, score), TrendFloor(trend), 100);
  }

  // ------------------------------------------------------------------------
  // When the follow-up score follows engagement
  // ------------------------------------------------------------------------

  predicate WholeTenths(x: real) {
    x * 10.0 == (x * 10.0).Floor as real
  }

  lemma TenthsOf(n: int)
    ensures WholeTenths(n as real / 10.0)
  {
    assert n as real / 10.0 * 10.0 == n as real;
  }

  lemma RoundIsTenths(x: real)
    ensures WholeTenths(Round1(x)) && x - 0.1 <= Round1(x) <= x + 0.1
  {
    var low := (x * 10.0).Floor;
    TenthsOf(low);
    TenthsOf(low + 1);
    assert low as real <= x * 10.0 <= (low + 1) as real;
    assert Round1(x) == low as real / 10.0 || Round1(x) == (low + 1) as real / 10.0;
  }

  lemma TenthsFixed(x: real)
    requires WholeTenths(x)
    ensures Round1(x) == x
  {
  }

  lemma TenthsAdd(x: real, n: int)
    requires WholeTenths(x)
    ensures WholeTenths(x + n as real)
  {
    assert (x + n as real) * 10.0 == ((x * 10.0).Floor + 10 * n) as real;
  }

  /** A follow-up score before it is capped. */
  function Uncapped(a: Activity, trend: Trend, alerts: set<Alert>, remaining: Option<int>, t: Thresholds): real {
    EngagementScore(a, trend, t) + DeadlineBonus(remaining, t) + (10 * |alerts|) as real
  }

  lemma ScoreIsTenths(a: Activity, trend: Trend, t: Thresholds)
    ensures WholeTenths(EngagementScore(a, trend, t))
  {
    var score := 100.0 * (0.5 * Volume(a, t) + 0.3 * Recency(a, t) + 0.2 * Breadth(a, t));
    RoundIsTenths(RMin(100.0, Floored(score, trend)));
  }

  lemma CapOfTenths(score: real, bonus: int, alerts: int)
    requires WholeTenths(score)
    ensures Round1(RMin(100.0, score + bonus as real + alerts as real))
            == RMin(100.0, score + bonus as real + alerts as real)
  {
    TenthsAdd(score, bonus);
    TenthsAdd(score + bonus as real, alerts);
    TenthsFixed(score + bonus as real + alerts as real);
    RoundWhole(100);
  }

  lemma BonusIsWhole(remaining: Option<int>, t: Thresholds)
    ensures DeadlineBonus(remaining, t).Floor as real == DeadlineBonus(remaining, t)
  {
  }

  /** The last rounding changes nothing: everything it is given is in tenths already. */
  lemma PriorityIsCapped(a: Activity, trend: Trend, alerts: set<Alert>, remaining: Option<int>, t: Thresholds)
    ensures Priority(a, trend, alerts, remaining, t) == RMin(100.0, Uncapped(a, trend, alerts, remaining, t))
  {
    var score, bonus := EngagementScore(a, trend, t), DeadlineBonus(remaining, t).Floor;
    assert WholeTenths(score) by { ScoreIsTenths(a, trend, t); }
    assert bonus as real == DeadlineBonus(remaining, t) by { BonusIsWhole(remaining, t); }
    CapOfTenths(score, bonus, 10 * |alerts|);
  }

  /** The follow-up score of an active room, raising its own alerts. */
  function RoomPriority(a: Activity, age: Option<nat>, remaining: Option<int>, t: Thresholds): real {
    Priority(a, Classify(a, t), Alerts(a, age, remaining, t), remaining, t)
  }

  /**
   One activity gets a lower follow-up score than another, in a room of the same age
   and deadline, exactly when its score is below the cap and ahead by less than what
   the alerts it no longer raises are worth.
   */
  lemma PriorityFallsExactly(a: Activity, b: Activity, age: Option<nat>, remaining: Option<int>, t: Thresholds)
    ensures var x, y := Alerts(a, age, remaining, t), Alerts(b, age, remaining, t);
            RoomPriority(b, age, remaining, t) < RoomPriority(a, age, remaining, t) <==>
            && RoomScore(b, t) + DeadlineBonus(remaining, t) + (10 * |y|) as real < 100.0
            && RoomScore(b, t) - RoomScore(a, t) < (10 * (|x| - |y|)) as real
  {
    PriorityIsCapped(a, Classify(a, t), Alerts(a, age, remaining, t), remaining, t);
    PriorityIsCapped(b, Classify(b, t), Alerts(b, age, remaining, t), remaining, t);
  }

  /** With more engagement, which alerts go: the one for too few actions and the one for too long a silence. */
  lemma AlertsLost(a: Activity, b: Activity, age: Option<nat>, remaining: Option<int>, t: Thresholds)
    requires AtMost(a, b)
    ensures var x, y := Alerts(a, age, remaining, t), Alerts(b, age, remaining, t);
            var floor, silence := AsInt(t.coldFloor, 3, 0), AsInt(t.inactiveAfterDays, 14, 1);
            && (LowEngagement in x - y <==> OldEnough(age, t) && a.actions < floor <= b.actions)
            && (Inactive in x - y <==> a.days.Some? && b.days.value <= silence < a.days.value)
            && DeadlineApproaching !in x - y
            && (y - x == if a.days.None? && b.days.Some? && b.days.value > silence then {Inactive} else {})
  {
    var gained := Alerts(b, age, remaining, t) - Alerts(a, age, remaining, t);
    assert LowEngagement !in gained && DeadlineApproaching !in gained;
  }

  /** So with no fewer alerts the follow-up score follows engagement. */
  lemma PriorityMonotone(a: Activity, b: Activity, x: set<Alert>, y: set<Alert>, remaining: Option<int>, t: Thresholds)
    requires AtMost(a, b) && |x| <= |y|
    ensures Priority(a, Classify(a, t), x, remaining, t) <= Priority(b, Classify(b, t), y, remaining, t)
  {
    RoomScoreMonotone(a, b, t);
    PriorityIsCapped(a, Classify(a, t), x, remaining, t);
    PriorityIsCapped(b, Classify(b, t), y, remaining, t);
  }

  const DEFAULTS := Thresholds(Some(3), Some(15), Some(40), Some(2), Some(10), Some(14), Some(7), Some(3))

  lemma DefaultScore(a: Activity, trend: Trend)
    requires a.actions <= 40 && a.visitors <= 10
    ensures var raw := 1.25 * a.actions as real + 30.0 * Recency(a, DEFAULTS) + 2.0 * a.visitors as real;
            EngagementScore(a, trend, DEFAULTS) == Round1(RMin(100.0, Floored(raw, trend)))
  {
    assert Volume(a, DEFAULTS) == a.actions as real / 40.0;
    assert Breadth(a, DEFAULTS) == a.visitors as real / 10.0;
  }

  lemma WarmThree(w: nat)
    requires w <= 3
    ensures RoomScore(Activity(3, w, Some(0)), DEFAULTS) == Round1(33.75 + 2.0 * w as real)
  {
    var b := Activity(3, w, Some(0));
    assert Classify(b, DEFAULTS) == Warm;
    assert Recency(b, DEFAULTS) == 1.0;
    DefaultScore(b, Warm);
  }

  /** A room with a third action made just now scores 33.8, and 2 for each visitor. */
  lemma ThreeActionsScore(w: nat)
    requires 1 <= w <= 3
    ensures RoomScore(Activity(3, w, Some(0)), DEFAULTS) == 33.8 + 2.0 * w as real
  {
    WarmThree(w);
    if w == 1 {
      TenthsTie(3575);
    } else if w == 2 {
      TenthsTie(3775);
    } else {
      TenthsTie(3975);
    }
  }

  /** Halfway between two tenths of which the upper is even, the upper one. */
  lemma TenthsTie(n: nat)
    requires n % 10 == 5 && n / 10 % 2 == 1
    ensures Round1(n as real / 100.0) == (n / 10 + 1) as real / 10.0
  {
    assert n as real / 100.0 * 10.0 == (n / 10) as real + 0.5;
    assert (n as real / 100.0 * 10.0).Floor == n / 10;
  }

  /** With two actions, the last d days ago: at least 30 up to the tenth day, little after. */
  lemma TwoActionsScore(v: nat, d: nat)
    requires 1 <= v <= 2
    ensures var score := RoomScore(Activity(2, v, Some(d)), DEFAULTS);
            && (d <= 10 ==> score >= 30.0)
            && (d > 10 ==> score <= 13.1)
            && (d > 14 ==> score <= 6.6)
  {
    var a := Activity(2, v, Some(d));
    if d <= 10 {
      assert Classify(a, DEFAULTS) == Warm;
      ScoreWithin(a, Warm, DEFAULTS);
    } else {
      assert Classify(a, DEFAULTS) == Cold;
      DefaultScore(a, Cold);
      var raw := 2.5 + 30.0 * Recency(a, DEFAULTS) + 2.0 * v as real;
      assert Recency(a, DEFAULTS) <= 3.0 / 14.0 by { DivideMonotone(11.0, d as real, 14.0); }
      RoundIsTenths(RMin(100.0, raw));
      if d > 14 {
        assert Recency(a, DEFAULTS) == 0.0 by { DivideMonotone(14.0, d as real, 14.0); }
      }
    }
  }

  lemma OnlyThree(x: set<Alert>, y: set<Alert>)
    requires LowEngagement in x ==> LowEngagement in y
    requires Inactive in x ==> Inactive in y
    requires DeadlineApproaching in x ==> DeadlineApproaching in y
    ensures x <= y
  {
    forall alert | alert in x ensures alert in y {
      assert alert.LowEngagement? || alert.Inactive? || alert.DeadlineApproaching?;
    }
  }

  lemma AlertsWith(rest: set<Alert>, x: set<Alert>, silent: bool)
    requires rest <= {DeadlineApproaching}
    requires x == rest + {LowEngagement} + if silent then {Inactive} else {}
    ensures |x| == |rest| + (if silent then 2 else 1) && |rest| <= 1
  {
    SubsetSize(rest, {DeadlineApproaching});
  }

  lemma ThirdActionAlerts(v: nat, w: nat, d: nat, age: Option<nat>, remaining: Option<int>)
    requires OldEnough(age, DEFAULTS)
    ensures var x, y := Alerts(Activity(2, v, Some(d)), age, remaining, DEFAULTS),
                        Alerts(Activity(3, w, Some(0)), age, remaining, DEFAULTS);
            |x| == |y| + (if d > 14 then 2 else 1) && |y| <= 1
  {
    var x, y := Alerts(Activity(2, v, Some(d)), age, remaining, DEFAULTS),
                Alerts(Activity(3, w, Some(0)), age, remaining, DEFAULTS);
    assert LowEngagement in x && LowEngagement !in y && Inactive !in y && (Inactive in x <==> d > 14);
    assert DeadlineApproaching in x <==> DeadlineApproaching in y;
    OnlyThree(y, {DeadlineApproaching});
    OnlyThree(x, y + {LowEngagement} + if d > 14 then {Inactive} else {});
    OnlyThree(y + {LowEngagement} + if d > 14 then {Inactive} else {}, x);
    AlertsWith(y, x, d > 14);
  }

  /**
   Under the default thresholds, in a room old enough to be accused, a third action
   made now lowers the follow-up score exactly when the last one was at most ten days
   ago: the low-engagement alert it ends is worth more than what it adds, unless it
   also wakes a room gone cold.
   */
  lemma ThirdActionExactly(v: nat, w: nat, d: nat, age: Option<nat>, remaining: Option<int>)
    requires 1 <= v <= 2 && v <= w <= v + 1 && OldEnough(age, DEFAULTS)
    ensures var before, after := RoomPriority(Activity(2, v, Some(d)), age, remaining, DEFAULTS),
                                 RoomPriority(Activity(3, w, Some(0)), age, remaining, DEFAULTS);
            after < before <==> d <= 10
  {
    var a, b := Activity(2, v, Some(d)), Activity(3, w, Some(0));
    ThirdActionAlerts(v, w, d, age, remaining);
    ThreeActionsScore(w);
    TwoActionsScore(v, d);
    assert DeadlineBonus(remaining, DEFAULTS) <= 20.0;
    PriorityFallsExactly(a, b, age, remaining, DEFAULTS);
  }

  // ------------------------------------------------------------------------
  // The thresholds and what each part is worth
  // ------------------------------------------------------------------------

  /** A threshold that is not a number has its default; one that is too small counts as the least allowed. */
  function Setting(value: Option<int>, default: int, least: int): int {
    if value.None? then default else if value.value < least then least else value.value
  }

  /**
   A room nobody ever touched is cold; it is hot with enough actions and a recent one;
   else warm with a less recent one or with fewer; else cold.
   */
  lemma TrendExactly(a: Activity, t: Thresholds)
    ensures Classify(a, t) == Hot <==>
            a.days.Some? && a.actions >= Setting(t.hotActions, 40, 1) && a.days.value <= Setting(t.hotWithinDays, 2, 0)
    ensures Classify(a, t) == Cold <==>
            a.days.None?
              || (a.days.value > Setting(t.warmWithinDays, 10, 0) && a.actions < Setting(t.warmActions, 15, 1)
                             && (a.actions < Setting(t.hotActions, 40, 1)
                                 || a.days.value > Setting(t.hotWithinDays, 2, 0)))
  {
  }

  /** Which alerts an active room raises. */
  lemma AlertsExactly(a: Activity, age: Option<nat>, remaining: Option<int>, t: Thresholds)
    ensures LowEngagement in Alerts(a, age, remaining, t) <==>
            a.actions < Setting(t.coldFloor, 3, 0) && (age.None? || age.value >= Setting(t.alertAfterDays, 3, 0))
    ensures Inactive in Alerts(a, age, remaining, t) <==>
            a.days.Some? && a.days.value > Setting(t.inactiveAfterDays, 14, 1)
    ensures DeadlineApproaching in Alerts(a, age, remaining, t) <==>
            remaining.Some? && 0 <= remaining.value <= Setting(t.deadlineWithinDays, 7, 0)
  {
  }

  /** The follow-up score a room would have without its deadline, before the cap. */
  function WithoutDeadline(a: Activity, age: Option<nat>, t: Thresholds): real {
    RoomScore(a, t) + (10 * |Alerts(a, age, None, t)|) as real
  }

  lemma DeadlineAlert(a: Activity, age: Option<nat>, remaining: Option<int>, t: Thresholds)
    ensures var near := remaining.Some? && 0 <= remaining.value <= Setting(t.deadlineWithinDays, 7, 0);
            |Alerts(a, age, remaining, t)| == |Alerts(a, age, None, t)| + if near then 1 else 0
  {
    var with, without := Alerts(a, age, remaining, t), Alerts(a, age, None, t);
    assert DeadlineApproaching !in without;
    if DeadlineApproaching in with {
      OnlyThree(with, without + {DeadlineApproaching});
      OnlyThree(without + {DeadlineApproaching}, with);
      assert with == without + {DeadlineApproaching};
    } else {
      OnlyThree(with, without);
      OnlyThree(without, with);
      assert with == without;
    }
  }

  /**
   A deadline within the configured days is worth 20 and an alert, one within three
   times as many 10, a later or a passed one nothing; the sum is capped at 100.
   */
  lemma DeadlineWorth(a: Activity, age: Option<nat>, remaining: Option<int>, t: Thresholds)
    ensures var within := Setting(t.deadlineWithinDays, 7, 0);
            var worth := if remaining.None? || remaining.value < 0 || remaining.value > 3 * within then 0.0
                         else if remaining.value <= within then 30.0
                         else 10.0;
            var sum := WithoutDeadline(a, age, t) + worth;
            RoomPriority(a, age, remaining, t) == if sum > 100.0 then 100.0 else sum
  {
    PriorityIsCapped(a, Classify(a, t), Alerts(a, age, remaining, t), remaining, t);
    DeadlineAlert(a, age, remaining, t);
  }

  /** A room nobody ever touched scores nothing. */
  lemma UntouchedScoresNothing(t: Thresholds)
    ensures RoomScore(Activity(0, 0, None), t) == 0.0
  {
    ShareOfNothing(Activity(0, 0, None), t);
    RoundWhole(0);
  }

  lemma FullShare(x: real, d: real)
    requires x >= d > 0.0
    ensures x / d >= 1.0
  {
    DivideMonotone(d, x, d);
  }

  /** One with enough actions, a quarter as many visitors and an action today scores all there is. */
  lemma BusyScoresAll(a: Activity, t: Thresholds)
    requires a.actions >= Setting(t.hotActions, 40, 1) && 4 * a.visitors >= Setting(t.hotActions, 40, 1)
             && a.days == Some(0)
    ensures RoomScore(a, t) == 100.0
  {
    var hot := Setting(t.hotActions, 40, 1) as real;
    assert Volume(a, t) == 1.0 by { FullShare(a.actions as real, hot); }
    assert Breadth(a, t) == 1.0 by {
      assert 4.0 * a.visitors as real >= hot;
      FullShare(a.visitors as real, RMax(1.0, hot / 4.0));
    }
    assert Recency(a, t) == 1.0;
    RoundWhole(100);
  }

  /**
   The shares, for a cold room: actions half the score, the last action three tenths,
   visitors a fifth, each in proportion.
   */
  lemma ScoreShares(n: nat, t: Thresholds)
    requires n <= Setting(t.hotActions, 40, 1)
    ensures var hot, inactive := Setting(t.hotActions, 40, 1) as real, Setting(t.inactiveAfterDays, 14, 1) as real;
            && EngagementScore(Activity(n, 0, None), Cold, t) == Round1(50.0 * (n as real / hot))
            && (4.0 * n as real <= hot && hot >= 4.0 ==>
                  EngagementScore(Activity(0, n, None), Cold, t) == Round1(20.0 * (n as real / (hot / 4.0))))
            && (n as real <= inactive ==>
                  EngagementScore(Activity(0, 0, Some(n)), Cold, t) == Round1(30.0 * (1.0 - n as real / inactive)))
  {
    var hot, inactive := Setting(t.hotActions, 40, 1) as real, Setting(t.inactiveAfterDays, 14, 1) as real;
    ShareWithin(n as real, hot);
    if n as real <= inactive { ShareWithin(n as real, inactive); }
    if 4.0 * n as real <= hot && hot >= 4.0 { ShareWithin(n as real, hot / 4.0); }
    ShareOfNothing(Activity(n, 0, None), t);
    ShareOfNothing(Activity(0, n, None), t);
    ShareOfNothing(Activity(0, 0, Some(n)), t);
  }

  lemma ShareWithin(x: real, d: real)
    requires 0.0 <= x <= d && d > 0.0
    ensures 0.0 <= x / d <= 1.0
  {
    DivideMonotone(0.0, x, d);
    DivideMonotone(x, d, d);
  }

  lemma ShareOfNothing(a: Activity, t: Thresholds)
    ensures a.actions == 0 ==> Volume(a, t) == 0.0
    ensures a.visitors == 0 ==> Breadth(a, t) == 0.0
    ensures a.days.None? ==> Recency(a, t) == 0.0
  {
  }

  /** Rounding goes to the nearest tenth. */
  lemma RoundNearest(x: real)
    ensures -0.05 <= Round1(x) - x <= 0.05 && WholeTenths(Round1(x))
  {
    RoundIsTenths(x);
    var low := (x * 10.0).Floor;
    assert low as real <= x * 10.0 < (low + 1) as real;
    assert Round1(x) == low as real / 10.0 || Round1(x) == (low + 1) as real / 10.0;
  }

  // ------------------------------------------------------------------------
  // From the records themselves
  // ------------------------------------------------------------------------

  /** What a room is judged by, out of the totals of its records in the window. */
  function ActivityOf(s: Stats): Activity {
    Activity(s.actions, s.visitors, s.daysSince)
  }

  /**
   Of a room with two records in the window, the totals with one more record made now
   give a lower follow-up score exactly when the newest of the two is at most ten days
   old.
   */
  lemma ThirdRecordExactly(events: seq<Event>, e: Event, now: int, visits: seq<seq<Event>>, more: seq<seq<Event>>,
                           s: Stats, t: Stats, age: Option<nat>, remaining: Option<int>)
    requires |events| == 2 && events[0].at.Some? && events[1].at.Some? && e.at == Some(now)
    requires Totals(events, visits, now, s) && Totals(events + [e], more, now, t) && OldEnough(age, DEFAULTS)
    ensures var before, after := RoomPriority(ActivityOf(s), age, remaining, DEFAULTS),
                                 RoomPriority(ActivityOf(t), age, remaining, DEFAULTS);
            after < before <==> WholeDays(now - Max(events[0].at.value, events[1].at.value)) <= 10
  {
    assert t.actions == 3 && s.visitors <= t.visitors <= s.visitors + 1 && t.daysSince == Some(0)
           && s.visitors >= 1 by {
      OneMoreRecord(events, e, visits, more, now, s, t);
    }
    assert s.visitors <= 2 by { PeopleSize(events); }
    LatestOfTwo(events);
    var days := WholeDays(now - Max(events[0].at.value, events[1].at.value));
    assert ActivityOf(s) == Activity(2, s.visitors, Some(days));
    assert ActivityOf(t) == Activity(3, t.visitors, Some(0));
    ThirdActionExactly(s.visitors, t.visitors, days, age, remaining);
  }

  lemma LatestOfTwo(events: seq<Event>)
    requires |events| == 2 && events[0].at.Some? && events[1].at.Some?
    ensures LatestAt(events) == Some(Max(events[0].at.value, events[1].at.value))
  {
    assert LatestAt(events[..1]) == events[0].at by { assert events[..1][..0] == []; }
  }
}

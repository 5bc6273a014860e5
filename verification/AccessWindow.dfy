/**
 The access window of a page: expiry and view cap, resolved at one instant.

 Everything a buyer experiences is derived on read from the stored window, a count
 of views and the clock.
 */
module AccessWindow {
  import opened Instants
  import opened Prelude

  const EXPIRY_WARNING_DAYS := 7
  const MAX_EXPIRY_DAYS := 3650
  const MAX_VIEWS := 10_000_000

  datatype Manual = SetLive | SetDeclined

  datatype Expiry = Expiry(enabled: bool, days: Option<int>, startsAt: Option<int>)

  datatype Limit = Limit(enabled: bool, maxViews: Option<int>)

  /** What is stored on the page. */
  datatype Stored = Stored(expiry: Expiry, limit: Limit, manual: Option<Manual>)

  const NO_EXPIRY := Expiry(false, None, None)
  const NO_LIMIT := Limit(false, None)

  /** Why a link is closed. */
  datatype Reason = Unpublished | PastExpiry | ViewLimit | Declined

  /** The dashboard badge. */
  datatype Status = DraftBadge | LiveBadge | ExpiringBadge | DeclinedBadge | ViewLimitBadge

  /** What the buyer is shown. */
  datatype BuyerState = BuyerOpen | BuyerWarned | BuyerClosed(reason: Reason)

  /** The last instant of the UTC day `moment` falls in. */
  function EndOfUtcDay(moment: int): int {
    moment - moment % DAY + DAY - 1
  }

  function ComputeExpiresAt(startsAt: int, days: int): int {
    EndOfUtcDay(startsAt + days * DAY)
  }

  datatype Window = Window(published: bool, stored: Stored, views: nat, now: int) {

    function ExpiresAt(): Option<int> {
      var e := stored.expiry;
      if !e.enabled || e.days.None? || e.days.value == 0 || e.startsAt.None? then None
      else Some(ComputeExpiresAt(e.startsAt.value, e.days.value))
    }

    /** Whole seconds left, in days, rounded up. */
    function DaysRemaining(): Option<int> {
      var at := ExpiresAt();
      if at.None? then None
      else if at.value - now <= 0 then Some(0)
      else
        var seconds := (at.value - now) / SECOND;
        Some(-(-seconds / 86400))
    }

    predicate Expired() {
      ExpiresAt().Some? && now > ExpiresAt().value
    }

    predicate Capped() {
      stored.limit.enabled && stored.limit.maxViews.Some? && stored.limit.maxViews.value != 0
      && views >= stored.limit.maxViews.value
    }

    predicate ExpiringSoon() {
      ExpiresAt().Some? && !Expired() && ExpiresAt().value - now <= EXPIRY_WARNING_DAYS * DAY
    }

    predicate HandDeclined() {
      stored.manual == Some(SetDeclined)
    }

    /** Every reason the link is closed, in the order they take effect. */
    function Reasons(): seq<Reason> {
      (if !published then [Unpublished] else [])
      + (if Expired() then [PastExpiry] else [])
      + (if Capped() then [ViewLimit] else [])
      + (if HandDeclined() then [Declined] else [])
    }

    predicate Accessible() {
      Reasons() == []
    }

    function Status(): Status {
      if !published then DraftBadge
      else if Expired() then DeclinedBadge
      else if HandDeclined() then DeclinedBadge
      else if Capped() then ViewLimitBadge
      else if ExpiringSoon() then ExpiringBadge
      else LiveBadge
    }

    function BuyerState(): BuyerState {
      if !published then BuyerClosed(Unpublished)
      else if Expired() then BuyerClosed(PastExpiry)
      else if Capped() then BuyerClosed(ViewLimit)
      else if HandDeclined() then BuyerClosed(Declined)
      else if ExpiringSoon() then BuyerWarned
      else BuyerOpen
    }
  }

  // ------------------------------------------------------------------------
  // Expiry arithmetic
  // ------------------------------------------------------------------------

  /** A window of n days closes at least n and less than n + 1 whole days after it opens, on a day's last instant. */
  lemma ExpirySpan(startsAt: int, days: int)
    ensures days * DAY <= ComputeExpiresAt(startsAt, days) - startsAt < (days + 1) * DAY
    ensures (ComputeExpiresAt(startsAt, days) + 1) % DAY == 0
  {
    var moment := startsAt + days * DAY;
    assert (moment - moment % DAY) % DAY == 0;
    assert (days + 1) * DAY == days * DAY + DAY;
  }

  /** The last microsecond of the window is open and the next one is closed. */
  lemma ExpiryBoundary(w: Window, at: int)
    requires w.ExpiresAt() == Some(at)
    ensures !w.(now := at).Expired() && w.(now := at + 1).Expired()
    ensures w.Expired() <==> w.now > at
  {
    assert w.(now := at).ExpiresAt() == w.(now := at + 1).ExpiresAt() == w.ExpiresAt();
  }

  /** The countdown is the least number of days that covers the whole seconds left. */
  lemma DaysRemainingCeiling(w: Window, at: int, left: int)
    requires w.ExpiresAt() == Some(at) && w.now <= at && w.DaysRemaining() == Some(left)
    ensures 86400 * (left - 1) < (at - w.now) / SECOND <= 86400 * left
  {
    var seconds := (at - w.now) / SECOND;
    assert -seconds == 86400 * (-seconds / 86400) + -seconds % 86400;
  }

  lemma DaysRemainingFalls(w: Window, later: int)
    requires w.ExpiresAt().Some? && w.now <= later
    ensures w.(now := later).DaysRemaining().value <= w.DaysRemaining().value
  {
    var at := w.ExpiresAt().value;
    var v := w.(now := later);
    assert v.ExpiresAt() == Some(at);
    if later < at {
      DaysRemainingCeiling(w, at, w.DaysRemaining().value);
      DaysRemainingCeiling(v, at, v.DaysRemaining().value);
      assert (at - later) / SECOND <= (at - w.now) / SECOND;
    } else if w.now <= at {
      DaysRemainingCeiling(w, at, w.DaysRemaining().value);
      assert 0 <= (at - w.now) / SECOND;
    }
  }

  lemma DaysRemainingInWarning(w: Window)
    requires w.ExpiringSoon()
    ensures 0 <= w.DaysRemaining().value <= EXPIRY_WARNING_DAYS
  {
    var at := w.ExpiresAt().value;
    DaysRemainingCeiling(w, at, w.DaysRemaining().value);
    assert 0 <= (at - w.now) / SECOND <= 7 * 86400;
  }

  /** An open window reads zero days exactly throughout its last second, not only in its last microsecond. */
  lemma ZeroDaysWhileOpen(w: Window, at: int)
    requires w.ExpiresAt() == Some(at)
    ensures (!w.Expired() && w.DaysRemaining() == Some(0)) <==> at - SECOND < w.now <= at
  {
    if w.now <= at {
      DaysRemainingCeiling(w, at, w.DaysRemaining().value);
      assert (at - w.now) / SECOND == 0 <==> at - w.now < SECOND;
    }
  }

  // ------------------------------------------------------------------------
  // One answer everywhere
  // ------------------------------------------------------------------------

  /** Badge, buyer state and accessibility agree, and a closed buyer is told the first reason. */
  lemma AnswersAgree(w: Window)
    ensures w.Accessible() <==> w.Status() in {LiveBadge, ExpiringBadge}
    ensures w.Accessible() <==> w.BuyerState() in {BuyerOpen, BuyerWarned}
    ensures !w.Accessible() ==> w.BuyerState() == BuyerClosed(w.Reasons()[0])
    ensures w.Accessible() ==> (w.Status() == ExpiringBadge <==> w.BuyerState() == BuyerWarned)
  {
  }

  // ------------------------------------------------------------------------
  // Closed stays closed
  // ------------------------------------------------------------------------

  /** What can happen to a page without its seller reopening it. */
  datatype Event = Tick(elapsed: nat) | View | Decline

  function Happens(w: Window, e: Event): Window {
    match e
    case Tick(elapsed) => w.(now := w.now + elapsed)
    case View => if w.Accessible() then w.(views := w.views + 1) else w
    case Decline => w.(stored := w.stored.(manual := Some(SetDeclined)))
  }

  function HappenAll(w: Window, events: seq<Event>): Window
    decreases |events|
  {
    if events == [] then w else HappenAll(Happens(w, events[0]), events[1..])
  }

  lemma ReasonsPersist(w: Window, e: Event, r: Reason)
    requires r in w.Reasons()
    ensures r in Happens(w, e).Reasons()
  {
    assert Happens(w, e).ExpiresAt() == w.ExpiresAt();
  }

  /** No reason ever goes away, so a closed link stays closed. */
  lemma {:induction false} ClosedStaysClosed(w: Window, events: seq<Event>)
    requires !w.Accessible()
    ensures !HappenAll(w, events).Accessible()
    ensures forall r :: r in w.Reasons() ==> r in HappenAll(w, events).Reasons()
    decreases |events|
  {
    if events != [] {
      var next := Happens(w, events[0]);
      forall r | r in w.Reasons() ensures r in next.Reasons() {
        ReasonsPersist(w, events[0], r);
      }
      assert w.Reasons()[0] in w.Reasons();
      assert w.Reasons()[0] in next.Reasons();
      ClosedStaysClosed(next, events[1..]);
    }
  }
}

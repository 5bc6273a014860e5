/** What a buyer sees of a page, in terms of its stored fields, and what each request of its seller changes about it. */
module WindowRequests {
  import opened AccessWindow
  import opened Prelude
  import opened WindowWrites

  const DAY_MICROS := 86_400_000_000

  // ------------------------------------------------------------------------
  // What is seen
  // ------------------------------------------------------------------------

  /** The expiry closes the page: on, with a length and a start, and past the last instant of the day it ends. */
  predicate PastEnd(e: Expiry, now: int) {
    && e.enabled && e.days.Some? && e.days.value != 0 && e.startsAt.Some?
    && now >= (e.startsAt.value / DAY_MICROS + e.days.value + 1) * DAY_MICROS
  }

  /** The expiry is on and at most seven days from closing the page, or has closed it. */
  predicate NearEnd(e: Expiry, now: int) {
    && e.enabled && e.days.Some? && e.days.value != 0 && e.startsAt.Some?
    && now >= (e.startsAt.value / DAY_MICROS + e.days.value - 6) * DAY_MICROS - 1
  }

  predicate Full(l: Limit, views: nat) {
    l.enabled && l.maxViews.Some? && l.maxViews.value != 0 && views >= l.maxViews.value
  }

  lemma EndExactly(w: Window)
    ensures w.Expired() <==> PastEnd(w.stored.expiry, w.now)
    ensures w.ExpiringSoon() <==> NearEnd(w.stored.expiry, w.now) && !PastEnd(w.stored.expiry, w.now)
  {
    var e := w.stored.expiry;
    if w.ExpiresAt().Some? {
      DayEnd(e.startsAt.value, e.days.value);
    }
  }

  lemma DayEnd(startsAt: int, days: int)
    ensures ComputeExpiresAt(startsAt, days) == (startsAt / DAY_MICROS + days + 1) * DAY_MICROS - 1
  {
    var moment := startsAt + days * DAY_MICROS;
    assert moment / DAY_MICROS == startsAt / DAY_MICROS + days;
    assert moment - moment % DAY_MICROS == moment / DAY_MICROS * DAY_MICROS;
  }

  /** The reasons a link is closed, each exactly when its own part of the window says so, in this order. */
  lemma ReasonsExactly(w: Window)
    ensures Unpublished in w.Reasons() <==> !w.published
    ensures PastExpiry in w.Reasons() <==> PastEnd(w.stored.expiry, w.now)
    ensures ViewLimit in w.Reasons() <==> Full(w.stored.limit, w.views)
    ensures Declined in w.Reasons() <==> w.stored.manual == Some(SetDeclined)
    ensures w.Accessible() <==> w.published && !PastEnd(w.stored.expiry, w.now) && !Full(w.stored.limit, w.views)
                                && w.stored.manual != Some(SetDeclined)
    ensures forall i, j :: 0 <= i < j < |w.Reasons()| ==> Order(w.Reasons()[i]) < Order(w.Reasons()[j])
  {
    EndExactly(w);
  }

  function Order(r: Reason): nat {
    match r
    case Unpublished => 0
    case PastExpiry => 1
    case ViewLimit => 2
    case Declined => 3
  }

  /** The badge: a decline by hand shows before a full page does. */
  lemma BadgeExactly(w: Window)
    ensures var past, full, declined := PastEnd(w.stored.expiry, w.now), Full(w.stored.limit, w.views),
                                        w.stored.manual == Some(SetDeclined);
            && (w.Status() == DraftBadge <==> !w.published)
            && (w.Status() == DeclinedBadge <==> w.published && (past || declined))
            && (w.Status() == ViewLimitBadge <==> w.published && !past && !declined && full)
            && (w.Status() == ExpiringBadge <==>
                  w.published && !past && !declined && !full && NearEnd(w.stored.expiry, w.now))
            && (w.Status() == LiveBadge <==>
                  w.published && !past && !declined && !full && !NearEnd(w.stored.expiry, w.now))
  {
    EndExactly(w);
  }

  /** The buyer is told a full page is full before it is said to be declined. */
  lemma BuyerExactly(w: Window)
    ensures var past, full, declined := PastEnd(w.stored.expiry, w.now), Full(w.stored.limit, w.views),
                                        w.stored.manual == Some(SetDeclined);
            && (w.BuyerState() == BuyerClosed(Unpublished) <==> !w.published)
            && (w.BuyerState() == BuyerClosed(PastExpiry) <==> w.published && past)
            && (w.BuyerState() == BuyerClosed(ViewLimit) <==> w.published && !past && full)
            && (w.BuyerState() == BuyerClosed(Declined) <==> w.published && !past && !full && declined)
            && (w.BuyerState() == BuyerWarned <==>
                  w.published && !past && !declined && !full && NearEnd(w.stored.expiry, w.now))
  {
    EndExactly(w);
  }

  // ------------------------------------------------------------------------
  // What each request is for
  // ------------------------------------------------------------------------

  /** The page as a request leaves it. */
  function Left(r: Request, page: Page): Page
    requires Atomically(r, page).Ok?
  {
    Atomically(r, page).value
  }

  /** When a request is accepted: lengths from one day to ten years, caps from one view to ten million. */
  lemma AcceptedExactly(r: Request, page: Page)
    ensures Atomically(r, page).Ok? <==>
            match r
            case PutExpiry(enabled, days, _) => enabled ==> days.Some? && 1 <= days.value <= 3650
            case PutLimit(enabled, maxViews) => enabled ==> maxViews.Some? && 1 <= maxViews.value <= 10_000_000
            case _ => true
    ensures Atomically(r, page).Err? ==> Atomically(r, page) == Err(Invalid)
  {
  }

  /** A request writes once, leaves the page's room and publication alone, and only its own part of the window. */
  lemma LeavesTheRest(r: Request, page: Page)
    requires Atomically(r, page).Ok?
    ensures var left := Left(r, page);
            && left.room == page.room && left.published == page.published && left.revision == page.revision + 1
            && (!r.PutExpiry? && !r.DeleteExpiry? && !r.RevivePage? ==> left.stored.expiry == page.stored.expiry)
            && (!r.PutLimit? && !r.DeleteLimit? ==> left.stored.limit == page.stored.limit)
            && (!r.DeclinePage? && !r.RevivePage? ==> left.stored.manual == page.stored.manual)
  {
  }

  /** A declined page is closed to everybody, whatever its views and the time. */
  lemma DeclineCloses(page: Page, views: nat, now: int)
    ensures Atomically(DeclinePage, page).Ok?
    ensures !Left(DeclinePage, page).At(views, now).Accessible()
    ensures Declined in Left(DeclinePage, page).At(views, now).Reasons()
  {
    ReasonsExactly(Left(DeclinePage, page).At(views, now));
  }

  /** A revived one is not closed by hand. */
  lemma ReviveUndeclines(page: Page, at: int, views: nat, now: int)
    ensures Atomically(RevivePage(at), page).Ok?
    ensures Declined !in Left(RevivePage(at), page).At(views, now).Reasons()
  {
    ReasonsExactly(Left(RevivePage(at), page).At(views, now));
  }

  /** A cap of n closes the page exactly from n views on. */
  lemma CapCloses(page: Page, n: int, views: nat, now: int)
    requires 1 <= n <= 10_000_000
    ensures ViewLimit in Left(PutLimit(true, Some(n)), page).At(views, now).Reasons() <==> views >= n
  {
    ReasonsExactly(Left(PutLimit(true, Some(n)), page).At(views, now));
  }

  /** Without a cap no number of views closes it. */
  lemma NoCapNeverCloses(page: Page, r: Request, views: nat, now: int)
    requires r == DeleteLimit || (r.PutLimit? && !r.enabled)
    ensures Atomically(r, page).Ok? && ViewLimit !in Left(r, page).At(views, now).Reasons()
  {
    ReasonsExactly(Left(r, page).At(views, now));
  }

  /** An expiry of n days set on a published page leaves it open for n days and closes it by the end of the next. */
  lemma ExpiryCloses(page: Page, n: int, t: int, views: nat, now: int)
    requires page.published && 1 <= n <= 3650
    ensures var w := Left(PutExpiry(true, Some(n), t), page).At(views, now);
            && (t <= now <= t + n * DAY_MICROS ==> PastExpiry !in w.Reasons())
            && (now >= t + (n + 1) * DAY_MICROS ==> PastExpiry in w.Reasons())
            && (PastExpiry in w.Reasons() <==> now >= (t / DAY_MICROS + n + 1) * DAY_MICROS)
  {
    ReasonsExactly(Left(PutExpiry(true, Some(n), t), page).At(views, now));
    assert t == t / DAY_MICROS * DAY_MICROS + t % DAY_MICROS;
  }

  /** Set on a draft, switched off or deleted, it never does. */
  lemma NoExpiryNeverCloses(page: Page, r: Request, views: nat, now: int)
    requires Atomically(r, page).Ok? && (r == DeleteExpiry || (r.PutExpiry? && (!r.enabled || !page.published)))
    ensures PastExpiry !in Left(r, page).At(views, now).Reasons()
  {
    ReasonsExactly(Left(r, page).At(views, now));
  }

  /** What a run leaves of the parts its last naming patches set. */
  lemma LastNamed(page: Page, views: nat, steps: seq<Step>, i: nat)
    requires i < |Run(Start(page, views), steps).log|
    ensures var s := Run(Start(page, views), steps);
            && (s.log[i].manual.Some? && (forall j :: i < j < |s.log| ==> s.log[j].manual.None?) ==>
                  s.page.stored.manual == s.log[i].manual)
            && (s.log[i].limit.Some? && (forall j :: i < j < |s.log| ==> s.log[j].limit.None?) ==>
                  Some(s.page.stored.limit) == s.log[i].limit)
  {
    Serialisable(page, views, steps);
    HalvesSurvive(page.stored, Run(Start(page, views), steps).log, i);
  }

  /**
   In any interleaving, once a decline is committed the page stays closed, whatever
   else is written, until a later committed patch names the flag.
   */
  lemma DeclinedUntilNamed(page: Page, views: nat, steps: seq<Step>, i: nat, prepared: Page, count: nat, now: int)
    requires var log := Run(Start(page, views), steps).log;
             i < |log| && PatchFor(DeclinePage, prepared) == Ok(log[i])
             && forall j :: i < j < |log| ==> log[j].manual.None?
    ensures !Run(Start(page, views), steps).page.At(count, now).Accessible()
  {
    LastNamed(page, views, steps, i);
    ReasonsExactly(Run(Start(page, views), steps).page.At(count, now));
  }

  /** And a committed cap holds until a later committed patch names the cap. */
  lemma CappedUntilNamed(page: Page, views: nat, steps: seq<Step>, i: nat, prepared: Page, n: int, count: nat, now: int)
    requires 1 <= n <= 10_000_000
    requires var log := Run(Start(page, views), steps).log;
             i < |log| && PatchFor(PutLimit(true, Some(n)), prepared) == Ok(log[i])
             && forall j :: i < j < |log| ==> log[j].limit.None?
    ensures ViewLimit in Run(Start(page, views), steps).page.At(count, now).Reasons() <==> count >= n
  {
    var after := Run(Start(page, views), steps).page;
    assert after.stored.limit == Limit(true, Some(n)) by { LastNamed(page, views, steps, i); }
    LimitCloses(after.At(count, now), n);
  }

  lemma LimitCloses(w: Window, n: int)
    requires w.stored.limit == Limit(true, Some(n)) && n >= 1
    ensures ViewLimit in w.Reasons() <==> w.views >= n
  {
    ReasonsExactly(w);
  }

  /** Between requests, a decline is the seller's request, a view counts if the page is open, and time passes. */
  lemma EventsExactly(page: Page, views: nat, now: int, elapsed: nat)
    ensures Happens(page.At(views, now), Decline) == Left(DeclinePage, page).At(views, now)
    ensures Happens(page.At(views, now), View)
            == page.At(if page.At(views, now).Accessible() then views + 1 else views, now)
    ensures Happens(page.At(views, now), Tick(elapsed)) == page.At(views, now + elapsed)
  {
  }

  // ------------------------------------------------------------------------
  // Who may ask
  // ------------------------------------------------------------------------

  /** A missing page or room is reported first, then a caller who may not, then a request that is not valid. */
  lemma RefusedExactly(pages: map<string, Page>, rooms: set<string>, id: string, allowed: bool, r: Request)
    ensures var outcome, there := Handled(pages, rooms, id, allowed, r),
                                  id in pages && (pages[id].room == "" || pages[id].room in rooms);
            && (outcome == Err(NotFound) <==> !there)
            && (outcome == Err(Forbidden) <==> there && !allowed)
            && (outcome == Err(Invalid) <==> there && allowed && Atomically(r, pages[id]).Err?)
            && (outcome.Ok? ==> outcome.value == Left(r, pages[id]))
            && outcome != Err(Conflict)
            && (After(pages, id, outcome) == if outcome.Ok? then pages[id := outcome.value] else pages)
  {
    if id in pages { AcceptedExactly(r, pages[id]); }
  }

  /** Where the rows that name a page are. */
  function Naming(rows: seq<ViewRow>, page: string): set<nat> {
    set i: nat | i < |rows| && rows[i].page == page
  }

  /** The views of a page are the rows that name it. */
  lemma {:induction false} ViewsExactly(rows: seq<ViewRow>, page: string)
    ensures CountViews(rows, page) == |Naming(rows, page)|
  {
    if rows == [] {
      assert Naming(rows, page) == {};
    } else {
      var n := |rows| - 1;
      ViewsExactly(rows[..n], page);
      assert Naming(rows, page) == Naming(rows[..n], page) + if rows[n].page == page then {n} else {};
    }
  }
}

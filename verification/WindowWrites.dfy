/**
 Writing access windows: what each request asks for, how writers and buyers
 interleave, and the service that performs one request at a time.
 */
module WindowWrites {
  import opened AccessWindow
  import opened Instants
  import opened Prelude

  datatype Page = Page(room: string, published: bool, stored: Stored, revision: nat) {
    function At(views: nat, now: int): Window {
      Window(published, stored, views, now)
    }
  }

  /** A seller's request; `at` is the clock when it is made. */
  datatype Request =
    | PutExpiry(enabled: bool, days: Option<int>, at: int)
    | DeleteExpiry
    | PutLimit(enabled: bool, maxViews: Option<int>)
    | DeleteLimit
    | DeclinePage
    | RevivePage(at: int)

  datatype Refusal = NotFound | Forbidden | Invalid | Conflict

  /** The parts of the window a write replaces. */
  datatype Patch = Patch(expiry: Option<Expiry>, limit: Option<Limit>, manual: Option<Manual>)

  const NO_CHANGE := Patch(None, None, None)

  function ValidateExpiry(enabled: bool, days: Option<int>): Result<Expiry, Refusal> {
    if !enabled then Ok(NO_EXPIRY)
    else if days.None? || days.value < 1 || days.value > MAX_EXPIRY_DAYS then Err(Invalid)
    else Ok(Expiry(true, days, None))
  }

  function ValidateLimit(enabled: bool, maxViews: Option<int>): Result<Limit, Refusal> {
    if !enabled then Ok(NO_LIMIT)
    else if maxViews.None? || maxViews.value < 1 || maxViews.value > MAX_VIEWS then Err(Invalid)
    else Ok(Limit(true, maxViews))
  }

  /** Expiry is switched on and long enough to count. */
  predicate Counts(e: Expiry) {
    e.enabled && e.days.Some? && e.days.value != 0
  }

  /** The patch a request writes, computed from the page as the request found it. */
  function PatchFor(r: Request, page: Page): Result<Patch, Refusal> {
    match r
    case PutExpiry(enabled, days, at) =>
      var fragment := ValidateExpiry(enabled, days);
      if fragment.Err? then Err(fragment.error)
      else Ok(NO_CHANGE.(expiry := Some(fragment.value.(startsAt := if page.published then Some(at) else None))))
    case DeleteExpiry => Ok(NO_CHANGE.(expiry := Some(NO_EXPIRY)))
    case PutLimit(enabled, maxViews) =>
      var fragment := ValidateLimit(enabled, maxViews);
      if fragment.Err? then Err(fragment.error) else Ok(NO_CHANGE.(limit := Some(fragment.value)))
    case DeleteLimit => Ok(NO_CHANGE.(limit := Some(NO_LIMIT)))
    case DeclinePage => Ok(NO_CHANGE.(manual := Some(SetDeclined)))
    case RevivePage(at) =>
      var e := page.stored.expiry;
      Ok(Patch(if Counts(e) then Some(e.(startsAt := Some(at))) else None, None, Some(SetLive)))
  }

  function Merge(s: Stored, p: Patch): Stored {
    Stored(if p.expiry.Some? then p.expiry.value else s.expiry,
           if p.limit.Some? then p.limit.value else s.limit,
           if p.manual.Some? then p.manual else s.manual)
  }

  function MergeAll(s: Stored, patches: seq<Patch>): Stored {
    if patches == [] then s else Merge(MergeAll(s, patches[..|patches| - 1]), patches[|patches| - 1])
  }

  // ------------------------------------------------------------------------
  // The interleaved system
  // ------------------------------------------------------------------------

  /** A writer first works out its patch, then reads the window with its revision, then writes. */
  datatype Writer = Prepared(patch: Patch) | Loaded(patch: Patch, snapshot: Stored, revision: nat)

  /** One page, its recorded views, the writers and buyers in flight, and the patches committed so far. */
  datatype System = System(page: Page, views: nat, writers: map<nat, Writer>, buyers: set<nat>, log: seq<Patch>)

  datatype Step =
    | Prepare(w: nat, request: Request)
    | Load(w: nat)
    | Commit(w: nat)
    /** Another feature writes the page, perhaps publishing or unpublishing it. */
    | WriteElsewhere(published: bool)
    /** A buyer arrives, is checked, and later has the opening recorded. */
    | Check(b: nat, now: int)
    | Record(b: nat)

  function Next(s: System, step: Step): System {
    match step
    case Prepare(w, request) =>
      var patch := PatchFor(request, s.page);
      if w in s.writers || patch.Err? then s else s.(writers := s.writers[w := Prepared(patch.value)])
    case Load(w) =>
      if w in s.writers && s.writers[w].Prepared? then
        s.(writers := s.writers[w := Loaded(s.writers[w].patch, s.page.stored, s.page.revision)])
      else s
    case Commit(w) =>
      if w in s.writers && s.writers[w].Loaded? then
        var writer := s.writers[w];
        var done := s.(writers := s.writers - {w});
        if writer.revision != s.page.revision then done
        else done.(page := s.page.(stored := Merge(writer.snapshot, writer.patch), revision := s.page.revision + 1),
                   log := s.log + [writer.patch])
      else s
    case WriteElsewhere(published) => s.(page := s.page.(published := published, revision := s.page.revision + 1))
    case Check(b, now) =>
      if b !in s.buyers && s.page.At(s.views, now).Accessible() then s.(buyers := s.buyers + {b}) else s
    case Record(b) => if b in s.buyers then s.(views := s.views + 1, buyers := s.buyers - {b}) else s
  }

  function Run(s: System, steps: seq<Step>): System {
    if steps == [] then s else Next(Run(s, steps[..|steps| - 1]), steps[|steps| - 1])
  }

  function Start(page: Page, views: nat): System {
    System(page, views, map[], {}, [])
  }

  // ------------------------------------------------------------------------
  // Serialisability
  // ------------------------------------------------------------------------

  /** A writer whose revision is current holds the current window. */
  ghost predicate Coherent(s: System) {
    forall w :: w in s.writers && s.writers[w].Loaded? ==>
      s.writers[w].revision <= s.page.revision
      && (s.writers[w].revision == s.page.revision ==> s.writers[w].snapshot == s.page.stored)
  }

  lemma NextCoherent(s: System, step: Step)
    requires Coherent(s)
    ensures Coherent(Next(s, step))
    ensures Next(s, step).page.stored ==
            if |Next(s, step).log| == |s.log| then s.page.stored
            else Merge(s.page.stored, Next(s, step).log[|s.log|])
    ensures s.log <= Next(s, step).log && |Next(s, step).log| <= |s.log| + 1
  {
  }

  lemma {:induction false} RunCoherent(page: Page, views: nat, steps: seq<Step>)
    ensures Coherent(Run(Start(page, views), steps))
    ensures Run(Start(page, views), steps).page.stored == MergeAll(page.stored, Run(Start(page, views), steps).log)
  {
    if steps != [] {
      var before := Run(Start(page, views), steps[..|steps| - 1]);
      var after := Next(before, steps[|steps| - 1]);
      RunCoherent(page, views, steps[..|steps| - 1]);
      NextCoherent(before, steps[|steps| - 1]);
      if |after.log| != |before.log| {
        assert after.log[..|after.log| - 1] == before.log;
      } else {
        assert after.log == before.log;
      }
    }
  }

  /** In any interleaving the window is the committed patches applied one after another, in commit order. */
  lemma Serialisable(page: Page, views: nat, steps: seq<Step>)
    ensures Run(Start(page, views), steps).page.stored == MergeAll(page.stored, Run(Start(page, views), steps).log)
  {
    RunCoherent(page, views, steps);
  }

  /**
   A refused commit leaves the page and the log alone; an accepted one applies its own
   patch to the current window.
   */
  lemma CommitOutcome(page: Page, views: nat, steps: seq<Step>, w: nat)
    requires var s := Run(Start(page, views), steps); w in s.writers && s.writers[w].Loaded?
    ensures var s := Run(Start(page, views), steps);
            var t := Next(s, Commit(w));
            && w !in t.writers && t.views == s.views
            && if s.writers[w].revision != s.page.revision then t.page == s.page && t.log == s.log
               else t.log == s.log + [s.writers[w].patch]
                    && t.page == s.page.(stored := Merge(s.page.stored, s.writers[w].patch),
                                         revision := s.page.revision + 1)
  {
    RunCoherent(page, views, steps);
  }

  /** A committed half of the window survives until a later committed patch names it. */
  lemma {:induction false} HalvesSurvive(s: Stored, log: seq<Patch>, i: nat)
    requires i < |log|
    ensures log[i].expiry.Some? && (forall j :: i < j < |log| ==> log[j].expiry.None?) ==>
            MergeAll(s, log).expiry == log[i].expiry.value
    ensures log[i].limit.Some? && (forall j :: i < j < |log| ==> log[j].limit.None?) ==>
            MergeAll(s, log).limit == log[i].limit.value
    ensures log[i].manual.Some? && (forall j :: i < j < |log| ==> log[j].manual.None?) ==>
            MergeAll(s, log).manual == log[i].manual
  {
    if i < |log| - 1 {
      HalvesSurvive(s, log[..|log| - 1], i);
    }
  }

  /** A request that ran alone. */
  function Atomically(r: Request, page: Page): Result<Page, Refusal> {
    var patch := PatchFor(r, page);
    if patch.Err? then Err(patch.error)
    else Ok(page.(stored := Merge(page.stored, patch.value), revision := page.revision + 1))
  }

  /** Prepare, load and commit with nothing in between is the request run alone. */
  lemma UninterruptedIsAtomic(s: System, w: nat, r: Request)
    requires w !in s.writers
    ensures var t := Next(Next(Next(s, Prepare(w, r)), Load(w)), Commit(w));
            match Atomically(r, s.page)
            case Ok(page) => t == s.(page := page, log := s.log + [PatchFor(r, s.page).value])
            case Err(_) => t == s
  {
    if PatchFor(r, s.page).Ok? {
      var t := Next(Next(Next(s, Prepare(w, r)), Load(w)), Commit(w));
      assert t.writers == s.writers;
    }
  }

  // ------------------------------------------------------------------------
  // What the revision check does not protect
  // ------------------------------------------------------------------------

  /**
   A patch worked out from an earlier page still says what the request would say now.
   Setting an expiry looks at publication, reviving looks at the expiry setting; the
   other requests look at nothing.
   */
  predicate StillFresh(r: Request, prepared: Page, current: Page) {
    match r
    case PutExpiry(_, _, _) => prepared.published == current.published
    case RevivePage(at) =>
      var before, now := prepared.stored.expiry, current.stored.expiry;
      if Counts(before) then Counts(now) && before.days == now.days
      else !Counts(now) || now.startsAt == Some(at)
    case _ => true
  }

  /** A commit has the effect of its request at that moment exactly when the patch is still fresh. */
  lemma StaleExactly(r: Request, prepared: Page, current: Page)
    requires PatchFor(r, prepared).Ok?
    ensures PatchFor(r, current).Ok?
    ensures Merge(current.stored, PatchFor(r, prepared).value) == Merge(current.stored, PatchFor(r, current).value)
            <==> StillFresh(r, prepared, current)
  {
  }

  /**
   So an accepted change can be lost: a revival prepared before a seller lengthens
   the expiry, and loaded after, commits the old length without any conflict.
   */
  lemma LostLengthening(page: Page, t: int)
    requires page.published && page.stored.expiry == Expiry(true, Some(30), Some(0))
    ensures var s := Run(Start(page, 0), [Prepare(0, RevivePage(t)), Prepare(1, PutExpiry(true, Some(60), t)),
                                          Load(1), Commit(1), Load(0), Commit(0)]);
            && |s.log| == 2 && s.log[0].expiry == Some(Expiry(true, Some(60), Some(t)))
            && s.page.stored.expiry == Expiry(true, Some(30), Some(t))
  {
    var s1 := Next(Start(page, 0), Prepare(0, RevivePage(t)));
    var s4 := Next(Next(Next(s1, Prepare(1, PutExpiry(true, Some(60), t))), Load(1)), Commit(1));
    RunSix(Start(page, 0), Prepare(0, RevivePage(t)), Prepare(1, PutExpiry(true, Some(60), t)), Load(1), Commit(1),
           Load(0), Commit(0));
    UninterruptedIsAtomic(s1, 1, PutExpiry(true, Some(60), t));
    LoadThenCommit(s4, 0);
  }

  lemma RunSix(s: System, a: Step, b: Step, c: Step, d: Step, e: Step, f: Step)
    ensures Run(s, [a, b, c, d, e, f]) == Next(Next(Next(Next(Next(Next(s, a), b), c), d), e), f)
  {
    assert [a, b, c, d, e, f] == [a, b, c] + [d, e, f];
    RunConcat(s, [a, b, c], [d, e, f]);
    RunThree(s, a, b, c);
    RunThree(Run(s, [a, b, c]), d, e, f);
  }

  lemma RunThree(s: System, a: Step, b: Step, c: Step)
    ensures Run(s, [a, b, c]) == Next(Next(Next(s, a), b), c)
  {
    assert [a, b, c][..2] == [a, b] && [a, b][..1] == [a] && [a][..0] == [];
    assert Run(s, [a]) == Next(s, a);
    assert Run(s, [a, b]) == Next(Next(s, a), b);
  }

  lemma {:induction false} RunConcat(s: System, a: seq<Step>, b: seq<Step>)
    ensures Run(s, a + b) == Run(Run(s, a), b)
  {
    if b == [] {
      assert a + b == a;
    } else {
      RunConcat(s, a, b[..|b| - 1]);
      assert (a + b)[..|a + b| - 1] == a + b[..|b| - 1];
    }
  }

  lemma LoadThenCommit(s: System, w: nat)
    requires w in s.writers && s.writers[w].Prepared?
    ensures var t := Next(Next(s, Load(w)), Commit(w));
            t.log == s.log + [s.writers[w].patch] && t.page.stored == Merge(s.page.stored, s.writers[w].patch)
  {
  }

  // ------------------------------------------------------------------------
  // An expiry set on a draft
  // ------------------------------------------------------------------------

  /** Step j of the run worked the patch out. */
  ghost predicate PreparedAt(page: Page, views: nat, steps: seq<Step>, j: nat, patch: Patch) {
    && j < |steps| && steps[j].Prepare?
    && PatchFor(steps[j].request, Run(Start(page, views), steps[..j]).page) == Ok(patch)
  }

  ghost predicate HasOrigin(page: Page, views: nat, steps: seq<Step>, patch: Patch) {
    exists j: nat :: PreparedAt(page, views, steps, j, patch)
  }

  lemma OriginStays(page: Page, views: nat, steps: seq<Step>, step: Step, patch: Patch)
    requires HasOrigin(page, views, steps, patch)
    ensures HasOrigin(page, views, steps + [step], patch)
  {
    var j: nat :| PreparedAt(page, views, steps, j, patch);
    assert (steps + [step])[..j] == steps[..j];
    assert PreparedAt(page, views, steps + [step], j, patch);
  }

  /** Every patch in a writer's hands or in the log was worked out by some step. */
  ghost predicate Originated(page: Page, views: nat, steps: seq<Step>, s: System) {
    && (forall w :: w in s.writers ==> HasOrigin(page, views, steps, s.writers[w].patch))
    && (forall i :: 0 <= i < |s.log| ==> HasOrigin(page, views, steps, s.log[i]))
  }

  /** A step works out at most its own patch. */
  lemma NextPatches(s: System, step: Step, patch: Patch)
    ensures var t := Next(s, step);
            (exists w :: w in t.writers && t.writers[w].patch == patch) || patch in t.log ==>
              || (exists w :: w in s.writers && s.writers[w].patch == patch) || patch in s.log
              || (step.Prepare? && PatchFor(step.request, s.page) == Ok(patch))
  {
  }

  lemma {:induction false} RunOriginated(page: Page, views: nat, steps: seq<Step>)
    ensures Originated(page, views, steps, Run(Start(page, views), steps))
  {
    if steps != [] {
      var init, step := steps[..|steps| - 1], steps[|steps| - 1];
      var s := Run(Start(page, views), init);
      var next := Next(s, step);
      RunOriginated(page, views, init);
      assert steps == init + [step];
      forall patch | (exists w :: w in next.writers && next.writers[w].patch == patch) || patch in next.log
        ensures HasOrigin(page, views, steps, patch)
      {
        NextPatches(s, step, patch);
        if step.Prepare? && PatchFor(step.request, s.page) == Ok(patch) {
          assert PreparedAt(page, views, steps, |init|, patch);
        } else {
          OriginStays(page, views, init, step, patch);
        }
      }
    }
  }

  /** The clock of an expiry is left unset exactly by setting one on a draft. */
  lemma UnstartedExactly(r: Request, page: Page)
    requires PatchFor(r, page).Ok? && PatchFor(r, page).value.expiry.Some?
    ensures var e := PatchFor(r, page).value.expiry.value;
            e.enabled && e.startsAt.None? <==> r.PutExpiry? && r.enabled && !page.published
  {
  }

  /**
   Publishing starts no clock. In any interleaving, if entry i of the log is the last
   that names the expiry, the stored expiry is on with no clock exactly if the page
   was a draft when that request was worked out, published since or not; and with no
   clock the page never expires.
   */
  lemma DraftExpiryNeverStarts(page: Page, views: nat, steps: seq<Step>, i: nat)
    requires var log := Run(Start(page, views), steps).log;
             i < |log| && log[i].expiry.Some? && forall j :: i < j < |log| ==> log[j].expiry.None?
    ensures var s := Run(Start(page, views), steps);
            var e := s.page.stored.expiry;
            && Some(e) == s.log[i].expiry
            && (exists j: nat :: PreparedAt(page, views, steps, j, s.log[i])
                  && (e.enabled && e.startsAt.None? <==>
                        var r := steps[j].request;
                        r.PutExpiry? && r.enabled && !Run(Start(page, views), steps[..j]).page.published))
            && (e.startsAt.None? ==> forall now :: !s.page.At(s.views, now).Expired())
  {
    var s := Run(Start(page, views), steps);
    Serialisable(page, views, steps);
    HalvesSurvive(page.stored, s.log, i);
    RunOriginated(page, views, steps);
    var j: nat :| PreparedAt(page, views, steps, j, s.log[i]);
    UnstartedExactly(steps[j].request, Run(Start(page, views), steps[..j]).page);
  }

  // ------------------------------------------------------------------------
  // The view cap under concurrency
  // ------------------------------------------------------------------------

  const LONG_AGO := 0

  /** The window always holds cap `c`, and never more than `k` buyers are between check and record. */
  ghost predicate Steady(s: System, c: int, k: nat) {
    s.page.stored.limit == Limit(true, Some(c)) && |s.buyers| <= k
  }

  ghost predicate SteadyThroughout(s: System, steps: seq<Step>, c: int, k: nat) {
    Steady(Run(s, steps), c, k) && (steps != [] ==> SteadyThroughout(s, steps[..|steps| - 1], c, k))
  }

  lemma StepOvershoot(s: System, step: Step, c: int, k: nat)
    requires c >= 1 && Steady(s, c, k) && Steady(Next(s, step), c, k)
    ensures Next(s, step).views + |Next(s, step).buyers| <= Max(s.views + |s.buyers|, c + k - 1)
  {
    if step.Check? && Next(s, step) != s {
      assert !s.page.At(s.views, step.now).Capped();
    }
  }

  /** Buyers who were already checked are recorded; nobody is checked at or past the cap. */
  lemma {:induction false} OvershootInFlight(s: System, steps: seq<Step>, c: int, k: nat)
    requires c >= 1 && SteadyThroughout(s, steps, c, k)
    ensures Run(s, steps).views + |Run(s, steps).buyers| <= Max(s.views + |s.buyers|, c + k - 1)
  {
    if steps != [] {
      OvershootInFlight(s, steps[..|steps| - 1], c, k);
      StepOvershoot(Run(s, steps[..|steps| - 1]), steps[|steps| - 1], c, k);
    }
  }

  /** With at most k buyers in flight, a fixed cap c is never overshot by more than k - 1 views. */
  lemma OvershootBound(page: Page, views: nat, steps: seq<Step>, c: int, k: nat)
    requires c >= 1 && SteadyThroughout(Start(page, views), steps, c, k)
    ensures Run(Start(page, views), steps).views <= Max(views, c + k - 1)
  {
    OvershootInFlight(Start(page, views), steps, c, k);
  }

  /** One buyer at a time never overshoots. */
  lemma NoOvershootAlone(page: Page, views: nat, steps: seq<Step>, c: int)
    requires c >= 1 && SteadyThroughout(Start(page, views), steps, c, 1)
    ensures Run(Start(page, views), steps).views <= Max(views, c)
  {
    OvershootBound(page, views, steps, c, 1);
  }

  /** An open page whose only constraint is its cap. */
  predicate OnlyCapped(page: Page, c: int) {
    page.published && page.stored == Stored(NO_EXPIRY, Limit(true, Some(c)), None)
  }

  /** A steady run, taken one step further. */
  lemma Onward(start: System, steps: seq<Step>, s: System, step: Step, next: System, c: int, k: nat)
    returns (more: seq<Step>)
    requires SteadyThroughout(start, steps, c, k) && Run(start, steps) == s && Next(s, step) == next
             && Steady(next, c, k)
    ensures SteadyThroughout(start, more, c, k) && Run(start, more) == next
  {
    more := steps + [step];
    assert more[..|steps|] == steps;
  }

  lemma CheckOne(page: Page, c: int, views: nat, n: nat)
    requires OnlyCapped(page, c) && views < c
    ensures Next(Start(page, views).(buyers := UpTo(n)), Check(n, LONG_AGO))
            == Start(page, views).(buyers := UpTo(n + 1))
  {
  }

  /** Buyers who come and go one at a time, below the cap. */
  lemma {:induction false} OneByOne(page: Page, c: int, k: nat, n: nat) returns (steps: seq<Step>)
    requires OnlyCapped(page, c) && n < c && k >= 1
    ensures SteadyThroughout(Start(page, 0), steps, c, k) && Run(Start(page, 0), steps) == Start(page, n)
  {
    steps := [];
    if n > 0 {
      steps := OneByOne(page, c, k, n - 1);
      var s, checked := Start(page, n - 1), Start(page, n - 1).(buyers := UpTo(1));
      assert UpTo(0) == {};
      CheckOne(page, c, n - 1, 0);
      steps := Onward(Start(page, 0), steps, s, Check(0, LONG_AGO), checked, c, k);
      RecordOne(page, n - 1, 0);
      steps := Onward(Start(page, 0), steps, checked, Record(0), Start(page, n), c, k);
    }
  }

  /** At one view below the cap, k buyers are checked together. */
  lemma {:induction false} AllChecked(page: Page, c: int, k: nat, n: nat) returns (steps: seq<Step>)
    requires OnlyCapped(page, c) && c >= 1 && n <= k && k >= 1
    ensures SteadyThroughout(Start(page, 0), steps, c, k)
            && Run(Start(page, 0), steps) == Start(page, c - 1).(buyers := UpTo(n))
  {
    if n == 0 {
      steps := OneByOne(page, c, k, c - 1);
    } else {
      steps := AllChecked(page, c, k, n - 1);
      var s, next := Start(page, c - 1).(buyers := UpTo(n - 1)), Start(page, c - 1).(buyers := UpTo(n));
      CheckOne(page, c, c - 1, n - 1);
      steps := Onward(Start(page, 0), steps, s, Check(n - 1, LONG_AGO), next, c, k);
    }
  }

  lemma RecordOne(page: Page, views: nat, n: nat)
    ensures Next(Start(page, views).(buyers := UpTo(n + 1)), Record(n)) == Start(page, views + 1).(buyers := UpTo(n))
  {
    assert UpTo(n + 1) - {n} == UpTo(n);
  }

  /** And then all recorded. */
  lemma {:induction false} AllRecorded(page: Page, c: int, k: nat, n: nat) returns (steps: seq<Step>)
    requires OnlyCapped(page, c) && c >= 1 && n <= k && k >= 1
    ensures SteadyThroughout(Start(page, 0), steps, c, k)
    ensures Run(Start(page, 0), steps) == Start(page, c - 1 + (k - n)).(buyers := UpTo(n))
    decreases k - n
  {
    if n == k {
      steps := AllChecked(page, c, k, k);
    } else {
      steps := AllRecorded(page, c, k, n + 1);
      var views := c - 1 + (k - n - 1);
      RecordOne(page, views, n);
      steps := Onward(Start(page, 0), steps, Start(page, views).(buyers := UpTo(n + 1)), Record(n),
                      Start(page, views + 1).(buyers := UpTo(n)), c, k);
    }
  }

  /** The bound is met: some interleaving of k buyers records exactly c + k - 1 views. */
  lemma OvershootAttained(page: Page, c: int, k: nat)
    requires OnlyCapped(page, c) && c >= 1 && k >= 1
    ensures exists steps ::
              SteadyThroughout(Start(page, 0), steps, c, k) && Run(Start(page, 0), steps).views == c + k - 1
  {
    var steps := AllRecorded(page, c, k, 0);
  }

  // ------------------------------------------------------------------------
  // Revival
  // ------------------------------------------------------------------------

  /** Every stored window the requests can produce. */
  predicate Wellformed(s: Stored) {
    && (if s.expiry.enabled then s.expiry.days.Some? && 1 <= s.expiry.days.value <= MAX_EXPIRY_DAYS
        else s.expiry.days.None?)
    && (if s.limit.enabled then s.limit.maxViews.Some? && 1 <= s.limit.maxViews.value <= MAX_VIEWS
        else s.limit.maxViews.None?)
  }

  lemma PatchWellformed(r: Request, page: Page, s: Stored)
    requires Wellformed(page.stored) && Wellformed(s) && PatchFor(r, page).Ok?
    ensures Wellformed(Merge(s, PatchFor(r, page).value))
  {
  }

  /** Well-formed parts only: what a patch may write over any well-formed window. */
  ghost predicate SafePatch(p: Patch) {
    forall s :: Wellformed(s) ==> Wellformed(Merge(s, p))
  }

  ghost predicate AllWellformed(s: System) {
    Wellformed(s.page.stored) && forall w :: w in s.writers ==> SafePatch(s.writers[w].patch)
  }

  lemma NextWellformed(s: System, step: Step)
    requires Coherent(s) && AllWellformed(s)
    ensures AllWellformed(Next(s, step))
  {
    if step.Prepare? && PatchFor(step.request, s.page).Ok? {
      forall t | Wellformed(t) ensures Wellformed(Merge(t, PatchFor(step.request, s.page).value)) {
        PatchWellformed(step.request, s.page, t);
      }
    }
  }

  /** In any interleaving the stored window stays well formed. */
  lemma {:induction false} ReachableWellformed(page: Page, views: nat, steps: seq<Step>)
    requires Wellformed(page.stored)
    ensures AllWellformed(Run(Start(page, views), steps))
  {
    if steps != [] {
      ReachableWellformed(page, views, steps[..|steps| - 1]);
      RunCoherent(page, views, steps[..|steps| - 1]);
      NextWellformed(Run(Start(page, views), steps[..|steps| - 1]), steps[|steps| - 1]);
    }
  }

  /**
   Reviving a published page restarts its clock and nothing else: the cap stays as it
   was, and for the n days of an enabled expiry (for ever without one) the page is
   accessible exactly while its views are below any enabled cap.
   */
  lemma Revival(page: Page, at: int, views: nat, now: int)
    requires page.published && Wellformed(page.stored) && at <= now
    requires page.stored.expiry.enabled ==> now <= at + page.stored.expiry.days.value * DAY
    ensures Atomically(RevivePage(at), page).Ok?
    ensures var revived := Atomically(RevivePage(at), page).value;
            && revived.stored.limit == page.stored.limit
            && revived.stored.expiry.enabled == page.stored.expiry.enabled
            && revived.stored.expiry.days == page.stored.expiry.days
            && (revived.At(views, now).Accessible() <==>
                 (page.stored.limit.enabled ==> views < page.stored.limit.maxViews.value))
  {
    if page.stored.expiry.enabled {
      ExpirySpan(at, page.stored.expiry.days.value);
    }
  }

  // ------------------------------------------------------------------------
  // The service
  // ------------------------------------------------------------------------

  datatype ViewRow = ViewRow(page: string, viewer: Option<string>, at: int)

  function CountViews(rows: seq<ViewRow>, page: string): nat {
    if rows == [] then 0
    else CountViews(rows[..|rows| - 1], page) + if rows[|rows| - 1].page == page then 1 else 0
  }

  /** What a seller's request does to the pages, decided from the pages as they are. */
  function Handled(pages: map<string, Page>, rooms: set<string>, id: string, allowed: bool, r: Request)
    : Result<Page, Refusal>
  {
    if id !in pages then Err(NotFound)
    else if pages[id].room != "" && pages[id].room !in rooms then Err(NotFound)
    else if !allowed then Err(Forbidden)
    else Atomically(r, pages[id])
  }

  function After(pages: map<string, Page>, id: string, outcome: Result<Page, Refusal>): map<string, Page> {
    if outcome.Ok? then pages[id := outcome.value] else pages
  }

  class AccessControls {
    var pages: map<string, Page>
    var rooms: set<string>
    var views: seq<ViewRow>

    constructor (pages: map<string, Page>, rooms: set<string>)
      ensures this.pages == pages && this.rooms == rooms && views == []
    {
      this.pages, this.rooms, views := pages, rooms, [];
    }

    /** `allowed` is what the permission rules answer for this caller. */
    method RequireManage(id: string, allowed: bool) returns (page: Result<Page, Refusal>)
      ensures page.Ok? <==> id in pages && (pages[id].room == "" || pages[id].room in rooms) && allowed
      ensures page.Ok? ==> page.value == pages[id]
      ensures page.Err? ==> forall r :: Handled(pages, rooms, id, allowed, r) == Err(page.error)
    {
      if id !in pages { return Err(NotFound); }
      if pages[id].room != "" && pages[id].room !in rooms { return Err(NotFound); }
      if !allowed { return Err(Forbidden); }
      page := Ok(pages[id]);
    }

    /** The store's write: refused unless the page is still at the revision that was read. */
    method Update(id: string, stored: Stored, expected: nat) returns (page: Result<Page, Refusal>)
      requires id in pages
      modifies this`pages
      ensures if old(pages)[id].revision == expected
              then page == Ok(old(pages)[id].(stored := stored, revision := expected + 1))
                && pages == old(pages)[id := page.value]
              else page == Err(Conflict) && pages == old(pages)
    {
      if pages[id].revision != expected { return Err(Conflict); }
      page := Ok(pages[id].(stored := stored, revision := expected + 1));
      pages := pages[id := page.value];
    }

    /** Merge a patch into the stored window and write it once, at the revision it was read. */
    method WriteWindow(id: string, patch: Patch) returns (page: Result<Page, Refusal>)
      modifies this`pages
      ensures id !in old(pages) ==> page == Err(NotFound)
      ensures id in old(pages) ==>
                var was := old(pages)[id];
                page == Ok(was.(stored := Merge(was.stored, patch), revision := was.revision + 1))
      ensures pages == After(old(pages), id, page)
    {
      if id !in pages { return Err(NotFound); }
      var read := pages[id];
      page := Update(id, Merge(read.stored, patch), read.revision);
    }

    method SetExpiry(id: string, enabled: bool, days: Option<int>, allowed: bool, now: int)
      returns (page: Result<Page, Refusal>)
      modifies this`pages
      ensures page == Handled(old(pages), rooms, id, allowed, PutExpiry(enabled, days, now))
      ensures pages == After(old(pages), id, page)
    {
      page := RequireManage(id, allowed);
      if page.Err? { return; }
      var fragment := ValidateExpiry(enabled, days);
      if fragment.Err? { return Err(fragment.error); }
      var startsAt := if page.value.published then Some(now) else None;
      page := WriteWindow(id, NO_CHANGE.(expiry := Some(fragment.value.(startsAt := startsAt))));
    }

    method ClearExpiry(id: string, allowed: bool) returns (page: Result<Page, Refusal>)
      modifies this`pages
      ensures page == Handled(old(pages), rooms, id, allowed, DeleteExpiry)
      ensures pages == After(old(pages), id, page)
    {
      page := RequireManage(id, allowed);
      if page.Err? { return; }
      page := WriteWindow(id, NO_CHANGE.(expiry := Some(NO_EXPIRY)));
    }

    method SetViewLimit(id: string, enabled: bool, maxViews: Option<int>, allowed: bool)
      returns (page: Result<Page, Refusal>)
      modifies this`pages
      ensures page == Handled(old(pages), rooms, id, allowed, PutLimit(enabled, maxViews))
      ensures pages == After(old(pages), id, page)
    {
      page := RequireManage(id, allowed);
      if page.Err? { return; }
      var fragment := ValidateLimit(enabled, maxViews);
      if fragment.Err? { return Err(fragment.error); }
      page := WriteWindow(id, NO_CHANGE.(limit := Some(fragment.value)));
    }

    method ClearViewLimit(id: string, allowed: bool) returns (page: Result<Page, Refusal>)
      modifies this`pages
      ensures page == Handled(old(pages), rooms, id, allowed, DeleteLimit)
      ensures pages == After(old(pages), id, page)
    {
      page := RequireManage(id, allowed);
      if page.Err? { return; }
      page := WriteWindow(id, NO_CHANGE.(limit := Some(NO_LIMIT)));
    }

    method Decline(id: string, allowed: bool) returns (page: Result<Page, Refusal>)
      modifies this`pages
      ensures page == Handled(old(pages), rooms, id, allowed, DeclinePage)
      ensures pages == After(old(pages), id, page)
    {
      page := RequireManage(id, allowed);
      if page.Err? { return; }
      page := WriteWindow(id, NO_CHANGE.(manual := Some(SetDeclined)));
    }

    method Revive(id: string, allowed: bool, now: int) returns (page: Result<Page, Refusal>)
      modifies this`pages
      ensures page == Handled(old(pages), rooms, id, allowed, RevivePage(now))
      ensures pages == After(old(pages), id, page)
    {
      page := RequireManage(id, allowed);
      if page.Err? { return; }
      var patch := NO_CHANGE.(manual := Some(SetLive));
      var expiry := page.value.stored.expiry;
      if Counts(expiry) {
        patch := patch.(expiry := Some(expiry.(startsAt := Some(now))));
      }
      page := WriteWindow(id, patch);
    }

    /** Count one opening of the page, unless it is closed. */
    method RecordView(id: string, viewer: Option<string>, now: int) returns (refused: Option<Refusal>)
      modifies this`views
      ensures id !in pages ==> refused == Some(NotFound)
      ensures id in pages ==> (refused.None? <==> pages[id].At(CountViews(old(views), id), now).Accessible())
      ensures id in pages && refused.Some? ==> refused == Some(Conflict)
      ensures views == if refused.None? then old(views) + [ViewRow(id, viewer, now)] else old(views)
      ensures forall p :: CountViews(views, p) == CountViews(old(views), p) + if refused.None? && p == id then 1 else 0
    {
      if id !in pages { return Some(NotFound); }
      if !pages[id].At(CountViews(views, id), now).Accessible() { return Some(Conflict); }
      assert (views + [ViewRow(id, viewer, now)])[..|views|] == views;
      views := views + [ViewRow(id, viewer, now)];
      refused := None;
    }
  }
}

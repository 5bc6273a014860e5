# Deal-room services: a verified model

This project models four backend services of a digital sales room and proves what
they keep over every input and every run. The handlers run on threads; interleavings
are modelled for window writes, page views, first-view analytics rows, presentations
of a link, the requests of the domain service, policy writes, and collections read
while they are written; of overlapping configuration saves, what one late write does.
Everything else is proved over runs of one call at a time.

- **Analytics.** Activity is grouped into visits, visits and actions are drawn on
  dense charts, and rooms get totals, a trend, an engagement score and a follow-up
  score. Configuration is layered as JSON trees. Modules `Visits`, `VisitLaws`, `VisitRecords`,
  `Charts`, `ChartLaws`, `RoomStats`, `Scanning`, `Engagement`, `Config`,
  `OverlappingSaves`.
- **Access windows.** A page closes by expiry, by view cap or by hand; sellers write
  the window under optimistic concurrency while buyers open the page. Modules
  `AccessWindow`, `WindowWrites`, `WindowRequests`.
- **Custom domains.** Rooms claim, recheck and release hostnames and are found by a
  link secret. Modules `Hostnames`, `HostForms`, `Domains`, `DomainRequests`,
  `DomainLaws`, `OverlappingClaims`.
- **The identity gate.** Policies are validated, stored and resolved through
  templates; sessions are opened, verified by link and checked on each view. Modules
  `AllowedDomains`, `AllowlistForms`, `AccessPolicy`, `PolicyStore`, `OverlappingPolicies`,
  `AccessGate`, `GateLaws`, `GateAnswers`, `OverlappingChecks`, `OverlappingPresentations`.

`Prelude`, `Instants`, `Text` and `TextLaws` hold shared vocabulary. Time is whole microseconds
since a Monday, 0001-01-01. Services that update records are classes whose methods
are proved against functions on values; the laws are lemmas about those functions.

## Where the code and its documentation differ

The model follows the code. Each item is a lemma below.

- `validate_policy` is not idempotent for an allowlist sent as a list: an entry such
  as `a.b`, newline, dot is accepted with its newline and reads differently the next
  time. It is idempotent exactly when no domain ends in a newline.
- The domain holder lookup sees five rooms. With six rooms on one domain a second one
  can be verified for it. It cannot while at most five name it and requests are served
  one at a time.
- The domain service writes without naming the revision it read. Two claims that overlap
  on one domain verify two rooms for it; a recheck verifies a domain nothing matched
  exactly if its room has been put on another one since it looked; a claim replaces a
  secret minted since it looked, and drops what the history has gained since.
- Two presentations of a link that overlap can count as one attempt, and one of them can
  open a session the other has just refused. Two first policies of one subject that
  overlap create two rows. A late configuration save loses a setting saved in between
  exactly if its patch sees the difference.
- A guarded room patch may name `domain_status` and so promote a room by hand.
- `set_live` works out its expiry patch from an earlier read, so a lengthening
  committed in between is lost without a conflict.
- Load after save does not always equal patching what was loaded. With overrides
  stored under the configuration's own id it does exactly when the layers regroup, the
  stamped and reserved settings apart: a stored null over a section brings the
  section's defaults back when one of its settings is patched. Overrides found by their
  key only are dropped by the first save, and it does exactly when the patch hides them
  all.
- The follow-up score is not monotone in engagement: it falls exactly when the score
  gained is worth less than the alerts that go. By default, in a room at least three days
  old with two actions, a third one made now lowers it exactly when the last was at most
  ten days ago.
- A scan of a collection misses a row exactly if the row stands on none of the pages
  when they are read; deletions between pages can bring that about.
- An expiry set on a draft does not start counting on publication: with no later write
  to it the page never expires.
- `days_remaining` is 0 for the whole last second of an open window.
- A released custom host stops resolving, unless it is the deployment's own or another
  room is verified for it.
- Views overshoot a cap by up to one less than the buyers in flight, and the analytics
  row of a session's first view is written as often as there are checks in flight.
- Verifying a session can bring its end nearer, when grants are configured shorter
  than sessions.

## Model

| member | source | states |
|---|---|---|
| `Visits.GroupByVisitor` | backend/dsr/analytics.py:474-476 | each visitor's events in input order, and the visitors in order of first appearance |
| `Visits.CutAtGaps` | backend/dsr/analytics.py:479-499 | one pass over a visitor's sorted events cuts exactly where the next dated event comes more than the gap after the last dated one |
| `Visits.CountVisits` | backend/dsr/analytics.py:465-499 | the loops compute the visit list every law below is about |
| `VisitLaws.SessionsAreCanonical` | backend/dsr/analytics.py:465-499 | visits are non-empty, each of one room and person, together exactly the input multiset; two events share one iff a chain of steps of at most the gap joins them, undated ones standing with the visitor's latest dated event |
| `VisitLaws.InputOrderIrrelevant` | backend/dsr/analytics.py:465-499 | the family of visits, as bags of events, is the same for every order of the same events |
| `VisitLaws.LargerGapCoarsens` | backend/dsr/analytics.py:465-499 | under a larger gap every visit lies inside one visit |
| `VisitRecords.VisitOfOnePerson` | backend/dsr/analytics.py:465-477 | no visit holds records of two rooms or two persons; only those that name nobody count as one |
| `VisitRecords.NeighboursShareExactly` | backend/dsr/analytics.py:465-499 | two dated records of one room and person with none of theirs in between share a visit iff they are at most the configured minutes apart |
| `VisitRecords.UndatedShareExactly` | backend/dsr/analytics.py:465-499 | undated records share a visit iff they are of one room and person |
| `Charts.BucketIsIndex` | backend/dsr/analytics.py:507-512 | the calendar rule for days and Monday weeks is a uniform grid of steps |
| `Charts.Dense` | backend/dsr/analytics.py:523-540 | the chart is one point per step from first to last bucket, zero-filled where nothing was counted |
| `Charts.GroupByBucket` | backend/dsr/analytics.py:593-605 | each bucket holds exactly the window's events of that bucket, in order, and no bucket is empty |
| `Charts.CountActions` | backend/dsr/analytics.py:550-560 | the counts per bucket after one pass are the weights of the events' marks |
| `Charts.RecentEngagement` | backend/dsr/analytics.py:543-564 | both passes and the chart give, at each point, that bucket's actions and distinct visitors |
| `Charts.VisitFrequency` | backend/dsr/analytics.py:567-590 | each point counts the visits whose earliest dated event falls in it |
| `ChartLaws.DayChartSize` | backend/dsr/analytics.py:523-540 | a day chart has exactly max(1, days) + 1 points, whatever the time of day |
| `ChartLaws.GridSize` | backend/dsr/analytics.py:523-540 | any chart has one point per step between the window's first and last bucket |
| `ChartLaws.EngagementConserves` | backend/dsr/analytics.py:543-564 | the points' actions sum to the number of events in the window |
| `ChartLaws.EngagementPlaces` | backend/dsr/analytics.py:543-564 | every event of the window is on exactly one point, the one whose span covers it, and points strictly increase |
| `ChartLaws.EngagementPoint` | backend/dsr/analytics.py:543-564 | a point's visitors are at most its actions, and zero together |
| `ChartLaws.FrequencyConserves` | backend/dsr/analytics.py:567-590 | visits sum to those starting in the window, actions to all their events even outside it, and every point shows as many visitors as visits |
| `VisitRecords.EngagementTotal` | backend/dsr/analytics.py:543-564 | the actions are the records dated in the last max(1, days) days, up to now |
| `VisitRecords.EngagementPointExactly` | backend/dsr/analytics.py:507-607 | each point starts at midnight UTC, of a Monday for weeks, and counts the records of its day or week within the window, and the people on them |
| `VisitRecords.FrequencyTotal` | backend/dsr/analytics.py:567-590 | the visits are those with a record in the window and none before it; the actions all they hold |
| `RoomStats.CountKinds` | backend/dsr/analytics.py:613-633 | one pass counts every kind, declared or not, and the counts sum to the number of events |
| `RoomStats.RoomTotals` | backend/dsr/analytics.py:613-633 | totals, view seconds to the millisecond, last instant and days since, tied to the events and visits given |
| `RoomStats.OneMoreRecord` | backend/dsr/analytics.py:613-633 | one more record made now adds an action, at most a visitor, and leaves no day since |
| `RoomStats.VisitTimeConserved` | backend/dsr/analytics.py:465-633 | the view seconds of a room are those of its visits, whatever the sessionising did with their order |
| `RoomStats.StatsAreOrdered` | backend/dsr/analytics.py:613-633 | visitors <= total visits <= actions = sum of actions by kind, and visitors are zero only without actions |
| `VisitRecords.TotalsExactly` | backend/dsr/analytics.py:613-633 | every total in terms of the records: named persons and one for the nameless, each kind, the latest instant, whole days since, seconds to the nearest millisecond |
| `Scanning.Scan` | backend/dsr/analytics.py:393-404 | paging returns the whole table when nobody writes meanwhile |
| `Scanning.GrowingMissesNothing` | backend/dsr/analytics.py:393-404 | rows added between pages never make the scan miss a row that was there when it began |
| `Scanning.ReadExactly` | backend/dsr/analytics.py:393-404 | however the collection is written between pages, a row is read iff its rank puts it on some page at the moment that page is read |
| `Scanning.MissedExactly` | backend/dsr/analytics.py:393-404 | while rows are only deleted, one that is there throughout is missed iff the deletion of earlier rows takes it from after a page to before the next |
| `Scanning.DeletionHidesRows` | backend/dsr/analytics.py:393-404 | in any table longer than a page, deleting the first k rows after the first page hides the k rows the second would have begun with |
| `Config.Merge` | backend/dsr/analytics.py:316-325 | the recursive loop computes the merge below |
| `Config.ReadMerged` | backend/dsr/analytics.py:316-325 | any path reads the patch's value where the patch decides it, the merge where both hold objects, the base's value where the patch is silent |
| `Config.MergeIdentity` | backend/dsr/analytics.py:316-325 | the empty object is neutral on both sides |
| `Config.MergeIdempotent` | backend/dsr/analytics.py:316-325 | applying a patch twice is applying it once |
| `Config.CoveredIffUnchanged` | backend/dsr/analytics.py:316-325 | a merge equals its patch exactly when the patch covers the base |
| `Config.MergeRegroups` | backend/dsr/analytics.py:316-325 | three layers may be merged in either grouping exactly when, at each key where bottom and top hold objects and the middle holds something else, the top covers the bottom |
| `Config.NoReplacementRegroups` | backend/dsr/analytics.py:316-325 | in particular whenever the middle layer never replaces such an object |
| `Config.ConfigStore.LoadConfig` | backend/dsr/analytics.py:332-343 | defaults under the override record, found by its id, else by its key |
| `Config.ConfigStore.SaveConfig` | backend/dsr/analytics.py:352-385 | what is written, and that a failed connection check writes nothing |
| `Config.SavedReads` | backend/dsr/analytics.py:352-385 | every path left to the team reads from the saved record as from the patched override |
| `Config.HiddenIffDropped` | backend/dsr/analytics.py:316-325 | a middle layer can be left out exactly when, key by key, the top hides what it changed or it changed nothing |
| `Config.LoadAfterSave` | backend/dsr/analytics.py:332-385 | loading after saving reads as patching what was loaded, on every path left to the team, iff the layers regroup (record found by id) or the patch hides the stored overrides (found by key only), the connection stamp apart in both |
| `Config.FirstSaveReads` | backend/dsr/analytics.py:352-385 | with nothing stored it always does |
| `Config.FoundByKeyDropped` | backend/dsr/analytics.py:338-383 | saving over a record found by its key drops every setting only that record holds |
| `Config.LostOverride` | backend/dsr/analytics.py:352-385 | something else stored over a section of the defaults is lost by any patch of the section that leaves a default of it alone |
| `Config.ConnectedExactly` | backend/dsr/analytics.py:346-349 | connected iff the connection holds a token that is a number or text that is not blank; when asking fails |
| `Config.StampedExactly` | backend/dsr/analytics.py:365-376 | a save stamps the connection iff it is the one that connects and no stamp is there already |
| `Config.SaveFailsExactly` | backend/dsr/analytics.py:346-376 | a save fails iff one of the connections it looks at is neither an object nor empty |
| `Config.SavedEnvelope` | backend/dsr/analytics.py:352-385 | what is saved names the default configuration and holds no name of the record envelope |
| `OverlappingSaves.AlikeIffSame` | backend/dsr/analytics.py:316-325 | two layers patch to the same iff they differ only where the patch hides it |
| `OverlappingSaves.UninterruptedIsSaved` | backend/dsr/analytics.py:352-385 | a save whose read and write are not separated writes what it worked out |
| `OverlappingSaves.LateSaveExactly` | backend/dsr/analytics.py:365-385 | a save written over a record changed since it was read leaves what patching the changed record would, on every path left to the team, iff its patch does not see the change |
| `OverlappingSaves.SettingLostExactly` | backend/dsr/analytics.py:365-385 | the change of a setting the patch does not name is lost iff the save had read that setting with another value |
| `Engagement.TrendMonotone` | backend/dsr/analytics.py:778-824 | more actions, more visitors and fewer idle days never lower the trend, for any thresholds |
| `Engagement.TrendExactly` | backend/dsr/analytics.py:778-806 | when a room is hot and when cold, for any thresholds, missing ones included |
| `Engagement.ScoreMonotone` | backend/dsr/analytics.py:827-841 | nor the engagement score |
| `Engagement.RoomScoreMonotone` | backend/dsr/analytics.py:778-841 | nor the score of a room under the trend its own activity earns |
| `Engagement.ScoreWithin` | backend/dsr/analytics.py:827-841 | the score is at most 100 and at least 60 when hot, 30 when warm |
| `Engagement.ScoreShares` | backend/dsr/analytics.py:827-841 | the share of actions, of the last action and of visitors, each in proportion, to the nearest tenth |
| `Engagement.UntouchedScoresNothing` | backend/dsr/analytics.py:827-841 | a room nobody touched scores 0 |
| `Engagement.BusyScoresAll` | backend/dsr/analytics.py:827-841 | one with enough actions and visitors and an action today scores 100 |
| `Engagement.PriorityWithin` | backend/dsr/analytics.py:924-981 | so is the follow-up score, after bonuses, alerts and rounding |
| `Engagement.DeadlineWorth` | backend/dsr/analytics.py:924-981 | a deadline within the configured days is worth 20 and an alert, within three times as many 10, a later or passed one nothing, under the cap |
| `Engagement.AlertsExactly` | backend/dsr/analytics.py:855-921 | when each alert is raised |
| `Engagement.PriorityFallsExactly` | backend/dsr/analytics.py:924-981 | of two activities in rooms of one age and deadline the second scores lower iff it is below the cap and ahead by less than ten for each alert fewer |
| `Engagement.AlertsLost` | backend/dsr/analytics.py:855-921 | with more engagement, exactly when the low-engagement and the inactivity alert go or come; the deadline alert never does |
| `Engagement.PriorityMonotone` | backend/dsr/analytics.py:924-981 | with no fewer alerts, whichever they are, the follow-up score follows engagement |
| `Engagement.ThirdActionExactly` | backend/dsr/analytics.py:855-981 | under the default thresholds, in a room old enough to be accused, a third action made now, by a visitor known or new, lowers the score iff the last one was at most ten days ago, whatever the deadline |
| `Engagement.ThirdRecordExactly` | backend/dsr/analytics.py:1023-1067 | the same from the records themselves: of the totals of two records, and of those with one more made now |
| `AccessWindow.ExpirySpan` | backend/dsr/access_controls.py:255-288 | a window of n days closes at least n and less than n + 1 whole days after its start, on a day's last microsecond |
| `AccessWindow.ExpiryBoundary` | backend/dsr/access_controls.py:433-441 | open at exactly the expiry instant, closed one microsecond later |
| `AccessWindow.DaysRemainingCeiling` | backend/dsr/access_controls.py:415-428 | the countdown is the least number of days covering the whole seconds left |
| `AccessWindow.DaysRemainingFalls` | backend/dsr/access_controls.py:415-428 | it never rises as time passes |
| `AccessWindow.DaysRemainingInWarning` | backend/dsr/access_controls.py:456-461 | it is between 0 and the warning days whenever the warning shows |
| `AccessWindow.ZeroDaysWhileOpen` | backend/dsr/access_controls.py:415-428 | an open window reads 0 exactly throughout its last second |
| `AccessWindow.AnswersAgree` | backend/dsr/access_controls.py:465-542 | accessible iff the badge is live or expiring soon iff the buyer state is open or warned; closed, the buyer gets the first reason |
| `WindowRequests.ReasonsExactly` | backend/dsr/access_controls.py:466-482 | each reason iff its part of the stored window says so, in order; accessible iff none does |
| `WindowRequests.BadgeExactly` | backend/dsr/access_controls.py:485-517 | which badge shows, a decline before a full page, and the warning iff at most seven days are left |
| `WindowRequests.BuyerExactly` | backend/dsr/access_controls.py:530-542 | what the buyer is told, a full page before a decline |
| `AccessWindow.ReasonsPersist` | backend/dsr/access_controls.py:466-482 | no tick, view or decline removes a reason |
| `AccessWindow.ClosedStaysClosed` | backend/dsr/access_controls.py:465-542 | so over any such run a closed link stays closed, each reason kept |
| `WindowWrites.Serialisable` | backend/dsr/access_controls.py:784-818 | in any interleaving the window is the committed patches in commit order |
| `WindowWrites.CommitOutcome` | backend/dsr/access_controls.py:784-818 | a stale commit changes nothing; a current one applies its patch to the window as it is |
| `WindowWrites.HalvesSurvive` | backend/dsr/access_controls.py:784-818 | a committed expiry, cap or flag lasts until a later committed patch names it |
| `WindowWrites.UninterruptedIsAtomic` | backend/dsr/access_controls.py:820-1006 | a request whose steps are not interleaved is the request run alone |
| `WindowWrites.StaleExactly` | backend/dsr/access_controls.py:958-1005 | a patch prepared earlier does what the request would do now exactly under a condition on what it had read |
| `WindowWrites.LostLengthening` | backend/dsr/access_controls.py:958-1005 | so an accepted lengthening can be lost with no conflict reported |
| `WindowWrites.DraftExpiryNeverStarts` | backend/dsr/access_controls.py:836-850 | in any interleaving the stored expiry is on with no clock iff its last patch was worked out on a draft, published since or not, and then the page never expires |
| `WindowWrites.OvershootBound` | backend/dsr/access_controls.py:900-938 | with at most k buyers in flight under a fixed cap c, views never exceed max(initial views, c + k - 1) |
| `WindowWrites.NoOvershootAlone` | backend/dsr/access_controls.py:900-938 | one buyer at a time never takes views past the cap |
| `WindowWrites.OvershootAttained` | backend/dsr/access_controls.py:900-938 | for every k and c some interleaving reaches c + k - 1 |
| `WindowWrites.ReachableWellformed` | backend/dsr/access_controls.py:654-694 | in any interleaving the stored window keeps the validated shape |
| `WindowWrites.Revival` | backend/dsr/access_controls.py:958-1005 | reviving a published page makes it accessible, for the n days of its expiry, exactly while its views are below any enabled cap, which is unchanged |
| `WindowRequests.AcceptedExactly` | backend/dsr/access_controls.py:654-694 | a request is accepted iff its length is 1 to 3650 days or its cap 1 to ten million views |
| `WindowRequests.LeavesTheRest` | backend/dsr/access_controls.py:820-1006 | a request changes only its own part of the window, and writes once |
| `WindowRequests.DeclineCloses` | backend/dsr/access_controls.py:942-956 | a declined page is closed for every count of views and every instant |
| `WindowRequests.CapCloses` | backend/dsr/access_controls.py:862-886 | a cap of n closes the page iff there are n views |
| `WindowRequests.NoCapNeverCloses` | backend/dsr/access_controls.py:888-898 | without one no number of views does |
| `WindowRequests.ExpiryCloses` | backend/dsr/access_controls.py:820-850 | n days set on a published page leave it open for n days and closed after n + 1 |
| `WindowRequests.NoExpiryNeverCloses` | backend/dsr/access_controls.py:820-860 | set on a draft, switched off or deleted, never |
| `WindowRequests.DeclinedUntilNamed` | backend/dsr/access_controls.py:784-818 | in any interleaving a committed decline keeps the page closed until a later committed patch names the flag |
| `WindowRequests.CappedUntilNamed` | backend/dsr/access_controls.py:784-818 | likewise a committed cap |
| `WindowRequests.RefusedExactly` | backend/dsr/access_controls.py:732-759 | a missing page or room first, then a caller who may not, then an invalid request |
| `WindowWrites.AccessControls.RequireManage` | backend/dsr/access_controls.py:732-759 | the page, or the refusal every request then gives |
| `WindowWrites.AccessControls.WriteWindow` | backend/dsr/access_controls.py:784-818 | the merged window written at the revision read, and no other page touched |
| `WindowWrites.AccessControls.SetExpiry` | backend/dsr/access_controls.py:820-850 | the outcome and all pages after it, as the request run alone |
| `WindowWrites.AccessControls.ClearExpiry` | backend/dsr/access_controls.py:852-860 | likewise |
| `WindowWrites.AccessControls.SetViewLimit` | backend/dsr/access_controls.py:862-886 | likewise |
| `WindowWrites.AccessControls.ClearViewLimit` | backend/dsr/access_controls.py:888-898 | likewise |
| `WindowWrites.AccessControls.Decline` | backend/dsr/access_controls.py:942-956 | likewise |
| `WindowWrites.AccessControls.Revive` | backend/dsr/access_controls.py:958-1005 | likewise |
| `WindowWrites.AccessControls.RecordView` | backend/dsr/access_controls.py:900-938 | one row more exactly when the page is accessible, none otherwise |
| `Hostnames.NormaliseIdempotent` | backend/dsr/domains.py:137-201 | normalising a normalised domain changes nothing |
| `HostForms.CustomDomainExactly` | backend/dsr/domains.py:137-201 | a text is a custom domain iff it is three or more proper labels joined by dots, the last of letters, within 253 characters |
| `HostForms.PastedDomain` | backend/dsr/domains.py:137-201 | pasted in any case with scheme, credentials, root dots, path and blanks around, a domain is that domain |
| `Domains.AnswersAreVisible` | backend/dsr/db/audited.py:453-475 | a limited query answers exactly the matching rooms with fewer newer ones than its limit |
| `Domains.DomainService.Find` | backend/dsr/db/audited.py:453-476 | the matching live rooms, newest first, up to the limit |
| `Domains.DomainService.DomainHolder` | backend/dsr/domain_service.py:143-160 | finds a verified holder exactly when one is among the first five answers |
| `Domains.DomainService.ClaimedDomains` | backend/dsr/domain_service.py:126-141 | exactly the verified domains of the rooms one listing returns |
| `Domains.DomainService.EnsureLinkSecret` | backend/dsr/domain_service.py:201-229 | the outcome and all rooms after it |
| `Domains.DomainService.Verify` | backend/dsr/domain_service.py:233-303 | the report on a candidate: normal form, availability, readiness |
| `Domains.DomainService.ClaimDomain` | backend/dsr/domain_service.py:307-377 | the outcome and all rooms after it |
| `Domains.DomainService.ReleaseDomain` | backend/dsr/domain_service.py:379-405 | the outcome and all rooms after it |
| `Domains.DomainService.RecheckDomain` | backend/dsr/domain_service.py:407-437 | the outcome and all rooms after it |
| `Domains.DomainService.UpdateBranding` | backend/dsr/domain_service.py:441-472 | the outcome and all rooms after it |
| `DomainRequests.ClaimExactly` | backend/dsr/domain_service.py:307-377 | each refusal in order, and otherwise every field of the room: the domain, verified iff its DNS matched, a secret minted only if there was none |
| `DomainRequests.ReleaseExactly` | backend/dsr/domain_service.py:379-405 | the domain goes, the secret stays, the history ends with it |
| `DomainRequests.RecheckExactly` | backend/dsr/domain_service.py:407-437 | verified iff the DNS matches and no other room is, activated the first time |
| `DomainRequests.EnsureSecretExactly` | backend/dsr/domain_service.py:201-229 | a secret is minted once |
| `DomainRequests.BrandExactly` | backend/dsr/domain_service.py:441-472 | tokens named are set, the others stay |
| `DomainRequests.PatchExactly` | backend/dsr/domain_service.py:542-550 | a guarded patch leaves domain, secret and collaborator token alone |
| `Domains.DomainService.HostIsServed` | backend/dsr/domain_service.py:476-501 | true exactly when the three checks in turn admit the host |
| `Domains.DomainService.Resolve` | backend/dsr/domain_service.py:503-537 | the newest room carrying the secret, subject to the host; every error case |
| `DomainLaws.UniqueExactly` | backend/dsr/domain_service.py:307-437 | a request breaks uniqueness of verified domains exactly when it would verify, with matching DNS, a domain whose holder the lookup cannot see |
| `DomainLaws.UniqueOverRuns` | backend/dsr/domain_service.py:307-437 | over every run of requests and of guarded patches that do not name the verified status, in which at most five rooms name a requested domain, no two live rooms are verified for one domain |
| `DomainLaws.CrowdedRunsBreakUniqueness` | backend/dsr/domain_service.py:143-160 | from any state with six live rooms and an unheld domain, some run of service requests verifies two rooms for it |
| `DomainLaws.PatchUniqueExactly` | backend/dsr/api.py:194-224 | a guarded patch breaks uniqueness exactly when it names the verified status on a room whose domain another holds |
| `DomainLaws.HistoryOverRuns` | backend/dsr/domain_service.py:349-405 | over every run of requests and of guarded patches that do not name it, the stored history is the last twenty of all domains the room lost, in order |
| `DomainLaws.ReclaimAddsNothing` | backend/dsr/domain_service.py:349-365 | claiming the domain already held adds nothing to it |
| `DomainLaws.NextKeepsSecret` | backend/dsr/domain_service.py:542-550 | no service operation and no guarded patch changes or clears a link secret |
| `DomainLaws.SecretsOverRuns` | backend/dsr/domain_service.py:201-229 | over every run with fresh secrets, secrets stay and stay distinct |
| `DomainLaws.SecretFindsItsRoom` | backend/dsr/domain_service.py:503-537 | so after any run a secret matches its own room and no other |
| `DomainLaws.ServedHosts` | backend/dsr/domain_service.py:476-501 | a host is served iff it is the deployment's, the room's recorded domain, or a domain verified for some live room |
| `HostForms.ServedInAnyForm` | backend/dsr/domain_service.py:476-501 | a host is served the same in any letter case, with blanks around it and with any port or none |
| `HostForms.OwnNameServed` | backend/dsr/domains.py:372-409 | the deployment is always served under its own name, in any of those forms |
| `HostForms.OtherNameNotOwn` | backend/dsr/domains.py:372-409 | no other name is the deployment's |
| `HostForms.OnCustomDomainExactly` | backend/dsr/domain_service.py:531-539 | a room is served on its custom domain iff it is verified and the request names that domain, in any of those forms |
| `DomainLaws.LookupAgreesWithScan` | backend/dsr/domain_service.py:126-160 | within both limits the indexed lookup answers as a scan of all claimed domains, whichever room is excluded or none |
| `DomainLaws.ReleasedHostServed` | backend/dsr/domain_service.py:503-540 | after a release the host is served iff it is the deployment's own or another room is verified for it, at most five others naming it |
| `OverlappingClaims.UninterruptedIsServed` | backend/dsr/domain_service.py:201-474 | a request whose look and write are not separated is the request served alone |
| `OverlappingClaims.WriteUniqueExactly` | backend/dsr/domain_service.py:307-437 | in any state with unique verified domains one write keeps them so iff it does not verify its room while another is verified for the domain the room then has |
| `OverlappingClaims.UniqueWhenApart` | backend/dsr/domain_service.py:307-437 | in any interleaving of requests, and of guarded patches that do not name the verified status, in which at most five rooms name a domain looked up, no recheck crosses a claim of its room for another domain and no two calls would verify one domain, verified domains stay unique |
| `OverlappingClaims.OverlapExactly` | backend/dsr/domain_service.py:307-437 | two calls in flight for different rooms, whose lookups still hold, break uniqueness iff both would verify the same domain |
| `OverlappingClaims.TwoClaimsBothVerified` | backend/dsr/domain_service.py:329-377 | two live rooms and a free domain suffice: claims that both look before either writes verify both |
| `OverlappingClaims.UnmatchedExactly` | backend/dsr/domain_service.py:407-437 | a write verifies its room for a domain its call never looked up iff it is a recheck whose room has been put on another domain since |
| `OverlappingClaims.RecheckVerifiesForcedClaim` | backend/dsr/domain_service.py:307-437 | a run that does so: a recheck looks, a forced claim looks and writes, the recheck writes |
| `OverlappingClaims.SecretReplacedExactly` | backend/dsr/domain_service.py:201-229 | a write replaces a secret iff its call looked before there was one and brings another |
| `OverlappingClaims.SecretStays` | backend/dsr/domain_service.py:201-229 | in any interleaving a secret that was there before any call in flight looked stays |
| `OverlappingClaims.HistoryKeptExactly` | backend/dsr/domain_service.py:349-405 | a claim or release leaves the history its room should have iff what it read of the domain and the newest nineteen entries still stands, or the retirement is recorded already, or there is none |
| `OverlappingClaims.CrossedClaimsForget` | backend/dsr/domain_service.py:349-377 | two claims of one room that cross: the secret of the first to write is replaced and its domain never enters the history |
| `AllowedDomains.NormalizeDomains` | backend/dsr/access.py:192-225 | the loop collects distinct domains in order, stopping at the first bad entry |
| `AllowedDomains.CollectOk` | backend/dsr/access.py:192-225 | a list is accepted exactly when every entry is blank or a domain |
| `AllowedDomains.CollectDistinct` | backend/dsr/access.py:192-225 | no domain is named twice |
| `AllowedDomains.CollectHolds` | backend/dsr/access.py:192-225 | and exactly those the entries stand for are named |
| `AllowedDomains.NormalisedAgain` | backend/dsr/access.py:192-225 | reading a normalised list again succeeds and changes nothing exactly when no domain ends in a newline |
| `AllowlistForms.EntryWritten` | backend/dsr/access.py:192-225 | an entry in any case, with at-signs, dots and blanks around, stands for its domain |
| `AllowlistForms.LineOfEntries` | backend/dsr/access.py:192-225 | a text is read as its entries, separated by commas or line ends |
| `AllowlistForms.AllowlistAccepted` | backend/dsr/access.py:192-225 | no allowlist is an empty one, a value of another type none, and a list is accepted iff each entry is blank or a domain |
| `AllowlistForms.ShapeExactly` | backend/dsr/access.py:111-112 | a text has the shape of a domain iff it is two or more names joined by dots |
| `AllowlistForms.RereadExactly` | backend/dsr/access.py:192-225 | an accepted allowlist, read again, holds exactly the domains its entries stand for |
| `AllowedDomains.LinesHaveNoNewlines` | backend/dsr/access.py:192-225 | text input never yields such a domain |
| `AccessPolicy.AcceptedExactly` | backend/dsr/access.py:251-303 | when a payload is accepted, rule by rule |
| `AccessPolicy.AcceptedAsSent` | backend/dsr/access.py:251-303 | an accepted policy has the mode, every flag, the template and the other keys that were sent |
| `AccessPolicy.FaultsExactly` | backend/dsr/access.py:251-303 | a refused one names exactly the fields at fault |
| `AccessPolicy.ValidateAgain` | backend/dsr/access.py:251-303 | a validated policy validates again, to itself exactly when its allowlist has no final newlines |
| `AccessPolicy.ValidateIdempotentOnText` | backend/dsr/access.py:251-303 | so validation is idempotent for text allowlists |
| `AccessPolicy.ValidateNotIdempotent` | backend/dsr/access.py:251-303 | and is not for any domain listed with a newline before a final dot |
| `PolicyStore.AccessPolicies.SetPolicy` | backend/dsr/access.py:455-496 | every refusal, the rows after a write, and that no subject gets two live rows; any live record may be the subject of a room policy |
| `PolicyStore.AccessPolicies.ClearPolicy` | backend/dsr/access.py:498-506 | the subject is left without a policy and every other row as it was |
| `PolicyStore.AccessPolicies.InForce` | backend/dsr/access.py:395-413 | the policy in force through room, template and default |
| `PolicyStore.WriteReads` | backend/dsr/access.py:455-496 | a write is read back by its own subject and by nobody else |
| `PolicyStore.RoomRuleInForce` | backend/dsr/access.py:379-496 | after a room's own rule is written, the mode and flags that were sent are in force at room level without errors, and the allowlist read again |
| `PolicyStore.WriteReplacesOnlyWhatItNames` | backend/dsr/access.py:480-498 | a write over a row replaces the rule; a template or other key it leaves out survives |
| `PolicyStore.OpenByDefault` | backend/dsr/access.py:395-413 | with no policy and no template a room is open and asks for nothing |
| `PolicyStore.OpenWithoutTemplatePolicy` | backend/dsr/access.py:415-428 | deferring to a template without a policy, it is open and that is reported |
| `PolicyStore.ResolvedInOrder` | backend/dsr/access.py:395-413 | own rule first, then the template, then the default |
| `PolicyStore.TemplateWriteReaches` | backend/dsr/access.py:395-453 | a template write changes what is in force for exactly the rooms deferring to it, and touches no room's row |
| `OverlappingPolicies.UninterruptedIsWritten` | backend/dsr/access.py:455-496 | a write whose look and store are not separated is the write served alone |
| `OverlappingPolicies.StoreKeepsOneExactly` | backend/dsr/access.py:455-496 | a write gives its subject a second live row iff it found none and there is one by now |
| `OverlappingPolicies.OneWhenApart` | backend/dsr/access.py:455-504 | in any interleaving of writes and clears in which no two writes in flight found one subject without a row, no subject has two |
| `OverlappingPolicies.CrossedWritesBothCreate` | backend/dsr/access.py:455-496 | two writes that did so give it two |
| `AccessGate.GateService.OpenSession` | backend/dsr/access.py:552-737 | the answer, the sessions and the outbox after a submission, refused ones recorded too |
| `AccessGate.GateService.FirstMissing` | backend/dsr/access.py:613-616 | the first field in display order that is owed |
| `AccessGate.GateService.Verify` | backend/dsr/access.py:803-901 | the answer, the session and its message after a presentation, each one counted |
| `AccessGate.GateService.MarkOutboxSent` | backend/dsr/access.py:903-912 | the loop marks the newest message of the session and no other |
| `AccessGate.GateService.Check` | backend/dsr/access.py:925-1026 | the answer, the session and the analytics rows after a check |
| `GateLaws.SessionsAreSound` | backend/dsr/access.py:803-901 | in every run a session lasts one session lifetime from issue, or one grant lifetime from a verification made within it; refused iff it has a reason; viewed only once verified where that was asked |
| `GateLaws.SessionsContinue` | backend/dsr/access.py:803-1026 | status moves only from identified or pending to verified to refused, identity never changes, and the expiry changes at most once, on verification |
| `GateLaws.TallyOverRuns` | backend/dsr/access.py:803-1026 | attempts are the presentations in its room, at most ten succeed, one verifies, refused iff some call turned it away, and one analytics row exactly if some check was granted |
| `GateLaws.MailOverRuns` | backend/dsr/access.py:554-911 | over every run a session has one message, to its own address, iff its link was to be delivered when it was opened, marked sent iff the session is verified |
| `GateLaws.GrantedExactly` | backend/dsr/access.py:925-988 | a check is granted iff nothing turned the token away, its link was followed or none was asked for, and its deadline has not come |
| `GateAnswers.CheckWithoutToken` | backend/dsr/access.py:925-988 | after a room's rule is written a check without a token is let through iff the rule sent is open, and else owes exactly the fields it asks for |
| `GateAnswers.CheckAnswered` | backend/dsr/access.py:925-988 | which answer a check of a token gets after any run: unknown, refused, expired, awaited or granted |
| `GateAnswers.PresentationAnswered` | backend/dsr/access.py:803-901 | which answer a presentation gets after any run: too many, refused, expired, verified already, or now iff the address is welcome |
| `GateAnswers.SubmissionAnswered` | backend/dsr/access.py:554-740 | which answer a form gets under the rule sent, check by check |
| `GateAnswers.OutsiderRefusedExactly` | backend/dsr/access.py:621-648 | under domain security a complete form is refused for its domain iff no allowlist entry stands for it |
| `GateAnswers.DeadlineExactly` | backend/dsr/access.py:341-353 | a session ends so many hours after its issue or its verification |
| `GateAnswers.ValidEmailExactly` | backend/dsr/access.py:188-189 | an address is valid iff it has one at-sign after something, a dot inside what follows and no blank |
| `GateLaws.GrantHorizon` | backend/dsr/access.py:341-360 | no check is granted at or after issue time plus both lifetimes |
| `GateLaws.GrantHasHistory` | backend/dsr/access.py:554-901 | every grant goes back to an opening with all its policy asked for and an address it admitted, and, where a link was asked for, a verification whose policy admitted the address again |
| `GateLaws.ClosedForGood` | backend/dsr/access.py:803-988 | once refused or expired, under a clock that never runs backwards, no check is granted and no presentation succeeds |
| `GateLaws.VerifyingShortensExactly` | backend/dsr/access.py:882-892 | when verification brings the end of a session nearer |
| `GateLaws.EmailDomainExactly` | backend/dsr/access.py:167-185 | an address has a domain exactly when, trimmed and lowered, it is a non-blank local part, one at-sign and that domain up to surrounding dots, with no space |
| `GateLaws.AddressAtDomain` | backend/dsr/access.py:167-185 | any address at a domain, in any letter case, has that domain |
| `GateLaws.AllowlistedAddressAdmitted` | backend/dsr/access.py:160-223 | so a domain of a validated allowlist that does not end in a newline admits every address at it |
| `OverlappingChecks.UninterruptedIsCheck` | backend/dsr/access.py:990-1026 | a check whose look and write are not separated is the check run alone |
| `OverlappingChecks.RowsOvershootBound` | backend/dsr/access.py:990-1026 | with at most k checks of a session in flight it gets at most k rows, none before it is viewed and one at least after |
| `OverlappingChecks.RowsOvershootAttained` | backend/dsr/access.py:990-1026 | for every k some interleaving writes k rows while the session counts one view |
| `OverlappingPresentations.UninterruptedIsPresented` | backend/dsr/access.py:803-901 | a presentation whose steps are not separated is the presentation served alone |
| `OverlappingPresentations.AttemptsExactly` | backend/dsr/access.py:815-837 | in any interleaving attempts never exceed the presentations counted, and equal them iff none was counted between another's reading and counting |
| `OverlappingPresentations.RefusedForGood` | backend/dsr/access.py:803-901 | a session refused before any presentation in flight read it stays refused in any interleaving |
| `OverlappingPresentations.ReopenedExactly` | backend/dsr/access.py:882-892 | one step opens a refused session iff it finishes a presentation that had decided to verify it |
| `OverlappingPresentations.CrossedReopens` | backend/dsr/access.py:803-901 | a run that does so while the policy is tightened; both presentations count as one and checks are then granted |

## Left out

- Serialisable: for `set_live` and `set_expiry` it is about the patch, part of which comes from an earlier read; StaleExactly says when that matters.
- OvershootBound: assumes the cap is fixed while buyers are in flight, as the bound is meaningless otherwise.
- LoadAfterSave: says nothing of the record's own key, the connection stamp and the names reserved by the record envelope, which a save sees to itself.
- UniqueOverRuns: creating, deleting or restoring a room record is not modelled.
- ClaimDomain: leaves out the stored CNAME target and observed DNS answers. One call at a time; in `OverlappingClaims` a call reads the room and looks up the holder in one step.
- RecheckDomain: leaves out the observed DNS answers.
- OneWhenApart: a clear is one step.
- LateSaveExactly: is about one write over any record; what the read for the connection stamp finds is as the record was when first read.
- OpenSession: reads the clock once per call, and takes the header heuristic as an input; the text and links of the message are left out.
- RoomTotals: leaves out the view time written out in hours and minutes.
- VisitTimeConserved: adds exact reals; floating-point sums can differ in their last digits with the order of the events.
- TallyOverRuns: calls run one at a time; overlapping first views are in `OverlappingChecks`, overlapping presentations in `OverlappingPresentations`.
- ClosedForGood: calls run one at a time; what survives of it when presentations overlap is RefusedForGood.
- PriorityWithin: scores are exact rationals rounded to tenths, ties to even, not binary floating point.
- HTTP routing, the API wiring and the static frontend.
- OwnNameServed: the deployment's host name is given; reading it out of a configured address is left out.
- DNS lookups, permissions and the bot heuristic: boolean inputs.
- Colour and font patterns: whether a branding token is valid is an input.
- Fresh identifiers and secrets: tokens are a session's place among all sessions, and freshness of secrets is a hypothesis.
- Timestamp parsing, JSON coercion of stored windows and range overflow of dates.
- Case folding beyond ASCII.
- Message texts, vocabularies and the seller's session report.
- Order of keys in objects, and of events with the same instant inside a visit.
- Chart keys are instants of midnight rather than dates written as text.
- Generic record create, delete and restore, and everything in documents, seeding, tools and orchestration.

# Verified models of the CRA compliance server

This project models the state-keeping protocols of the Cyber Resilience Act
server and proves what they keep over whole runs. Every time is an integer
number of microseconds (UTC), every probability is an exact real in [0, 1], and
every digest is a free constructor, so two digests are equal exactly when the
hashed bodies are. `dafny verify dfyconfig.toml` checks everything.

| file | what it models |
|---|---|
| `Calendar.dfy`, `Deadlines.dfy` | calendar-month arithmetic and the Article 14 schedule |
| `Escalation.dfy`, `DeadlineSweeper.dfy`, `DeadlineRuns.dfy` | the two escalation ladders, one pass of the alert sweeper over a growing notification log, and every run of passes |
| `SessionLimiter.dfy` | the concurrent-session cap as a lazily swept table of last-seen times |
| `Matching.dfy`, `Feeds.dfy` | joining an SBOM to advisories, KEV and EPSS; the batch query, the advisory cache and the score file |
| `Advisories.dfy`, `AdvisoryRuns.dfy`, `AdvisorySweeper.dfy`, `AdvisoryPasses.dfy` | the candidate upsert with its two re-open triggers, one candidate over any run, the daily pass, and runs of passes mixed with decisions |
| `Retention.dfy`, `Narrative.dfy`, `TechnicalFile.dfy` | the Article 13(13) period, the canonical narrative, and the Annex VII file section by section |
| `Conformity.dfy`, `FileProtocol.dfy`, `ConformityRuns.dfy` | freezing, declaring and signing, each split into the snapshot it reads and the commit it makes, and every interleaving of them |
| `OAuth.dfy` | authorization codes: bounded, expiring, single use, bound by PKCE (sections 4.1.2 and 4.1.3 of RFC 6749, section 4.6 of RFC 7636) |
| `Billing.dfy` | webhook idempotence and the plan an account is on |
| `Ordering.dfy`, `Strings.dfy` | stable sorting, filtering and the few string methods the others share |

A class holds the fields its source object updates in place, and each method is
proved equal to a function of the old state; the run-level results are lemmas
about those functions. What the outside world contributes (clock readings, send
outcomes, feed replies, plan checks, PKCE digests) is a parameter that the lemmas
quantify over. A `session_scope` or `store_backend.mutate` is one atomic step that
leaves the state alone when it raises.

## Where the code and its own words differ

The model follows the code.

- `add_months` keeps the time of day while it clamps the day, so it is monotone
  on dates but not on instants; `AddMonthsInversion` gives the exact condition.
- Alerts are deduplicated per rung, not per person: a recipient whose alert failed
  is tried again on the same rung exactly until anybody's succeeds or is suppressed
  (`OneSuccessSettlesForAll`; `src/cra/server/deadline_sweeper.py:400-413`).
- A lookahead under 168 hours hides the first rung of a final report, which the
  environment setting allows (`ShorterLookaheadHides`).
- An obligation waived with an empty reason is left out of the sweep but does not
  read as waived in `obligation_state` (`src/cra/deadlines.py:238`,
  `src/cra/server/deadline_sweeper.py:428`); the two part on that value alone
  (`EmptyWaiverDisagrees`). Nothing in the repository writes `waived_reason`, a
  nullable text column, so such a value can only come from a direct update.
- A finding's key omits the ecosystem (`src/cra/advisories/match.py:50-52`), so two
  packages of one name and version in two ecosystems that share an advisory make
  a scan fail as a whole; `PersistRefusesClashes` and `QueueKeysDistinct` say
  exactly when.
- A dry run of the advisory sweeper mails and stamps nothing, but its scans are
  committed: it leaves the table a wet run would, except for the stamps
  (`DryRunStillScans`).
- The advisory sweeper promises the deadline sweeper's at-least-once discipline
  (`src/cra/server/advisory_sweeper.py:6-9`), yet stamps every due row however its
  sends fared (lines 239-245), so a pass whose every send broke is not repeated
  until an EPSS rise re-opens the candidate (`SendsDecideNothing`,
  `FailedSendsAreNotRetried`).
- `expire_stale_tier` compares the stored tier as it is spelled and `plan_for`
  normalises it first, so a granted account spelled "Founding" loses its plan
  (`ExpiryCanRevokeAGrant`); `ExpiryChangesPlanExactlyWhen` is the condition.
- A non-ASCII PKCE verifier or challenge raises instead of being refused, after
  the code has been spent; `RaisesExactlyWhen` gives the exact requests.
- A webhook event has its id committed before its row is
  (`src/cra/server/billing.py:328-331`), so whatever its first delivery left undone
  stays undone however often it is redelivered (`FirstDeliveryDecides`). That
  loses an event whose first delivery raised or found no user, and a paid checkout
  that named no usable plan (lines 461-471); `FailedDeliveryIsFinal` gives the exact
  condition.
- The early exit of `epss_scores` keeps the first score of a CVE the file repeats
  where a full read would keep the last (`RepeatedCveDiffers`);
  `EarlyExitExactly` says when stopping loses nothing.
- A file describes the last placed release in list order while its retention
  runs from the greatest `released_at`; the two are one placing exactly when nothing
  was placed later than the last recorded release (`LatestReleaseAnchors`).
- The independence check of `sign_off` looks at who filed the last row under a
  technical-file section, so somebody who rewrote requirements since is not seen
  (`IndependenceSeesFilingsOnly`).

## Model

| member | source | states |
|---|---|---|
| Calendar.AddMonthsIsCalendarExact | src/cra/deadlines.py:89-100 | The result is a real Gregorian date with the month index advanced exactly, the time of day kept and the day kept unless the month is too short; it fails exactly when the year leaves 1..9999 |
| Calendar.GregorianMonths | src/cra/deadlines.py:89-100 | The twelve month lengths and the leap rule, and exactly which readings are real |
| Calendar.AddMonthsMonotoneOnDates | src/cra/deadlines.py:89-100 | Calendar dates never change order |
| Calendar.AddMonthsInversion | src/cra/deadlines.py:89-100 | Instants change order exactly when two days of one month both clamp and the earlier day has the later time, and then by less than 24 hours |
| Calendar.AddMonthsInversionHappens | src/cra/deadlines.py:89-100 | A concrete pair of January instants whose order one month reverses |
| Calendar.OneMonthElapsed | src/cra/deadlines.py:89-100 | One month is always 28 to 31 elapsed days |
| Deadlines.ScheduleFor | src/cra/deadlines.py:151-172 | The appending loop yields every stage whose clock has started, in order, or the first error |
| Deadlines.SevereStagesIncrease | src/cra/deadlines.py:63-77 | A severe incident owes three stages in strictly increasing order, the last 28 to 31 days after awareness, and fails only at the end of the calendar |
| Deadlines.ExploitedStages | src/cra/deadlines.py:63-77 | A final report is owed exactly when a corrective measure exists; the schedule fails exactly at the end of the calendar; the three stages increase exactly when the measure came less than eleven days before awareness |
| Deadlines.NaiveStampsAreRefused | src/cra/deadlines.py:103-120 | A timestamp without a zone is refused for either kind of incident, and so is a corrective measure without one |
| Deadlines.RuleGivesNoTime | src/cra/deadlines.py:124-148 | An earlier awareness starts no clock later: by an instant for elapsed offsets, by a calendar day for months |
| Deadlines.BackdatingNeverGivesTime | src/cra/deadlines.py:124-172 | Backdating awareness never moves the 24-hour or 72-hour deadline later, nor the final one to a later date, for either kind of incident |
| Deadlines.StateExactly | src/cra/deadlines.py:224-252 | Each of the six statuses has its exact condition, with the due-soon windows in hours |
| Escalation.Reached | src/cra/deadlines.py:327-336 | The rung found is crossed and no more urgent rung looked at is |
| Escalation.MostUrgentUnsent | src/cra/deadlines.py:303-336 | The scan from the most urgent rung returns the standing rung's label, or nothing when that label is settled |
| Escalation.LabelsNameRungs | src/cra/deadlines.py:289-300 | Labels are injective on each ladder and a support kind is never a reporting label |
| Escalation.StandingIsWindow | src/cra/deadlines.py:282-286 | The windows of a ladder partition the time after its first rung; a clock stands on the rung whose window it is in |
| Escalation.DueKindExactly | src/cra/deadlines.py:282-336 | The label owed at each remaining time, hour by hour and day by day as published, unless it is settled |
| Escalation.StandingNeverRegresses | src/cra/deadlines.py:327-336 | As time passes the standing rung never becomes less urgent |
| Escalation.OverdueRungIsOverdueStatus | src/cra/deadlines.py:224-252 | The overdue alert is owed exactly when the derived status is overdue |
| DeadlineSweeper.Query | src/cra/server/deadline_sweeper.py:416-432 | The first list is exactly the open obligations due by the horizon, soonest first, the second exactly the tracked support periods ending within 180 days; with ids as keys no clock appears twice |
| DeadlineSweeper.VisibleExactly | src/cra/server/deadline_sweeper.py:416-432 | A pass sees exactly the obligations neither submitted nor waived due by the lookahead and the tracked support periods ending within 180 days, and no clock twice |
| DeadlineSweeper.EmptyWaiverDisagrees | src/cra/deadlines.py:238-252 | The sweep's idea of open and the derived status agree exactly when the obligation is not waived with an empty reason |
| DeadlineSweeper.RowsTellTheirSends | src/cra/server/deadline_sweeper.py:493-522 | Every row a pass adds is sent, suppressed or failed exactly as the send behind it was delivered, not configured or broken, and names a clock of the pass |
| DeadlineSweeper.SettledMeans | src/cra/server/deadline_sweeper.py:400-413 | A label is settled exactly when some row about the clock with that label was sent or suppressed |
| DeadlineSweeper.Sweeper.FanOut | src/cra/server/deadline_sweeper.py:493-522 | Writing each row before its send and rewriting its status afterwards leaves one row per recipient with that send's outcome; the counters are the sends delivered and those not configured |
| DeadlineSweeper.Sweeper.SweepClocks | src/cra/server/deadline_sweeper.py:449-526 | A wet loop writes and counts what the specification attempts; a dry one writes nothing and plans against the unchanged log |
| DeadlineSweeper.Sweeper.SweepOnce | src/cra/server/deadline_sweeper.py:435-526 | Obligations and support periods together are one pass over the visible clocks whose counters are its delivered and not-configured sends; disabled or dry it leaves the log alone |
| DeadlineRuns.SweptOwn | src/cra/server/deadline_sweeper.py:403-413 | Among distinct clocks, a pass adds to one clock's rows exactly its own attempt, one row per recipient |
| DeadlineRuns.DryRunIsFaithful | src/cra/server/deadline_sweeper.py:435-477 | A dry run plans exactly the clock and rung pairs a wet run attempts |
| DeadlineRuns.StepSettles | src/cra/server/deadline_sweeper.py:400-413 | A pass forgets no settled label and settles the one it attempted or none |
| DeadlineRuns.AttemptSettles | src/cra/server/deadline_sweeper.py:400-522 | An attempt settles its rung exactly when one of its sends was delivered or not configured |
| DeadlineRuns.BrokenIsRetried | src/cra/server/deadline_sweeper.py:400-522 | The next pass on the rung tries it again exactly when every send of the attempt broke |
| DeadlineRuns.UrgencyNeverRegresses | src/cra/server/deadline_sweeper.py:403-413 | In any run at nondecreasing times, attempted rungs never become less urgent and a settled rung is never attempted again |
| DeadlineRuns.SettlingSweepsBounded | src/cra/server/deadline_sweeper.py:400-413 | However long the run, at most four passes settle anything about an obligation and five about a support period |
| DeadlineRuns.SettledRowsBounded | src/cra/server/deadline_sweeper.py:493-522 | Sent and suppressed rows stop growing: at most one per rung and recipient |
| DeadlineRuns.OneSuccessSettlesForAll | src/cra/server/deadline_sweeper.py:400-413 | On the same rung a later pass tries everybody again exactly when nothing was settled for anybody since |
| DeadlineRuns.WindowIsHit | src/cra/deadlines.py:282-286 | Sweeps at most two hours apart, begun before the first rung, cannot step over a rung |
| DeadlineRuns.AttemptInWindow | src/cra/deadlines.py:327-336 | A sweep in a rung's window tries that rung until a row settles it, and nothing else |
| DeadlineRuns.EveryRungAttempted | src/cra/server/deadline_sweeper.py:449-526 | Under such a schedule every rung of a clock seen whenever it is due within a week is attempted inside its own window |
| DeadlineRuns.PassesAreRuns | src/cra/server/deadline_sweeper.py:435-526 | Passes over what the queries return are runs, so every statement about runs holds of them |
| DeadlineRuns.EveryRungAlerted | src/cra/server/deadline_sweeper.py:416-526 | With a lookahead of at least 168 hours, every rung of an obligation left open in the table is attempted inside its own window, however far ahead it was due when the passes began |
| DeadlineRuns.LookaheadHidesNothing | src/cra/deadlines.py:262-270 | With a lookahead of at least 168 hours, sweeping the filtered set attempts, writes and, when dry, plans what sweeping every open obligation and tracked product would |
| DeadlineRuns.ShorterLookaheadHides | src/cra/deadlines.py:262-270 | Every shorter lookahead hides an alert that is already due |
| SessionLimiter.Limiter.Sweep | src/cra/server/session_limiter.py:68-78 | Deleting dead ids one by one leaves exactly the live row, or no row |
| SessionLimiter.Limiter.Track | src/cra/server/session_limiter.py:100-119 | The locked body gives the table's answer and the table's next state |
| SessionLimiter.Limiter.CheckAndTrack | src/cra/server/session_limiter.py:80-119 | Over the object's whole request history the answer and count are those of the sliding-window specification |
| SessionLimiter.TableIsWindow | src/cra/server/session_limiter.py:68-78 | A swept row holds exactly the ids admitted within the last 60 seconds, so the table decides as the history does |
| SessionLimiter.TableStaysHonest | src/cra/server/session_limiter.py:80-119 | Recording a decision keeps the table in step with the history |
| SessionLimiter.WindowBounded | src/cra/server/session_limiter.py:80-119 | In any 60-second window at most the limit of distinct ids is admitted per user |
| SessionLimiter.RefusedOnlyAtTheCap | src/cra/server/session_limiter.py:110-119 | An id is refused exactly when it is new and the limit of others was admitted within the last 60 seconds |
| SessionLimiter.CountsAreExact | src/cra/server/session_limiter.py:100-119 | Every count returned is the number of ids admitted in the 60 seconds up to the answer; a request without an id passes exactly below the limit and is not counted |
| SessionLimiter.UsersAreIsolated | src/cra/server/session_limiter.py:68-119 | Replaying one user's requests alone gives that user the same answers |
| Matching.Worst | src/cra/advisories/match.py:219-228 | A scored alias of the highest percentile, or nothing exactly when none is scored |
| Matching.FindingIsHonest | src/cra/advisories/match.py:174-235 | A finding names its component and the CVEs among its advisory's upper-cased id and aliases; it is exploited exactly when one of them is on KEV and scored, by the highest percentile, exactly when one is scored |
| Matching.ListingIsTheFirst | src/cra/advisories/match.py:178-182 | The CVEs are in order and the listing reported is the first of them on KEV |
| Matching.ScoreIsOfTheFirst | src/cra/advisories/match.py:219-228 | Among CVEs of the highest percentile the first one's score is reported |
| Matching.RankAgreesWithQueue | src/cra/advisories/match.py:54-66 | The scan's rank and the first two keys of the stored queue's order agree on every pair |
| Matching.BuildFindings | src/cra/advisories/match.py:165-204 | Sorting the answers by component key, joining and ranking give the queue |
| Matching.QueueIgnoresRecordOrder | src/cra/advisories/match.py:169-204 | The order the answers were recorded in leaves no trace in the queue |
| Matching.MatchesAreListed | src/cra/advisories/match.py:169-173 | The matches are exactly the advisories listed for known components |
| Matching.QueueIsComplete | src/cra/advisories/match.py:201-204 | One finding per match, exploited first, then by falling percentile, unscored after every scored one, then by advisory id |
| Matching.TiesKeepTheirOrder | src/cra/advisories/match.py:201-204 | Findings of one rank stay in the order they were joined in |
| Matching.JoinedInOrder | src/cra/advisories/match.py:169-173 | Advisories are joined in the order of their component's ecosystem, name and version |
| Matching.QueueKeysDistinct | src/cra/advisories/match.py:50-52 | Finding keys are distinct exactly when no advisory is listed twice for a component and no two components of one name and version share one |
| Feeds.Parse | src/cra/advisories/sbom.py:130-178 | One component per key, the first use of each, and the two skip counters |
| Feeds.NothingDroppedSilently | src/cra/advisories/sbom.py:153-172 | Every object entry is a component or counted under the reason it could not be checked |
| Feeds.SkipsAreCounted | src/cra/advisories/sbom.py:153-172 | The counters are the entries whose URL has no version, and those with an empty URL or one that cannot be asked about |
| Feeds.OsvQuery | src/cra/advisories/feeds.py:152-195 | The chunked loop records each component's own answer; ok exactly when no chunk failed; queried counts the components reached |
| Feeds.ChunkingIsInvisible | src/cra/advisories/feeds.py:152-195 | With one result per query in every chunk the batches record what a single request would |
| Feeds.BlanksAreDropped | src/cra/advisories/feeds.py:184-191 | Of a reply only blank ids are dropped, and the rest keep their order |
| Feeds.RecordedIsLookup | src/cra/advisories/feeds.py:184-191 | Over distinct components the record is a lookup: present exactly when something was listed |
| Feeds.AdvisoryCache.Evict | src/cra/advisories/feeds.py:230-233 | Eviction removes the stated number, none of them younger than a survivor, and keeps both maps' keys equal |
| Feeds.AdvisoryCache.MakeRoom | src/cra/advisories/feeds.py:226-235 | A full cache gives up a tenth of its cap, at least one record, and one with room gives up none; what goes is no younger than what stays |
| Feeds.AdvisoryCache.Put | src/cra/advisories/feeds.py:226-235 | A put stays within the cap, keeps the maps' keys equal and evicts nothing while there is room |
| Feeds.AdvisoryCache.Lookup | src/cra/advisories/feeds.py:248-277 | A cached answer was served for that id within the time to live; a failed fetch is never cached |
| Feeds.KevCache.Catalogue | src/cra/advisories/feeds.py:106-137 | The cache always holds the latest fetch that answered, is ok exactly when one ever did and never again not, and asks the feed exactly when forced, empty or expired |
| Feeds.EpssScores | src/cra/advisories/feeds.py:383-423 | The result is the filter of the lines up to the stopping line, and equals a full filter exactly when no line after that one says otherwise |
| Feeds.StopsOnce | src/cra/advisories/feeds.py:403-423 | The stopping line computed from the file and the wanted CVEs is the only line at which every wanted score is first found, or where the stream breaks |
| Feeds.EarlyExitExactly | src/cra/advisories/feeds.py:403-423 | Reading up to the stopping line equals a full filter exactly when no line after it gives a wanted CVE another score |
| Feeds.EarlyExitLosesNothing | src/cra/advisories/feeds.py:403-423 | When CVE ids are unique in the file the early exit equals a full filter |
| Feeds.RepeatedCveDiffers | src/cra/advisories/feeds.py:403-423 | In a file that scores a CVE twice the stopping line is the first, which keeps the first score where a full read keeps the last |
| Advisories.Candidates.Persist | src/cra/server/advisories.py:338-461 | The transaction's loop and commit are the drafted update, or nothing changes and it fails |
| Advisories.Candidates.RefreshInPlace | src/cra/server/advisories.py:392-453 | Step-by-step field updates of an existing row amount to the refreshed row and its counters |
| Advisories.Candidates.Dismiss | src/cra/server/advisories.py:772-793 | A dismissal pins the current scores; a confirmed candidate cannot be dismissed |
| Advisories.Candidates.ReadForConfirm | src/cra/server/advisories.py:641-653 | The awareness anchor is the notice, or failing that the first sighting |
| Advisories.Candidates.CommitConfirm | src/cra/server/advisories.py:669-675 | Whatever happened in between, the row ends confirmed |
| Advisories.PersistRefusesClashes | src/cra/server/advisories.py:357-390 | A scan is refused exactly when two findings share a key the table does not hold |
| Advisories.PersistIsPerKey | src/cra/server/advisories.py:338-461 | For distinct keys the loop refines a per-key map update that leaves all other rows alone, with counters summed per finding |
| Advisories.RefreshExactly | src/cra/server/advisories.py:389-453 | Each field of a refreshed row and each counter, from the finding, the listing and the rise over the pin |
| Advisories.ScanExactly | src/cra/server/advisories.py:357-453 | A committed scan takes up each finding's row or starts it, field by field, a new listing re-opening a dismissal, and moves no other row |
| Advisories.StepsExactly | src/cra/server/advisories.py:747-800 | A dismissal pins both scores, a confirmation only confirms, and a notice stamps exactly the open, exploited, untold rows |
| Advisories.PersistIgnoresOrder | src/cra/server/advisories.py:338-461 | The order of findings changes neither table nor counters |
| Advisories.PersistIsIdempotent | src/cra/server/advisories.py:338-461 | A second pass on the same result changes nothing and counts (0, 0, 0) |
| Advisories.QueuePersists | src/cra/server/advisories.py:357-366 | A built queue persists whenever the scan is separable, and on an empty table only then |
| AdvisoryRuns.Latches | src/cra/server/advisories.py:392-453 | Over any run confirmed is never left, exploited never unset, a stored score never lost |
| AdvisoryRuns.PinIsLatestDismissal | src/cra/server/advisories.py:786-793 | The pinned score is the score held at the latest dismissal |
| AdvisoryRuns.OnlyNewsReopens | src/cra/server/advisories.py:396-453 | A dismissed candidate opens only on a first KEV listing or a rise by factor and step over its pin |
| AdvisoryRuns.ScanReopensExactly | src/cra/server/advisories.py:396-453 | In any run a scan re-opens a dismissed candidate exactly on a new listing or a rise over its pin, and a listing is owed a notice |
| AdvisoryRuns.ListedOnce | src/cra/server/advisories.py:409-422 | A KEV listing re-opens a candidate at most once |
| AdvisoryRuns.ReopensBoundedByFloor | src/cra/server/advisories.py:396-407 | Each EPSS re-open multiplies and lifts the floor under the score, for any rule |
| AdvisoryRuns.AtMostFiveReopens | src/cra/server/advisories.py:69-105 | While its score never falls, the default rule re-opens a candidate on EPSS at most five times |
| AdvisoryRuns.AtMostSixNotices | src/cra/server/advisory_sweeper.py:184-245 | Hence at most six notices on any such run of one row |
| AdvisoryRuns.NoticesFollowReopens | src/cra/server/advisory_sweeper.py:184-245 | Notices never outrun the re-opens by more than the first one |
| AdvisoryRuns.ResetBetweenNotices | src/cra/server/advisory_sweeper.py:186-193 | Between two notices the stamp was reset by a re-open or first listing |
| AdvisoryRuns.BoundsAreReached | src/cra/server/advisories.py:69-105 | A run that re-opens five times and is notified six |
| AdvisorySweeper.Sweeper.SendAll | src/cra/server/advisory_sweeper.py:214-237 | One log row per recipient with its send's outcome, counted |
| AdvisorySweeper.Sweeper.StampAll | src/cra/server/advisory_sweeper.py:239-245 | Every due row is stamped and no other changes |
| AdvisorySweeper.Sweeper.SweepProduct | src/cra/server/advisory_sweeper.py:163-245 | One product's scan, trust check, fan-out and stamp, with decisions falling between the scan's and the notice's transactions, and failed scans told apart, those that raise after their commit included |
| AdvisorySweeper.Sweeper.SweepOnce | src/cra/server/advisory_sweeper.py:125-257 | The pass sweeps entitled products in order and counts the others |
| AdvisorySweeper.NothingLeftUntold | src/cra/server/advisory_sweeper.py:184-245 | After a trusted turn no exploited open candidate is unstamped; an untrusted one tells nobody |
| AdvisorySweeper.TurnExactly | src/cra/server/advisory_sweeper.py:163-245 | A turn mails everybody exactly when the scan returned, every source answered and a row is open, exploited and untold; it stamps just those |
| AdvisorySweeper.DecisionExactly | src/cra/server/advisories.py:747-800 | A decision moves the row it names and no other, a dismissal pinning its scores and sparing a confirmed row |
| AdvisorySweeper.MailsTellTheirSends | src/cra/server/advisory_sweeper.py:214-237 | Every mail logged is sent, suppressed or failed as its own send turned out |
| AdvisorySweeper.OnlyTheEntitledAreSwept | src/cra/server/advisory_sweeper.py:138-158 | A pass does exactly what it would over the entitled products alone |
| AdvisorySweeper.DryRunStillScans | src/cra/server/advisory_sweeper.py:163-209 | A dry pass over any products logs nothing and leaves the wet pass's rows, equal in all but their stamps |
| AdvisoryPasses.PersistedRow | src/cra/server/advisories.py:357-453 | A committed scan takes a stored row through every finding for its key, in order, and starts a new row from a finding |
| AdvisoryPasses.PassIsRowSteps | src/cra/server/advisory_sweeper.py:163-245 | Whatever the findings, a product's turn takes a stored row through the findings for its key, then the decisions taken meanwhile, then a notice step if the scan can be trusted |
| AdvisoryPasses.DueIsTold | src/cra/server/advisory_sweeper.py:184-245 | A candidate that is due stays due through the scan and is mailed and stamped by the next trusted turn unless somebody decides about it in between |
| AdvisoryPasses.LostReceiptLosesNothing | src/cra/server/advisories.py:229-262 | A scan that cannot write its own record keeps its candidates, tells nobody, and leaves what is due to the next trusted turn |
| AdvisoryPasses.TracedPass | src/cra/server/advisory_sweeper.py:125-257 | Over all products of a pass a row's history grows by its scan steps and one notice per product that told about it |
| AdvisoryPasses.SendsDecideNothing | src/cra/server/advisory_sweeper.py:214-245 | The table a pass leaves and the candidates it tells about do not depend on how the sends turn out |
| AdvisoryPasses.FailedSendsAreNotRetried | src/cra/server/advisory_sweeper.py:239-245 | A turn whose every send broke stamps the row all the same, and the next turn tells about it only if its scan re-opens it on EPSS |
| AdvisoryPasses.AtMostSixPasses | src/cra/server/advisory_sweeper.py:125-257 | Over any run of passes, scans, dismissals and confirmations, decisions inside a pass included, in which its score never falls, at most six passes mail about a candidate |
| Retention.AnchorIsLatest | src/cra/server/conformity.py:116-121 | The anchor is a placing no other placing comes after, and exists exactly when something was placed |
| Retention.LatestIsPlaced | src/cra/server/annex.py:108-135 | The release a file describes is the last placed one in list order |
| Retention.RetentionIsTheLater | src/cra/server/conformity.py:116-149 | The end is one of ten years from a placing and the support end, and is no earlier than either for any placed release, day by day |
| Retention.RetentionFitsExactly | src/cra/server/conformity.py:116-149 | A period exists exactly when nothing was placed after the year 9989 |
| Retention.RetentionNeverShrinks | src/cra/server/conformity.py:116-149 | Placing another release or extending support never moves the end to an earlier day |
| Retention.LatestReleaseAnchors | src/cra/server/annex.py:108-135 | Retention runs from the release the file describes exactly when nothing was placed later |
| Retention.LatestReleaseNeedNotAnchor | src/cra/server/annex.py:108-135 | So a back-dated release recorded after a later placing parts the two, for any two dates |
| Narrative.RenderingIsCanonical | src/cra/server/conformity.py:286-309 | Lists with distinct ids render alike exactly when they hold the same lines |
| Narrative.NarrativeIsCanonical | src/cra/server/conformity.py:265-309 | Two narratives are equal exactly when requirements and Annex II items agree on every rendered field, up to the order of items, risk bases and evidence ids |
| TechnicalFile.EvidenceBySubject | src/cra/server/conformity.py:247-256 | The dictionary built row by row is a lookup into the table |
| TechnicalFile.EvidenceCurrency | src/cra/server/annex.py:155-217 | The loop over requirements gives each its verdict against the latest placed release |
| TechnicalFile.StaleMeansOnlyEarlier | src/cra/server/annex.py:189-200 | Stale exactly when there is live evidence and every row of it names another release |
| TechnicalFile.GapsAreUnanswered | src/cra/server/annex.py:244-270 | A gap is exactly a requirement neither ruled out with a reason nor implemented or verified, evidenced and evidenced against more than earlier releases |
| TechnicalFile.GatherEvidence | src/cra/server/conformity.py:316-323 | The nested loops gather a section's own rows, then those of its requirements, and name the sources |
| TechnicalFile.AssembleViews | src/cra/server/conformity.py:557-562 | The assembled sections are the specified views, in published order |
| TechnicalFile.CompleteMeansNoHoles | src/cra/server/conformity.py:563-568 | No mandatory section is missing exactly when the raw record fills each of them |
| TechnicalFile.CoverageSays | src/cra/server/conformity.py:361-440 | The risk section's lists: unanswered points, points evidenced on earlier releases or on no release, applied points without a risk, and how many points there are |
| TechnicalFile.StaleReasonsSay | src/cra/server/conformity.py:342-353 | Why an assessment no longer holds: another class, another lifecycle unless it was the placing, or a revision under way |
| TechnicalFile.InformationSays | src/cra/server/conformity.py:361-460 | The description section lists the items neither provided nor ruled out with a reason, and those ruled out |
| TechnicalFile.SectionSays | src/cra/server/conformity.py:312-336 | A section names the requirements that fed it, and the bill of materials is complete exactly when a live row it shows is one |
| TechnicalFile.SlotEvidenceExactly | src/cra/server/conformity.py:316-323 | A section shows exactly the live rows filed under it and under the requirements that feed it |
| TechnicalFile.SnapshotUnseen | src/cra/server/conformity.py:784-796 | A row filed as the assembled snapshot changes no section |
| TechnicalFile.DraftSeen | src/cra/server/conformity.py:1072-1085 | A drafted declaration adds one new id to its own section, completes it, and changes no other |
| Conformity.Registry.PrepareFreeze | src/cra/server/conformity.py:540-780 | Over a blob loaded earlier and the evidence rows read now: the refusals in order, and otherwise the body to freeze |
| Conformity.Registry.ApplyFreeze | src/cra/server/conformity.py:783-830 | Snapshot row, hash and pointer are written together |
| Conformity.Registry.PrepareDraft | src/cra/server/conformity.py:912-1070 | The refusals in order, and otherwise the declaration and its missing fields |
| Conformity.Registry.ApplyDraft | src/cra/server/conformity.py:1072-1120 | Declaration row, claim, hash, pointer and missing fields are written together, or nothing is |
| Conformity.Registry.ApplySignature | src/cra/server/conformity.py:1413-1456 | Already signed, not independent or past the calendar refuse in that order; otherwise one attestation is added |
| Conformity.FillFields | src/cra/server/conformity.py:962-1016 | The loop over Annex V fields fills exactly those with a source |
| FileProtocol.FreezeMovesNothing | src/cra/server/conformity.py:783-830 | Committing any snapshot leaves what the file says unchanged |
| FileProtocol.FreezeIsFixpoint | src/cra/server/conformity.py:622-655 | Reassembly right after a freeze gives the frozen hash, and freezing again freezes the same body |
| FileProtocol.FreezesExactlyWhenWhole | src/cra/server/conformity.py:563-568 | A freeze goes through exactly when in scope, covered, datable and without a mandatory hole |
| FileProtocol.FreezeAnswers | src/cra/server/conformity.py:540-655 | The refusals of a freeze in order, each with its condition; a refusal for holes names exactly the sections with one |
| FileProtocol.FrozenMeansAnswered | src/cra/server/conformity.py:563-568 | A frozen file has every Part I point ruled out with a reason or implemented or verified with evidence |
| FileProtocol.OpenPointRefusesFreeze | src/cra/server/conformity.py:563-568 | One Part I point left open, such as one still in progress, refuses the freeze and names the risk section |
| FileProtocol.FreezeCommits | src/cra/server/conformity.py:783-830 | The snapshot row, its author and the three fields that point at it, and nothing else |
| FileProtocol.DraftMovesTheHash | src/cra/server/conformity.py:1072-1120 | Drafting a declaration always moves the file, under a new id, and a current freeze then reads as changed |
| FileProtocol.NothingDeadlocks | src/cra/server/conformity.py:486-499 | From any record with no mandatory hole freeze, declare, re-freeze and sign all go through, whoever signs, unless the freezer claims independence, which is refused as such; the signature reads current and covers the declaration |
| FileProtocol.RewritingSupersedes | src/cra/server/conformity.py:622-655 | A current signature means nothing the file says was rewritten: no rendered requirement or Annex II item, claim, class, release, support date, assessment or section's evidence; rewriting any of it supersedes the signature |
| FileProtocol.MissingExactly | src/cra/server/conformity.py:962-1027 | An Annex V field is missing exactly when the record or the caller left it empty |
| FileProtocol.DraftsAreHonest | src/cra/server/conformity.py:862-909 | A draft claims only a route its class opens, with a basis, and names a mandatory notified body, so only three kinds of field can be missing |
| FileProtocol.DraftAnswers | src/cra/server/conformity.py:862-956 | The refusals of a draft in order, down to exactly which route a class opens |
| FileProtocol.DraftSays | src/cra/server/conformity.py:958-1024 | What each field holds: the caller's product over the recorded one, the trimmed manufacturer, the standards and notified body given |
| FileProtocol.DraftCommits | src/cra/server/conformity.py:1072-1120 | The declaration row, its author and the four fields written with it, and nothing else |
| FileProtocol.SignAnswers | src/cra/server/conformity.py:1370-1413 | The refusals of a signature in order, and what the attestation binds and says |
| FileProtocol.SignatureCommits | src/cra/server/conformity.py:1413-1456 | One signature per version of each paper: each refusal has its condition, and otherwise one attestation is added |
| FileProtocol.DeclarationReads | src/cra/server/conformity.py:1541-1575 | A declaration signature reads current exactly while the declaration on record is the one signed |
| FileProtocol.IndependenceSeesFilingsOnly | src/cra/server/conformity.py:1507-1517 | An independent signature on an unsigned version is refused as not independent exactly when the signer filed the latest row under a section; rewriting the record without filing bars nobody |
| FileProtocol.FreezerCannotSignAlone | src/cra/server/conformity.py:1427-1436 | Whoever froze the file last cannot sign it independently |
| ConformityRuns.EveryRunIsSound | src/cra/server/conformity.py:783-830 | Under any interleaving, a freeze reading blob and rows from different states included, the recorded hashes are the digests of the rows they point at, every attestation of this payload version names such a row, a signed declaration has no blank Annex V field and rests on a whole frozen file, and rows are only added or withdrawn |
| ConformityRuns.SignedVersionsWereRecorded | src/cra/server/conformity.py:1370-1456 | Every attestation a run adds binds to a version that was the recorded one at some earlier state, with no missing field if a declaration |
| ConformityRuns.SignaturesReadTrue | src/cra/server/conformity.py:1541-1575 | In every reachable record a file signature reads current exactly while the file says what the archived row it names says; one of an earlier payload version reads incomparable |
| ConformityRuns.SigningStaysReachable | src/cra/server/conformity.py:563-568 | From every reachable record without a mandatory hole the whole cycle goes through, whatever was signed before and whoever signs; only the freezer's own independent signature is refused |
| OAuth.Store.Gc | src/cra/server/oauth.py:219-232 | Expired codes go, and at the cap the oldest go until one place is free |
| OAuth.Store.Issue | src/cra/server/oauth.py:1385-1396 | Issuing collects and then stores the grant under its code |
| OAuth.Store.TokenEndpoint | src/cra/server/oauth.py:1405-1442 | Collection, pop and the three refusals in order; the code is gone whatever the answer |
| OAuth.EvictsOldest | src/cra/server/oauth.py:219-232 | Collection keeps every unexpired code below the cap, and at it evicts only codes no newer than every survivor |
| OAuth.StoreIsBounded | src/cra/server/oauth.py:219-232 | In every run codes stay distinct and the store within its cap |
| OAuth.StoredIsLatestIssue | src/cra/server/oauth.py:1385-1396 | A stored grant is its code's latest issue, unattempted since |
| OAuth.SuccessIsEarned | src/cra/server/oauth.py:1415-1433 | A token implies an issue within 300 seconds, the same redirect URI, a matching verifier, and no attempt in between |
| OAuth.AnswersExactly | src/cra/server/oauth.py:1405-1442 | Every refusal and the token with its exact condition on the entry found |
| OAuth.StoredExactly | src/cra/server/oauth.py:219-232 | A code is stored exactly when it was issued and since neither reissued, attempted, expired nor among the oldest evicted at the cap |
| OAuth.SucceedsExactly | src/cra/server/oauth.py:1415-1442 | In any run an attempt on a held code gets its token exactly with its redirect URI and a verifier whose digest is its challenge; the code is unknown exactly when no longer held |
| OAuth.HonestClientGetsToken | src/cra/server/oauth.py:1385-1442 | A client redeeming its latest code once within 300 seconds with what it began with gets its token, while the store was never full |
| OAuth.RaisesExactlyWhen | src/cra/server/oauth.py:269-273 | The token endpoint raises exactly for a live code with its redirect URI and a verifier and challenge both present but not both ASCII, and the code is spent |
| OAuth.TokensNeverExceedIssues | src/cra/server/oauth.py:1415-1433 | A code yields at most as many tokens as it was issued times |
| OAuth.AttemptSpendsTheCode | src/cra/server/oauth.py:1415-1433 | After any attempt, failed ones included, the code yields nothing until issued again |
| Billing.Webhooks.MarkProcessed | src/cra/server/billing.py:309-317 | True exactly on first sight, and the id is recorded |
| Billing.Webhooks.HandleEvent | src/cra/server/billing.py:320-341 | The dispatch amounts to the specified step; duplicates, refusals and a raise after the id was committed change no row |
| Billing.Webhooks.HandleCheckout | src/cra/server/billing.py:451-482 | A checkout without a usable plan leaves the row alone |
| Billing.Webhooks.HandleUpdated | src/cra/server/billing.py:540-575 | Status, paid-through date and tier after a subscription update |
| Billing.Webhooks.HandleDeleted | src/cra/server/billing.py:578-597 | A deletion only marks the status and never shortens the paid-through date |
| Billing.Webhooks.ExpireStaleTier | src/cra/server/billing.py:601-618 | The tier is written to free exactly when lapsed |
| Billing.TargetExactly | src/cra/server/billing.py:365-385 | Who is meant: a usable client reference, then the metadata, then the first account known by the customer |
| Billing.PlanFromExactly | src/cra/server/billing.py:388-402 | The seven ladder plans, and the trimmed lower-case name an event buys |
| Billing.EventLeaves | src/cra/server/billing.py:451-597 | What each kind of event leaves in every field of its row, a renewal's new paid-through date included |
| Billing.PlanExactly | src/cra/server/entitlements.py:183-213 | The plan in force for every stored tier and date |
| Billing.ExpiryExactly | src/cra/server/billing.py:601-618 | Persisting a lapse writes the tier alone, exactly for a tier not spelled as a granted one whose date has passed |
| Billing.RedeliveryIsHarmless | src/cra/server/billing.py:309-341 | Any webhook sequence leaves the rows that the first delivery of each event id alone would |
| Billing.FirstDeliveryDecides | src/cra/server/billing.py:320-341 | The rows after any number of deliveries of an event are those its first delivery left |
| Billing.FailedDeliveryIsFinal | src/cra/server/billing.py:328-341 | However often an event is redelivered, no row changes exactly when its first delivery raised, found nobody or had nothing to write, which for a checkout means no usable plan or a row that says it all already |
| Billing.InterleavingIsSerial | src/cra/server/billing.py:320-341 | However the id and row commits of several deliveries interleave, the rows are those of handling the written events one after another, and every other processed id is a delivery that stopped in between |
| Billing.EventsAreContained | src/cra/server/billing.py:388-402 | An event changes at most its own target row, keeps identity and customer, and moves a tier only to the ladder plan it names |
| Billing.ExpiryChangesPlanExactlyWhen | src/cra/server/entitlements.py:183-213 | Persisting a lapse changes a present or later plan exactly when the tier spells a grant the raw comparison misses |
| Billing.NormalisedExpiryIsInvisible | src/cra/server/billing.py:601-618 | For a normalised tier persisting a lapse changes no present or later plan |
| Billing.ExpiryCanRevokeAGrant | src/cra/server/billing.py:601-618 | A granted account spelled with a capital loses its plan to the expiry |

## Left out

- HTTP routes, pages, consent screens, mail text, audit rows, the statutory export and object storage: I/O; a send or fetch is an arbitrary outcome.
- SQL, ORM and migrations: tables are sequences or maps, a transaction is one step, and rows come back in insertion order where no ORDER BY is given.
- SHA-256, JSON and base64: a digest is a free constructor, and the PKCE digest an arbitrary function.
- Membership and role checks of the tools (`_member`), and input refusals that are one branch each (rationales, notes, VEX categories).
- Who the recipients of a product are: an arbitrary list, so delivery to each person is not claimed.
- At most one attestation per version under concurrency: the code checks and inserts in one session without a lock, and the model makes that one step.
- `parse_purl`: an arbitrary reading of each package URL, since its regular expression is string matching.
- EPSS rounding: scores and the re-open rule are exact reals; environment settings are constants of a run.
- Prose fields: summaries, notes, qualifications, thin justifications, the explanatory texts of a section and of a declaration, and the row titles.
- The simplified declaration: it files one more row under the declaration's section, which a `Work` step covers.
- `open_candidate_counts`, `latest_build`, `covered_product_ids` and the lists of `get_conformity_status`: they count or list what the modelled state holds and change nothing.
- The tools that edit requirements, releases, risks and support periods: a `Work` step changes the content and files rows arbitrarily.
- Re-anchoring of `due_at`: an obligation keeps its deadline through a run.
- Unicode case folding and whitespace: `strip`, `lower` and `startswith` are modelled on ASCII.
- Stripe calls, the confirmation mail, and the missing-product branch of the sweep that its foreign key makes unreachable.
- Redirect allow-lists and client registration of the OAuth server.
- Advisory summaries, severities and the KEV dates carried along by a finding: copied and never read by the modelled code.
- AdvisorySweeper.Sweeper.SweepProduct: a scan of the same product by its tool between the sweep's scan and its notice is not modelled, only decisions are.
- Billing.Webhooks.HandleEvent: one delivery runs alone there; `InterleavingIsSerial` covers deliveries whose two commits interleave, taking the look-up of the user and the write of the row as one step.

# DOWNFORCE: a verified model

DOWNFORCE rebuilds Formula 1 races, telemetry and archive statistics from recorded evidence. Its
documentation promises that replay never reads past its cursor, that shared answers stay consistent
while data is replaced underneath them, and that what a chart, map or register shows is faithful to
the record. This project models the parts of the repository that carry those promises and proves them.

Concurrent parts are modelled twice over the same definitions. Each critical section is a method of a
class holding the fields the source guards. Each protocol is a state machine whose actions are the
atomic steps between locks, awaits and renders, interleaved in any order: `Step` is total (an action
that is not enabled changes nothing) and every result speaks of all action sequences.

| file | what it models |
|---|---|
| support.dfy, grouping.dfy | filtering, sums, sorted sets, grouping by key |
| timeline.dfy | the canonical timeline the replay engine is given |
| replay_engine.dfy, driver_status.dfy | the event reducer, what its events tell of each driver, and the checkpointed replay engine |
| replay_service.dfy | the engine map's optimistic build racing with dataset activation |
| snapshot_protocol.dfy | the analytics snapshot's stamp check, load and install racing with catalog replacement |
| analytics_results.dfy, analytics_histories.dfy | the analytics result cache, whose keys are fixed before their builders read the snapshot again, and the catalog histories over which that goes wrong |
| ordered_dicts.dfy | the recency order both bounded caches keep |
| object_heap.dfy | objects with nested objects on a heap, and copying them whole |
| product_cache.dfy | the bounded telemetry cache and its defensive copies |
| season_analytics.dfy, season_progression.dfy | summaries, points progressions, concentration |
| head_to_head.dfy | driver and constructor comparison |
| async_resource.dfy | the resource hook and the paginated register built on it |
| telemetry_data.dfy | the telemetry bundle's request epochs |
| presentation.dfy | chart decimation and nearest-sample lookup |
| latest_positions.dfy, track_projection.dfy | the track map |
| replay_controller.dfy | the playback controller |
| url_state.dfy, url_reading.dfy | the shareable telemetry address and what each of its parameters means |
| event_timeline.dfy | the event rail's bins |

Assumptions. Replacing the catalog gives it a modification stamp it never had before. What a snapshot
or engine build produces is a function of the revision or dataset it reads; a telemetry product is a
function of its cache key, which pins an immutable revision. The entity server's list for a search does
not change during a visit. A React event, the render it causes and that render's effects happen as
one step. Times, coordinates and distances are exact reals or integers; points are exact hundredths.

Where a promise fails, the model keeps the code as it is and states when it holds:

- a snapshot can be stale, because two failed stats look alike: every answer of every run over a catalog
  history is of its call's time exactly when no readable catalog came between two absences of the file
  (`SnapshotProtocol.FreshExactlyWithoutGap`);
- a cached result can be built from another revision than its key's (a builder that reads the snapshot again
  after a publication stores such a product at once). Calls during which nothing is published never get one,
  in any run over a catalog history, exactly when no replaced revision is published again and no two
  revisions were readable between two absences of the file (`AnalyticsHistories.QuietAnswersAgreeExactly`);
  every answer of every call is made of revisions of its own time exactly when no replaced revision is
  published again and none was readable between two absences (`AnalyticsHistories.OfItsTimeExactlyWhenSteady`);
- an engine can mix two datasets: over a history of activations it can exactly when a replaced dataset is
  activated again (`ReplayService.MixesExactlyWhenADatasetReturns`);
- drivers level in a race are counted nowhere, so driver counts cover all common races exactly when
  there is no such race (`HeadToHead.DriversConserveRaces`);
- a shared address reproduces its selection exactly when the zoom bounds are integers
  (`UrlState.SharedLinkReproduces`);
- the first animation frame may carry a timestamp before the playing effect's own clock and then moves
  the cursor back (`ReplayController.FirstFrameMustNotPrecedeClock`);
- the register's prefix law needs retry to be offered only while an error is shown
  (`EntityDirectory.UngatedRetryLeavesGap`);
- the telemetry on show can be of another lap than the one selected exactly when the server serves a lap it
  does not list (`TelemetryData.LagsExactlyWhenServedLapUnlisted`); this repository's reader lists every
  lap it serves (`TelemetryData.ReaderNeverLags`).

## Model

| member | source | states |
|---|---|---|
| ReplayReducer.LatestObservationWins | packages/downforce_core/src/downforce_core/replay/reducer.py:158-253 | after any accepted events, each driver's position, lap time, stint, compound and tyre age is the last one observed, the lap count the furthest lap, and track status and weather the last observed, however the event kinds interleave |
| DriverStatus.StoryTells | packages/downforce_core/src/downforce_core/replay/reducer.py:153-265 | after any accepted events a driver is in the pit as the last word on it says, its status is otherwise the last one announced, or active since, its stops are its entries from the track, its last pit lap the last one given, and all of it is final from the first terminal status on |
| ReplayReducer.ReplayInvariant | packages/downforce_core/src/downforce_core/replay/reducer.py:268-289 | over every run: time never goes back, the roster is fixed, laps and pit stops never fall, a terminal status and its pit-stop count are final, and a driver is in the pit exactly while the status says so |
| ReplayReducer.RecentControlIsLatestTwenty | packages/downforce_core/src/downforce_core/replay/reducer.py:233-246 | the messages held are the end of all messages of the run, time, text, category, scope and driver included: twenty of them, or all when there are fewer |
| ReplayReducer.OtherDriversUntouched | packages/downforce_core/src/downforce_core/replay/reducer.py:144-150 | events that name other drivers never change a driver |
| ReplayReducer.ReplayConcat | packages/downforce_core/src/downforce_core/replay/reducer.py:268-289 | replaying two stretches one after the other is replaying them together, rejections included |
| ReplayReducer.InOrderReplays | packages/downforce_core/src/downforce_core/replay/reducer.py:268-289 | events of one session in time order, with readable pit-entry laps, are rejected exactly when some payload is malformed or some driver is not on the roster |
| ReplayReducer.RejectedExactly | packages/downforce_core/src/downforce_core/replay/reducer.py:144-289 | an event is rejected exactly for another session, an earlier time, a missing or unknown driver where one is needed, or a number or text its kind forbids |
| ReplayReducer.NothingObservedAtFirst | packages/downforce_core/src/downforce_core/replay/reducer.py:59-81 | a race begins at time zero with the whole roster and nothing observed |
| Timeline.BuildTimeline | packages/downforce_core/src/downforce_core/replay/timeline.py:257-276 | the timeline holds exactly the candidates, each once, in strictly increasing order of identity |
| Timeline.TimelineIsUnique | packages/downforce_core/src/downforce_core/replay/timeline.py:260-262 | the same candidates in any order and multiplicity give the same timeline |
| Timeline.BuiltIsCanonical | packages/downforce_core/src/downforce_core/replay/timeline.py:65-77 | a built timeline always passes the checks on session and order of a canonical timeline |
| Timeline.KindsInOrder | packages/downforce_core/src/downforce_core/domain/events.py:33-46 | the order in which simultaneous events of different kinds are replayed |
| Timeline.EventsAreTheirCandidates | packages/downforce_core/src/downforce_core/replay/timeline.py:263-276 | each event has its candidate's time, driver and payload, under the session |
| Timeline.BuiltReplays | packages/downforce_core/src/downforce_core/replay/engine.py:48-50 | a built timeline (its pit-entry laps come typed from the stop records) is replayed without rejection exactly when every candidate's payload is well formed and its driver is on the roster |
| ReplayEngine.MutableDriver.Transition | packages/downforce_core/src/downforce_core/replay/reducer.py:153-265 | the column-by-column writes of each driver event leave exactly the driver the transition defines, and reject exactly its bad payloads |
| ReplayEngine.MutableReplayState.ApplyEvent | packages/downforce_core/src/downforce_core/replay/reducer.py:268-289 | writing one event in place, time first and then the handler's columns, is accepted exactly when the event is, and then the whole state, the other drivers included, is the pure transition's |
| ReplayEngine.MutableReplayState.ApplyAll | packages/downforce_core/src/downforce_core/replay/engine.py:96-97 | applying a slice of events in place is replaying it |
| ReplayEngine.Engine.Build | packages/downforce_core/src/downforce_core/replay/engine.py:32-57 | construction succeeds exactly when the interval is positive, the timeline replays and every due checkpoint can be frozen; the checkpoints then sit exactly at the multiples of the interval and the end |
| ReplayEngine.Engine.StateAt | packages/downforce_core/src/downforce_core/replay/engine.py:83-101 | outside the timeline a cursor error; inside, whatever the checkpoint interval, the state of replaying exactly the events at or before the cursor, with the cursor as its time and every other column that of the replay, and the greatest lap completed by then; refused exactly when a measure is negative or a lap, position or stint below one |
| ReplayEngine.FutureCannotLeak | packages/downforce_core/src/downforce_core/replay/engine.py:29-30 | adding later events and later lap cursors changes no earlier answer |
| ReplayEngine.LaterCursorsIgnored | packages/downforce_core/src/downforce_core/replay/timeline.py:83-89 | the reference lap at a time does not depend on laps that end after it |
| ReplayEngine.BisectRight | packages/downforce_core/src/downforce_core/replay/engine.py:92-93 | binary search counts the leading values that do not exceed the cursor |
| ReplayService.EngineMap.Install | apps/api/app/services/replay_service.py:32-42 | whichever engine came first under the key answers and is then the only one of its session; the other sessions' engines stay |
| ReplayService.AnswerWasActiveDuringCall | apps/api/app/services/replay_service.py:20-42 | in every interleaving a finished call answers for a dataset active at some instant of the call, and retries number at most the activations during it |
| ReplayService.EnteredWhereItBegan | apps/api/app/services/replay_service.py:20-23 | the activation a call counts from is the latest one when it began |
| ReplayService.LeavesWhereItReturns | apps/api/app/services/replay_service.py:20-42 | a call leaves at the activation of the moment it returns |
| ReplayService.OvertakenBuildRetries | apps/api/app/services/replay_service.py:29-31 | a build overtaken by another dataset is done again, any other goes on to be installed |
| ReplayService.FirstEngineAnswers | apps/api/app/services/replay_service.py:32-42 | a call beaten to the map answers with the engine it finds and changes nothing; one that raised fails and changes nothing |
| ReplayService.CallLeftAloneAnswersActive | apps/api/app/services/replay_service.py:20-42 | a call left alone answers for the active dataset without another retry, from the map or with an engine built wholly from it, then the session's only one |
| ReplayService.AnswerIsUnmixed | apps/api/app/services/replay_service.py:29-31 | while no replaced dataset of its session is activated again, tables and events of an answer come from its one dataset |
| ReplayService.OneUnmixedEnginePerSession | apps/api/app/services/replay_service.py:36-41 | in every interleaving the map holds at most one engine per session; while no replaced dataset of the session returns, it is built wholly from its key's dataset |
| ReplayService.ReactivationMixesDatasets | apps/api/app/services/replay_service.py:29-31 | for every history with a dataset activated again after another, a run over that history caches and answers with an engine of both |
| ReplayService.MixesExactlyWhenADatasetReturns | apps/api/app/services/replay_service.py:20-42 | for every history of a session's activations: some run caches or answers a mixed engine if and only if a replaced dataset is activated again |
| ReplayService.RunKeepsWithin | apps/api/app/services/replay_service.py:20-42 | every run keeps every call's remembered reads within its session's history in reading order, so no step is ever blocked |
| SnapshotProtocol.AnalyticsEngine.Check | packages/downforce_core/src/downforce_core/analytics/engine.py:122-128 | first critical section: answers from memory exactly when not forced, a snapshot exists and the stamps agree |
| SnapshotProtocol.AnalyticsEngine.Settle | packages/downforce_core/src/downforce_core/analytics/engine.py:130-154 | second critical section: an unchanged revision keeps the snapshot and cache and refreshes the stamp; otherwise snapshot and stamp are replaced and the cache emptied |
| SnapshotProtocol.AnswerWasOnDiskDuringCall | packages/downforce_core/src/downforce_core/analytics/engine.py:117-154 | in every interleaving with catalog replacements, a call whose stat succeeded, or that went to disk, or over a history without a readable catalog between two absences, returns a revision that was on disk at some instant of the call |
| SnapshotProtocol.StoredStampNeverNewer | packages/downforce_core/src/downforce_core/analytics/engine.py:135-152 | the stored stamp, or its absence, belongs to a version no newer than one holding the stored snapshot's revision |
| SnapshotProtocol.EnteredWhereItBegan | packages/downforce_core/src/downforce_core/analytics/engine.py:117-121 | the version a call counts from is the latest one when it began |
| SnapshotProtocol.StampsTheDisk | packages/downforce_core/src/downforce_core/analytics/engine.py:118-121 | a call carries the stamp of the file as it began, and none when there is no file |
| SnapshotProtocol.LeavesWhereItReturns | packages/downforce_core/src/downforce_core/analytics/engine.py:117-154 | a call leaves at the version of the moment it returns |
| SnapshotProtocol.AnsweredFromMemoryExactly | packages/downforce_core/src/downforce_core/analytics/engine.py:122-128 | a call is answered from memory exactly when it is not forced and a snapshot is stored under its stamp |
| SnapshotProtocol.CallLeftAloneReadsDisk | packages/downforce_core/src/downforce_core/analytics/engine.py:129-154 | any other call, left alone, answers with the catalog on disk and remembers its stamp; a forced one builds anew, an unforced one keeps a snapshot of the same revision; it fails when there is nothing to read |
| SnapshotProtocol.FreshExactlyWithoutGap | packages/downforce_core/src/downforce_core/analytics/engine.py:117-154 | for every catalog history: all answers of all runs are of their calls' times if and only if no readable catalog came between two absences |
| SnapshotProtocol.FailedStatCanServeStale | packages/downforce_core/src/downforce_core/analytics/engine.py:120-121 | for every history with a readable catalog between two absences, a run over it in which two failed stats match and a call is answered with a revision on disk at no instant of it |
| SnapshotProtocol.AnalyticsEngine.Recall | packages/downforce_core/src/downforce_core/analytics/engine.py:295-299 | first critical section of a cached result: a hit is moved to the end, a miss changes nothing |
| SnapshotProtocol.AnalyticsEngine.Remember | packages/downforce_core/src/downforce_core/analytics/engine.py:301-305 | second critical section: stored as most recent, trimmed from the old end to 64 |
| AnalyticsResults.ProductIsOfTheRequest | packages/downforce_core/src/downforce_core/analytics/engine.py:287-306 | in every run every cache entry and every answer is the product built for its own request under its own keyed revision |
| AnalyticsResults.KeysTellApart | packages/downforce_core/src/downforce_core/analytics/engine.py:293-294 | equal keys are of equal requests and revisions |
| AnalyticsResults.AnswersWhatWasAsked | packages/downforce_core/src/downforce_core/analytics/engine.py:287-306 | in every run a call is for the request its thread last asked, counted from the version at which it asked |
| AnalyticsResults.AsksAndReadsTakeASnapshot | packages/downforce_core/src/downforce_core/analytics/engine.py:292-300 | asking, and every read of a builder, takes an unforced snapshot of its own, and the read adds exactly what it got |
| AnalyticsResults.LeavesAtTheAnswer | packages/downforce_core/src/downforce_core/analytics/engine.py:287-306 | a call leaves at the version of the moment it is answered |
| AnalyticsResults.FinishedIsAnsweredAndCached | packages/downforce_core/src/downforce_core/analytics/engine.py:300-306 | a finished product is made of exactly its builder's reads, answers its call and is what the next hit gives |
| AnalyticsResults.HitOrBuild | packages/downforce_core/src/downforce_core/analytics/engine.py:295-300 | a call of a cached key is answered with what is cached, any other builds |
| AnalyticsResults.NewSnapshotEmptiesCache | packages/downforce_core/src/downforce_core/analytics/engine.py:150-153 | whenever the stored snapshot changes, the cache is empty |
| AnalyticsResults.ProductIsOfTheCall | packages/downforce_core/src/downforce_core/analytics/engine.py:287-306 | in every interleaving with refreshes and catalog replacements in which no replaced revision returns and no readable catalog comes between two absences, every revision that went into an answer, built or recalled, was on disk at some instant of that call |
| AnalyticsHistories.OfItsTimeExactlyWhenSteady | packages/downforce_core/src/downforce_core/analytics/engine.py:287-306 | for every catalog history, absences included: all answers of all runs are made of revisions of their calls' times if and only if nothing returns and no catalog comes between two absences |
| AnalyticsResults.QuietAnswerAgrees | packages/downforce_core/src/downforce_core/analytics/engine.py:287-306 | when nothing returns and gaps hold one revision, a call during which nothing is published answers wholly from its key's revision, even a product that another call built while the snapshot changed; without gaps that is the revision on disk |
| AnalyticsHistories.QuietAnswersAgreeExactly | packages/downforce_core/src/downforce_core/analytics/engine.py:287-306 | for every catalog history, absences included: in every run the answers of calls during which nothing is published are built from their key's revision if and only if no replaced revision is published again and no two revisions were readable between two absences |
| AnalyticsResults.CacheIsMostRecent | packages/downforce_core/src/downforce_core/analytics/engine.py:295-305 | after any interleaving the result cache is exactly the 64 or fewer keys touched last since a new snapshot cleared it |
| AnalyticsResults.EveryAnswerIsATouch | packages/downforce_core/src/downforce_core/analytics/engine.py:295-305 | the touches are exactly the keys answered |
| ProductCache.TelemetryCache.Lookup | apps/api/app/services/telemetry_service.py:137-140 | a hit moves the key to the end and hands out a fresh object equal to the cached one; a miss changes nothing |
| ProductCache.TelemetryCache.Install | apps/api/app/services/telemetry_service.py:142-147 | stores a fresh copy under the key as most recent and trims from the old end to sixteen |
| OrderedDicts.TouchPresent | apps/api/app/services/telemetry_service.py:138-139 | moving a present key to the end keeps the most-recent order for the log with one more touch |
| OrderedDicts.TouchAbsent | apps/api/app/services/telemetry_service.py:143-146 | appending an absent key and dropping the oldest beyond the limit keeps the most-recent order |
| OrderedDicts.RisingPairwise | apps/api/app/services/telemetry_service.py:139-146 | in the cache's order, an earlier key was last touched before a later one |
| ProductCache.CacheIsMostRecentBuilds | apps/api/app/services/telemetry_service.py:136-147 | after any interleaving the cache is exactly the sixteen or fewer most recently touched keys, oldest touch first, each holding the build of its key |
| ProductCache.EveryAnswerIsATouch | apps/api/app/services/telemetry_service.py:136-147 | in every run the touches are exactly the keys answered, in order |
| ProductCache.AnswersTheKeyAsked | apps/api/app/services/telemetry_service.py:136-147 | in every run a call is for the key its thread last asked, through to its answer |
| ProductCache.CallLeftAloneAnswers | apps/api/app/services/telemetry_service.py:136-147 | a call left alone is answered with the build of its key, at once from the cache and otherwise by building and storing |
| ProductCache.CallersHoldTheirAnswers | apps/api/app/services/telemetry_service.py:140-147 | callers hold every part of what they are given and may overwrite what they hold |
| ProductCache.FailedBuildStoresNothing | apps/api/app/services/telemetry_service.py:141-141 | a build that raises fails its call and leaves the cache alone |
| ProductCache.MutationNeverChangesAnAnswer | apps/api/app/services/telemetry_service.py:140-147 | whatever callers write into objects they were given and into what is nested in them, every answer is the build of its key |
| ObjectHeap.AllocMakes | apps/api/app/services/telemetry_service.py:143-147 | creating an object cell by cell makes one that says what was asked, of new cells only |
| ObjectHeap.DeepCopySurvives | apps/api/app/services/telemetry_service.py:140-147 | after a deep copy, whatever is written to any older cell leaves the copy saying what the original said |
| ObjectHeap.ShallowCopyShares | apps/api/app/services/telemetry_service.py:140-147 | a copy of the root alone changes with every change of a part |
| Grouping.Groups | packages/downforce_core/src/downforce_core/analytics/engine.py:414-424 | keys in order of first appearance, each group exactly the items with that key in their order |
| Grouping.FirstSeenInOrder | packages/downforce_core/src/downforce_core/analytics/engine.py:414-424 | the keys are listed by where they first appear |
| Grouping.GroupSizesAddUp | packages/downforce_core/src/downforce_core/analytics/engine.py:414-424 | every keyed item is in exactly one group |
| Observations.GroupSummariesAddUp | packages/downforce_core/src/downforce_core/analytics/engine.py:351-424 | every additive column of the summaries of all groups sums to that column of the summary of all keyed observations |
| Observations.SummarizeConcat | packages/downforce_core/src/downforce_core/analytics/engine.py:351-391 | the summary of two lists together is the sum of their summaries |
| Observations.SummarizeOne | packages/downforce_core/src/downforce_core/analytics/engine.py:351-391 | every column of the summary of one observation; with additivity it fixes every summary |
| Observations.SummaryOrdered | packages/downforce_core/src/downforce_core/analytics/engine.py:354-377 | wins <= podiums <= finishes <= starts, starts + dns = count, finishes + dnf + dsq <= starts, samples within their populations |
| SeasonProgression.Progression | packages/downforce_core/src/downforce_core/analytics/engine.py:468-496 | one entry per round in increasing order for each leading entity, each the sum of that entity's points through that round |
| SeasonProgression.AddRound | packages/downforce_core/src/downforce_core/analytics/engine.py:474-476 | one pass adds to every running total exactly that entity's points in the round |
| SeasonProgression.ProgressionEndsAtSeasonTotal | packages/downforce_core/src/downforce_core/analytics/engine.py:434-496 | the last entry of a progression equals the season total the grouping and summary compute independently |
| SeasonProgression.ProgressionMonotone | packages/downforce_core/src/downforce_core/analytics/engine.py:468-480 | with non-negative points a progression never falls |
| SeasonProgression.ConcentrationBounds | packages/downforce_core/src/downforce_core/analytics/engine.py:533-542 | concentration is at least 1/n, and at most 1 when no constructor has negative points |
| SeasonProgression.ConcentrationIsSquaresOverSquare | packages/downforce_core/src/downforce_core/analytics/engine.py:533-542 | there is an index exactly when the total is positive, and it is the sum of squared points over the squared total |
| SeasonProgression.EvenSplitIsLeast | packages/downforce_core/src/downforce_core/analytics/engine.py:539-539 | the squared total share is at most n times the sum of squared shares |
| SeasonProgression.MonopolyIsGreatest | packages/downforce_core/src/downforce_core/analytics/engine.py:539-539 | for non-negative values the sum of squared shares is at most the squared total share |
| HeadToHead.CompareDrivers | packages/downforce_core/src/downforce_core/analytics/engine.py:1282-1309 | for any order of visiting the common races, each count is the number of common races whose last observations are so decided: a smaller finish of two placed drivers, not both placed, or the same team; missing entities are an error |
| HeadToHead.CompareTeams | packages/downforce_core/src/downforce_core/analytics/engine.py:1310-1321 | for any order, the counts are the numbers of common races with more, fewer and equal summed points |
| HeadToHead.BySessionKeys | packages/downforce_core/src/downforce_core/analytics/engine.py:1288-1289 | the per-session dict has exactly the sessions listed |
| HeadToHead.BySessionIsLast | packages/downforce_core/src/downforce_core/analytics/engine.py:1288-1289 | and holds the last observation of each |
| HeadToHead.DriversConserveRaces | packages/downforce_core/src/downforce_core/analytics/engine.py:1271-1309 | ahead + behind + excluded + equal = common races, so the reported counts cover every common race if and only if no race has equal comparable positions |
| HeadToHead.TeamsConserveRaces | packages/downforce_core/src/downforce_core/analytics/engine.py:1311-1321 | ahead + behind + tied = common races |
| HeadToHead.DriversMirror | packages/downforce_core/src/downforce_core/analytics/engine.py:1282-1309 | swapping the drivers swaps the two counts and keeps exclusions, teammates and common races |
| HeadToHead.TeamsMirror | packages/downforce_core/src/downforce_core/analytics/engine.py:1311-1321 | swapping the constructors swaps the two counts and keeps ties |
| AsyncResource.Resource.Render | apps/web/src/lib/use-async-resource.ts:13-21 | a new key is kept and makes a lifecycle and a request later than all before, the same key changes nothing, and what is stored stays |
| AsyncResource.Resource.Retry | apps/web/src/lib/use-async-resource.ts:52-52 | a retry is a new request in the same lifecycle |
| AsyncResource.Resource.Resolve | apps/web/src/lib/use-async-resource.ts:32-34 | the newest request's data is shown and ends the loading, any other changes nothing |
| AsyncResource.Resource.Reject | apps/web/src/lib/use-async-resource.ts:35-45 | the newest request's error is shown over the data shown before, any other changes nothing |
| AsyncResource.Resource.UpdateData | apps/web/src/lib/use-async-resource.ts:53-64 | an update applies only to data stored by the captured lifecycle and request |
| EntityDirectory.KeyIsLastSearched | apps/web/src/lib/use-async-resource.ts:13-17 | in every run the hook serves the key last searched for |
| EntityDirectory.SearchStartsAfresh | apps/web/src/lib/use-async-resource.ts:13-24 | a search for another key has a lifecycle and a request later than any the run had, and shows nothing of what was stored |
| EntityDirectory.ShownItemsArePrefix | apps/web/src/features/analytics/EntityDirectory.tsx:48-73 | over every run of searches (back to an earlier key included), gated retries, load-mores and responses in any order, the items shown are a gap-free, duplicate-free prefix of the server's list for the key last searched for |
| EntityDirectory.LoadShowsFirstPage | apps/web/src/lib/use-async-resource.ts:25-45 | the newest load shows the first hundred items, or its error over what was shown |
| EntityDirectory.PageAddsHundred | apps/web/src/features/analytics/EntityDirectory.tsx:48-73 | the page of the newest request adds the next hundred items; its failure adds none and is reported |
| EntityDirectory.CanShowEverything | apps/web/src/features/analytics/EntityDirectory.tsx:48-73 | every run can be continued, without another search, to show the whole list |
| EntityDirectory.ShownErrorIsCurrent | apps/web/src/lib/use-async-resource.ts:65-72 | an error is shown only when the newest request itself failed with it |
| EntityDirectory.UngatedRetryLeavesGap | apps/web/src/features/analytics/EntityDirectory.tsx:48-61 | were retry offered while data is shown, a concrete run leaves a gap in the register |
| EntityDirectory.StepKeeps | apps/web/src/features/analytics/EntityDirectory.tsx:48-73 | every step keeps: the one page in flight for the current request continues exactly what is stored |
| TelemetryData.RequestEpoch.Begin | apps/web/src/features/telemetry/telemetry-utils.ts:4-6 | a new key, one past the last |
| TelemetryData.RequestEpoch.Supersede | apps/web/src/features/telemetry/telemetry-utils.ts:2-10 | however many requests follow, an old key is never current again |
| TelemetryData.OnlyNewestRequestInstalls | apps/web/src/features/telemetry/useTelemetryData.ts:271-343 | whatever order responses arrive in, a step installs at most one bundle, that of the newest epoch; keys of successive installs only grow |
| TelemetryData.BundleMatchesSelection | apps/web/src/features/telemetry/useTelemetryData.ts:99-120 | in every run every product of the bundle on show carries the selected session and revision, drivers and settings match, and so do the laps when the server lists every lap it serves |
| TelemetryData.WantedIsFetched | apps/web/src/features/telemetry/useTelemetryData.ts:271-300 | in every run a selected comparison that is complete, in the catalog and validated is on show, refused or on its way, and no other can be installed |
| TelemetryData.ChoosingSelects | apps/web/src/features/telemetry/useTelemetryData.ts:99-120 | choosing selects what was chosen; another comparison takes the bundle off the page and supersedes every request in flight |
| TelemetryData.ResponseIsInstalled | apps/web/src/features/telemetry/useTelemetryData.ts:301-343 | the newest request's response is installed when all its products are of the session and revision selected, refused otherwise, and any other response changes nothing |
| TelemetryData.FailureIsShown | apps/web/src/features/telemetry/useTelemetryData.ts:335-338 | the newest request's failure is shown, any other changes nothing on the page |
| TelemetryData.StrayListingIgnored | apps/web/src/features/telemetry/useTelemetryData.ts:192-222 | a listing aborted or already answered changes nothing; another session, revision or driver asks for its own |
| TelemetryData.RetryStartsOver | apps/web/src/features/telemetry/useTelemetryData.ts:376-381 | retrying forgets the catalog and the bundle and keeps the selection |
| TelemetryData.LapsFillIn | apps/web/src/features/telemetry/useTelemetryData.ts:219-256 | loaded laps fill in the laps not chosen and, under validation only, replace an unlisted one |
| TelemetryData.ValidationCanLeaveOldLapOnShow | apps/web/src/features/telemetry/useTelemetryData.ts:223-256 | for every served pair with an unlisted lap, a run in which going back to a context link's address leaves the old lap's bundle on show |
| TelemetryData.LagsExactlyWhenServedLapUnlisted | apps/web/src/features/telemetry/useTelemetryData.ts:60-343 | for every server: some run shows a bundle for other laps than those selected if and only if some served lap is not listed |
| TelemetryData.ReaderNeverLags | packages/downforce_core/src/downforce_core/telemetry/reader.py:53-69 | a server that lists and looks up laps in the same pinned table lists every lap it serves, so the bundle on show is always the selected comparison |
| TelemetryData.FastestIsFirstFastest | apps/web/src/features/telemetry/telemetry-utils.ts:63-92 | the default lap is a timed one, no timed lap is faster and every earlier one is slower |
| TelemetryData.StepKeeps | apps/web/src/features/telemetry/useTelemetryData.ts:60-343 | every step keeps: a request that could still be installed asks for exactly what is selected |
| Presentation.PresentationIndices | apps/web/src/features/telemetry/telemetry-utils.ts:24-62 | strictly increasing indices with both ends; categorical: the drawn step function is the original, and nothing but the ends and the sides of changes is kept; numeric: every null with its successor, the extremes of every window of the bucket width, and at most 4 * ceil(budget / 4) indices besides |
| Presentation.StrideIsLeast | apps/web/src/features/telemetry/telemetry-utils.ts:38-38 | the bucket width is the least one at which a budget of four points a bucket covers the trace |
| Presentation.BucketsFollowOn | apps/web/src/features/telemetry/telemetry-utils.ts:39-39 | bucket b begins b widths into the trace |
| Presentation.NumbersAre | apps/web/src/features/telemetry/telemetry-utils.ts:46-53 | numbers count as themselves, true as one and false as none |
| Presentation.KeepBuckets | apps/web/src/features/telemetry/telemetry-utils.ts:38-60 | the bucketing loop keeps both extremes of every bucket, every null and its successor, and besides those at most four indices per bucket |
| Presentation.ScanBucket | apps/web/src/features/telemetry/telemetry-utils.ts:40-54 | one bucket's scan finds positions of its least and greatest value and marks null neighbours |
| Presentation.KeepChanges | apps/web/src/features/telemetry/telemetry-utils.ts:31-36 | both sides of every change of value are kept |
| Presentation.ChangesKeptIsLossless | apps/web/src/features/telemetry/telemetry-utils.ts:31-36 | keeping every change makes the value at the greatest kept index at or before i the value at i |
| Presentation.FewBuckets | apps/web/src/features/telemetry/telemetry-utils.ts:38-39 | the stride yields at most ceil(budget / 4) buckets |
| Presentation.NoSegmentBridgesGap | apps/web/src/features/telemetry/telemetry-utils.ts:43-43 | between consecutive kept indices there is no null, so no drawn segment bridges a gap |
| Presentation.GlobalExtremesKept | apps/web/src/features/telemetry/telemetry-utils.ts:44-57 | every value lies between two kept values |
| Presentation.NearestIndex | apps/web/src/features/telemetry/telemetry-utils.ts:11-23 | on sorted distances the result is a sample at least distance from the cursor, the one not before it on a tie |
| LatestPositions.LatestPositionsAt | apps/web/src/features/replay/replay-utils.ts:206-237 | a driver has an entry exactly when it has a sample with both coordinates from the window that ends at the cursor, the entry is such a sample of its own, and it is the fold of the driver's own samples in stable time order |
| LatestPositions.OnlyWindowMatters | apps/web/src/features/replay/replay-utils.ts:216-221 | two recordings with the same samples in the window that ends at the cursor give the same entries |
| LatestPositions.FutureAndStaleIgnored | apps/web/src/features/replay/replay-utils.ts:216-221 | samples after the cursor or before the window could as well not be there |
| LatestPositions.EntryIffEligible | apps/web/src/features/replay/replay-utils.ts:216-235 | a driver has an entry exactly when one of its samples is eligible, and the entry is such a sample |
| LatestPositions.TrailObeysLimit | apps/web/src/features/replay/replay-utils.ts:222-234 | the entry ends a chain of held samples in time order, each strictly later one within the distance the maximum speed covers |
| LatestPositions.HeldIsLatestReachable | apps/web/src/features/replay/replay-utils.ts:223-234 | every sample after the one held is strictly later and farther than the maximum speed covers |
| LatestPositions.KeepSorted | apps/web/src/features/replay/replay-utils.ts:213-214 | stable sorting commutes with filtering |
| LatestPositions.SortedKeepsTies | apps/web/src/features/replay/replay-utils.ts:213-214 | samples of one time stay the same ones in the same order |
| LatestPositions.SortedIsSorted | apps/web/src/features/replay/replay-utils.ts:213-214 | the stable insertion sort is in time order |
| LatestPositions.SortedMember | apps/web/src/features/replay/replay-utils.ts:213-214 | the sort keeps exactly the samples |
| TrackProjection.ProjectsInsidePaddedBox | apps/web/src/features/replay/replay-utils.ts:160-191 | with at least twice the padding in each dimension, every valid sample lands inside the padded box |
| TrackProjection.UniformScaleFlippedY | apps/web/src/features/replay/replay-utils.ts:188-191 | one scale on both axes, x kept and y order flipped |
| TrackProjection.ScaleIsMaximal | apps/web/src/features/replay/replay-utils.ts:180-183 | one axis fills its room exactly |
| TrackProjection.FitExactly | apps/web/src/features/replay/replay-utils.ts:166-178 | there is a map exactly when placed samples differ along both axes |
| TrackProjection.TrackIsCentred | apps/web/src/features/replay/replay-utils.ts:184-191 | along each axis the two ends of the track are equally far from the edges |
| TrackProjection.SampledPath | apps/web/src/features/replay/replay-utils.ts:193-196 | the path keeps the first and the last sample and at most 701 points |
| TrackProjection.SampledExactly | apps/web/src/features/replay/replay-utils.ts:193-196 | it keeps every stride-th sample and the last, and nothing else |
| ReplayController.Controller.Tick | apps/web/src/features/replay/useReplayController.ts:92-111 | one frame of the loop: the elapsed time is capped, scaled by the speed and clamped at the maximum, where playback stops with both cursors equal; the authoritative cursor catches up once 250 ms have passed and at the maximum |
| ReplayController.Controller.Seek | apps/web/src/features/replay/useReplayController.ts:50-58 | the cursor moves to the clamped time, the authoritative one with it only when reconciling |
| ReplayController.Controller.SetPlaying | apps/web/src/features/replay/useReplayController.ts:64-68 | pausing reconciles; starting resets both clocks, and starting twice changes nothing |
| ReplayController.SeeksGoWhereAsked | apps/web/src/features/replay/useReplayController.ts:28-75 | a seek goes to the nearest point of the range, a speed to the nearest one from 0.5 to 4, and nothing else changes |
| ReplayController.PlayAndPause | apps/web/src/features/replay/useReplayController.ts:59-84 | pausing, scrubbing and hiding the page stop and reconcile; starting resets the frame loop's clocks once |
| ReplayController.FrameCoversElapsedTime | apps/web/src/features/replay/useReplayController.ts:92-111 | a frame covers at most a quarter of a second at the speed set, stops exactly at the maximum, and reconciles exactly there and when a quarter of a second has passed |
| ReplayController.PlaybackKeepsTime | apps/web/src/features/replay/useReplayController.ts:86-114 | over any smooth run that has not reached the maximum, the cursor has moved by exactly the speed times the time since playback began |
| ReplayController.CursorsStayInRange | apps/web/src/features/replay/useReplayController.ts:28-101 | over every sequence of actions both cursors stay in range and the speed between 0.5 and 4 |
| ReplayController.LagUnderOneSecond | apps/web/src/features/replay/useReplayController.ts:86-114 | with reconciling seeks and frames not before the loop's clock, 0 <= cursor - authoritative < 1000 ms over every run |
| ReplayController.FirstFrameMustNotPrecedeClock | apps/web/src/features/replay/useReplayController.ts:89-95 | on the first frame the shown cursor stays at or ahead of the authoritative one if and only if its timestamp is not before the effect's clock or the cursor is at the minimum |
| ReplayController.PlaybackStopsAtMaximum | apps/web/src/features/replay/useReplayController.ts:92-111 | frames at least d apart stop playback at the maximum, both cursors equal, within the number of frames half of d per frame needs |
| UrlState.ParseTelemetryUrl | apps/web/src/features/telemetry/url-state.ts:9-69 | the side and flag loops compute the parsed selection |
| UrlState.TelemetryQuery | apps/web/src/features/telemetry/url-state.ts:70-95 | the entry loops write the printed query |
| UrlState.PrintedCarries | apps/web/src/features/telemetry/url-state.ts:72-93 | every parameter is written at most once, with its field's value, and nothing else is written |
| UrlState.ParsedIsWellFormed | apps/web/src/features/telemetry/url-state.ts:9-69 | whatever the address, what is read from it is well formed: valid identifiers, a valid context reference only without a session, laps 1 to 1000, ordered zoom bounds |
| UrlReading.ReadsIdentifiers | apps/web/src/features/telemetry/url-state.ts:16-41 | a session or revision is read exactly when the first value given joins words by single separators within 120 characters, or is 64 hexadecimal digits |
| UrlReading.ReadsDrivers | apps/web/src/features/telemetry/url-state.ts:42-47 | a side's driver is read exactly when its parameter, or side A's old one when that is absent, is a number 1 to 999 without leading zeros |
| UrlReading.ReadsLaps | apps/web/src/features/telemetry/url-state.ts:48-53 | a side's lap is read exactly when its parameter, or the old one, is digits for 1 to 1000 |
| UrlReading.ReadsZoom | apps/web/src/features/telemetry/url-state.ts:54-67 | a zoom is read exactly when it is two numbers at one comma with 0 <= from < to <= 100000 |
| UrlReading.ReadsContext | apps/web/src/features/telemetry/url-state.ts:17-38 | a context is the one well-formed reference given without a session or the invalid mark beside it, and invalid otherwise |
| UrlReading.ReadsTheRest | apps/web/src/features/telemetry/url-state.ts:11-59 | the named view or the overview, and each quality flag given, true only when given once as true |
| UrlState.AddressRoundTrip | apps/web/src/features/telemetry/url-state.ts:9-95 | a well-formed selection survives printing and parsing if and only if its zoom bounds are integers |
| UrlState.SharedLinkReproduces | apps/web/src/features/telemetry/url-state.ts:9-95 | for every address, printing what was read and reading it again gives the same selection if and only if the zoom bounds are integers |
| UrlState.ZoomPrinted | apps/web/src/features/telemetry/url-state.ts:54-67 | printing and reading a zoom gives its bounds rounded to integers, or none when they collapse |
| UrlState.RoundIsNearest | apps/web/src/features/telemetry/url-state.ts:89-89 | a bound is printed as the nearest integer, the greater one half-way |
| UrlReading.GetAllAppends | apps/web/src/features/telemetry/url-state.ts:18-20 | a repeated parameter gives all its values in order |
| Texts.DigitTextRoundTrip | apps/web/src/features/telemetry/url-state.ts:51-52 | the decimal text of a number is all digits and reads back as that number |
| Texts.SplitPair | apps/web/src/features/telemetry/url-state.ts:54-54 | splitting two comma-free texts joined by a comma gives them back |
| EventTimeline.Displayed | apps/web/src/features/replay/EventTimeline.tsx:73-92 | one marker per used bin, in order of first event, with the bin's best event and size |
| EventTimeline.BestIsEarliestBest | apps/web/src/features/replay/EventTimeline.tsx:85-89 | no event of the bin has a better priority than the one shown, none of the same is earlier, and none of the same and as early is listed before it |
| EventTimeline.KindsInOrder | apps/web/src/features/replay/EventTimeline.tsx:34-50 | the priorities order the kinds from track status to laps, the unrecognised last |
| EventTimeline.SignificantExactly | apps/web/src/features/replay/replay-utils.ts:85-98 | significant are track and driver status, pits, race control, stints, anything unrecognised, and weather when it rains |
| EventTimeline.CountsAddUp | apps/web/src/features/replay/EventTimeline.tsx:74-91 | the counts sum to the number of significant events |
| EventTimeline.AtMostFortyOneMarkers | apps/web/src/features/replay/EventTimeline.tsx:77-81 | for events on the rail there are at most forty-one markers |
| EventTimeline.MarkerIsNearItsEvents | apps/web/src/features/replay/EventTimeline.tsx:77-91 | a marker is drawn within 1/80 of the rail of each event it stands for, and stands for significant events only |

## Left out

- ProductCache.TelemetryCache.Lookup: the class keeps everything inside an object as one value; objects nested in objects, and writes to them, are in the interleaved model on the explicit heap.
- AnalyticsResults.ProductIsOfTheCall: a builder's product is taken to be a function of its request and the revisions its snapshot reads give, and copying on return is modelled for the telemetry cache only.
- Observations.Summarize: leaves out race_count, pit_stops, pit_coverage_races and best_finish, which do not add up over groups, and gives averages as a total and a sample count without rounding.
- SeasonProgression.Progression: the choice of the five leading entities by points, wins and name is a parameter (any set), and values are not rounded because points are exact hundredths.
- SeasonProgression.ConcentrationBounds: speaks of the index before it is rounded to three digits.
- ReplayEngine.Engine.StateAt: takes the events and lap cursors as given; the lap-number query, building lap cursors and the checks on argument types are not modelled.
- ReplayEngine.MutableReplayState.ApplyEvent: says nothing of the state after a rejected event, which the source leaves partly written and never reads; every payload with a missing or wrongly typed field is one `Malformed` case, but for a pit entry's lap number.
- Timeline.BuildTimeline: takes the candidates as given; collecting them from the session's tables is not modelled, and the textual part of an identity is any spelling that tells the candidates apart under any total order.
- LatestPositions.TrailObeysLimit: the speed test is stated on squared distances, which is the same test without the square root; an infinite sample time is not modelled.
- ReplayController.CursorsStayInRange: the range is fixed and its minimum is not above its maximum; changing the bounds of a mounted controller is not modelled.
- Presentation.PresentationIndices: the budget is a natural number, and samples that are not finite numbers do not occur.
- UrlState.ParseTelemetryUrl: works on decoded parameters; percent-encoding is not modelled, JavaScript's Number is any function that reads the canonical decimals up to 100000, and negative zero is zero.
- TelemetryData.BundleMatchesSelection: resolving the sessions request, browser history and address bar into a selection is not modelled; the selections they produce are arbitrary.
- EventTimeline.Displayed: session times are integers; lap markers and labels are not modelled.
- Context resolution, lap-marker and longest-trace helpers, coverage, rankings, circuit and entity profiles: not modelled.
- Strategy, machine learning, lap alignment, ingestion, storage, archive synchronisation, HTTP routes and schemas: not part of this model.
- React rendering, canvas and WebGL drawing, styling and text formatting: not part of this model.
- Floating-point rounding, hashing and JSON: replaced by exact arithmetic and by identities that differ when the inputs differ.

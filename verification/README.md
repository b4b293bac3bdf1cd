# Verified model of the vpsFree.cz status page

The status page records probe results in a history database and builds every view of the past from it.
This project models that history in Dafny and proves that its parts agree: the tables with the samples
they were made of, the fast queries with the whole log, the pre-rendered page with the database, and each
view with every other view.

| file | what it models |
|---|---|
| `Common.dfy`, `Sorting.dfy` | instants, probe targets and statuses; stable sorting and selection, the meaning of `ORDER BY ..., id` and `WHERE` |
| `ProbeStore.dfy` | the tables of probe states, events and incidents, and the transaction that records one sample |
| `ProbeRuns.dfy` | maximal runs of one status, declaratively; the tables after any run of samples are those runs |
| `RecordedRows.dfy` | what the rows of a target hold, column by column, told by the raw samples |
| `ProbeInvariants.dfy` | the log replays to the samples; open incident rows and promoted states go together, and when they do not |
| `ProbeQueries.dfy` | the incident query, as a function of the event log |
| `ProbeLog.dfy` | the probe log of an entity with its derived ends, and the log row behind every incident |
| `HistoryStore.dfy` | the history database as an object, with its methods |
| `Outages.dfy`, `Coverage.dfy` | outage reports, which probe failures they account for, and which report is responsible |
| `Availability.dfy`, `AvailabilityMetrics.dfy`, `AvailabilityQueries.dfy` | partition of a window, downtime as a count of ticks, percentages, and the trimmed and batched event queries |
| `IndexRenderer.dfy` | the pre-rendered index page as interleaved atomic steps of recorders, renderer and request handlers |
| `SkipSafety.dfy`, `Wakeups.dfy` | what bodies are built from in every run, and that requests to render are not lost |
| `LostWakeups.dfy`, `LostWakeupRuns.dfy` | exactly which steps lose a wake-up, exactly when the lock can be found taken, and two runs that lose one |
| `IndexPasses.dfy`, `PreRenderedIndex.dfy` | what a pass over the locales does to the stored bodies; the index as an object that does it |
| `MachinePasses.dfy`, `UndisturbedPasses.dfy` | every pass of the machine does the same, with signatures and readings of its own steps; so does every undisturbed pass of the object, as part of some run |
| `HistoryBars.dfy`, `HistoryBarLaws.dfy` | day and lane bars updated in place, and what they show after any list of incidents |
| `HistoryViews.dfy`, `HistoryBatch.dfy`, `ViewAgreement.dfy` | all bars in one batch, single bars on demand, and exactly when they agree |
| `EntityDays.dfy` | from samples to the page: what a day of an entity's bar shows, told by its samples and reports |
| `EntityMapping.dfy` | the indexes from locations and environments to nodes |
| `Pagination.dfy` | pages of the probe log and the row of page links |

## How the source is read

- An instant is a number of whole seconds since Go's zero time, so `IsZero` is `== 0`. The database keeps
  instants as RFC 3339 text with as many fractional digits as needed and compares that text; by section 5.1 of RFC 3339
  text order is time order only if the number of digits is fixed, which whole seconds ensure.
- A table is a sequence in the order of its AUTOINCREMENT ids, or a map under its primary key; a query is its
  WHERE and ORDER BY. A transaction either commits or changes nothing.
- Composite keys, which the source joins with tabs, are tuples.
- The class `HistoryStore.HistoryStore` remembers every recorded sample in a ghost field, and its `Valid()` says
  that the tables are what those samples make of an empty database. So every lemma about a run of samples
  holds of every store that can be reached.
- Days are numbers; the local calendar is a function from instants to days. Outage texts, captions, the text
  normalisation and the keys a report affects (`outageHistoryKeys`) are parameters.
- Percentages are real numbers; the signature of the index page is the tuple it hashes.

Five properties do not hold without a condition. For each the condition is proved to be exact, and an input is given
that fails it:

- An open incident row and a promoted state go together unless the clock of a target is set back into the
  first five minutes of a run already promoted; then the early return at history.go:802-804 strands the row
  (`InvariantHoldsExactlyWithoutStranding`, `ClockSetBackStrandsARow`).
- A target's incident rows are throughout those of its long bad runs under exactly the same condition: a stranded row
  is one that no run deserves (`RowsMatchExactlyWithoutStranding`, `ClockSetBackStrandsARow`). Samples in time order
  meet it (`IncidentsAreExactlyTheLongRuns`).
- The incident query is a function of the log alone exactly if `now` is not inside the first five minutes of
  a promoted run (`ProbeIncidentsAnswerFromLog`, `NowBehindShowsMoreThanTheLog`).
- A request to render is lost exactly in a step in which the renderer finds its lock taken or its build fails while
  nothing else is on its way and something stored, or being built by a handler, is stale
  (`AttendedExactlyWithoutLoss`, `BusyLockLosesAWakeup`, `FailedBuildLosesAWakeup`). Once the server listens, the lock
  can be found taken exactly if some handler is not at rest, or there is a handler and some locale has no body
  (`LockIsFoundTakenExactly`); so after a start-up that stored every body it cannot (`TryLockNeverFails`).
- A group's bar on demand is made for the first location of its id (group_detail.go:88-98), its bar in the batch for the
  last (history_view.go:438-440). The two show the same days exactly if these list the same nodes and resolvers
  (`GroupBarsAgreeExactly`, `RepeatedIdSplitsTheViews`).

## Model

| member | source | states |
|---|---|---|
| HistoryStore.HistoryStore.RecordProbeStatusChanged | history.go:643-725 | one sample takes the tables of every earlier sample to those of one sample more, and reports a change exactly if some table changed |
| HistoryStore.HistoryStore.CloseProbeStateIncident | history.go:801-836 | closes the open row of a promoted run, inserts a closed row for an unpromoted one, and does neither within the first five minutes |
| ProbeInvariants.OwnOpenRowsAfterPromotion | history.go:838-856 | opening at the promotion leaves the target with exactly one open row, that of its current run |
| ProbeInvariants.PromoteThenCloseIsInsertClosed | history.go:801-877 | opening a row at the promotion and closing it later comes to the same table as inserting it already closed |
| ProbeRuns.LogIsRunLengthCompression | history.go:668-704 | after any run of samples a target's state row is its current run and its log is the run-length compression of its samples |
| RecordedRows.SamplesOfListsTheTarget | history.go:643-655 | the samples of a target are those of its kind, id and method, all named, in their order, a missing status read as operational |
| RecordedRows.LogHoldsRunBeginnings | history.go:781-799 | after any run of samples, row n of a target's log has target, status, message and instant of the sample that begins the n-th run |
| RecordedRows.BeginningsBeginMaximalRuns | history.go:684-704 | a sample begins a run exactly if a maximal run of one status begins with it |
| RecordedRows.StateHoldsCurrentRun | history.go:706-779 | the state row has status and start of the current run, and label, message and time of its promoting, else first sample; it is promoted exactly if such a sample exists |
| ProbeRuns.IncidentTableHoldsLongRuns | history.go:684-717 | unless a sample strands an open row, a target's incident rows, in table order, are those of its finished long bad runs and then the open one of a promoted current run |
| ProbeRuns.RowsMatchExactlyWithoutStranding | history.go:801-836 | over every run with arbitrary clocks, after every prefix the target's rows are exactly those of its long bad runs, if and only if no sample meets the early return with a promoted state |
| ProbeRuns.IncidentsAreExactlyTheLongRuns | history.go:643-725 | after any run of samples in time order a row is in the table exactly if it is the row of a maximal bad run that was finished after five minutes, or is current and promoted, with that run's start, end, and label and message of the promoting (else first) sample |
| ProbeRuns.IncidentsAreStoredOnce | history.go:801-856 | two rows of a target start at least five minutes apart, so each run is stored once |
| ProbeRuns.RowsAreRuns | history.go:684-717 | the rows computed sample by sample are exactly the rows that the maximal runs deserve |
| ProbeRuns.OtherTargetsUntouched | history.go:727-779 | a sample of one target changes no state, event or incident of another |
| ProbeInvariants.LogReplaysTheSamples | history.go:668-704 | replaying a target's log at any instant gives the status last sampled by then; adjacent events differ; the last event is the state row |
| ProbeInvariants.CompressionReplays | history.go:781-799 | run-length compression preserves the status at every instant |
| ProbeInvariants.ReplayIsTheLastEvent | availability.go:203-244 | replay gives the status of the last event by then, and none exactly if there is none |
| ProbeInvariants.SampledAtIsTheLastSample | history.go:643-725 | the status sampled at an instant is that of the last sample by then, and none exactly if there is none |
| ProbeInvariants.SampleKeepsOpenRowIffPromoted | history.go:684-717 | a sample at whatever time keeps "one open row, of the same start and status, iff promoted" exactly if it does not take the early return on a promoted state |
| ProbeInvariants.InvariantHoldsExactlyWithoutStranding | history.go:801-804 | over a run with arbitrary clock readings the invariant holds throughout exactly if no sample strands a row |
| ProbeInvariants.InvariantOfEveryRun | history.go:643-725 | a target whose clock never runs back keeps the invariant at every point of every run |
| ProbeInvariants.NoRowIsDroppedOrInsertedTwice | history.go:822-841 | INSERT OR IGNORE never ignores, and the insert after a promoted close is never reached |
| ProbeInvariants.PromotionWasSampled | history.go:706-717 | a promoted state has a recorded sample of its status at least five minutes after its start |
| ProbeInvariants.ClockSetBackStrandsARow | history.go:801-804 | down at 1000 and 1300, recovered at 1200: the row of the failure stays open, which no run of the samples deserves, while the state is a new, operational run |
| HistoryStore.HistoryStore.ProbeIncidents | history.go:879-951 | the rows of the window by start, then each due bad state without an open row once; for samples in time order each incident once, and from the log alone exactly if `now` is not behind |
| ProbeQueries.ProbeIncidentsAreInOrder | history.go:888-948 | the answer is first every incident row that is open or has an end or a start since the cutoff, by start and then by id, and then open incidents, each made of a bad state that has lasted five minutes and that no open row stands for |
| ProbeQueries.ProbeIncidentsAnswerFromLog | history.go:879-951 | label and message aside, the answer is the log's bad runs of at least five minutes that are unfinished or ended in the window, promoted or not, exactly if `now` is not in the first five minutes of a promoted run |
| ProbeQueries.ProbeIncidentsShowsEachOnce | history.go:901-948 | the answer names no target and start twice |
| ProbeQueries.NowAfterSamplesIsNotBehind | history.go:936-938 | a `now` at or after every sample meets that condition |
| ProbeQueries.NowBehindShowsMoreThanTheLog | history.go:879-951 | down at 1000 and 1300, asked with `now` 1200: the answer shows an incident that the log does not yet deserve |
| ProbeQueries.RowSpansMatchLog | history.go:890-916 | the incident rows of a target, read as spans, are the finished long bad runs of its log and its promoted current run |
| ProbeLog.DerivedEndIsNextRow | history.go:1060-1081 | the end derived for a table row by subselect is the start of the next row of its target's log |
| ProbeLog.EntityLogListsItsRows | history.go:1060-1081 | the log lists exactly the table rows with the kind and id asked for that are not before the cutoff, each ending with the earliest later row of its target |
| ProbeLog.EntityLogIsNewestFirst | history.go:1079 | every such row is listed once, a later one before an earlier one, and of two rows of one instant the one stored later first |
| ProbeLog.EntityLogHoldsTimelines | history.go:1060-1081 | picked out of the log, a target's rows are its own log newest first, each ending where its next row begins, the newest without an end |
| ProbeLog.EntityLogShowsTheRuns | history.go:1041-1083 | after any run of samples those rows are the target's runs of one status that began in the window |
| ProbeLog.EveryIncidentHasALogRow | history.go:1060-1081 | every incident stored or shown has a row in the event table of its target with its status, start and derived end |
| HistoryStore.HistoryStore.PaginatedEntityLog | entity_detail.go:177-193 | one page of that log and its total, clamped to a page that exists |
| Outages.OutageReportInterval | history_view.go:831-838 | a report begins where it says and ends where it finished, else after its duration, but not before its beginning |
| Outages.OverlapIsACommonInstant | history_view.go:840-842 | the overlap test holds exactly if some instant lies in both closed intervals |
| Coverage.CoveredByReport | history_view.go:794-820 | true exactly if some instant of the incident is one that an affecting report speaks for, widened by half an hour on both sides |
| Coverage.VisibleProbeIncidents | history_view.go:779-792 | keeps exactly the incidents that no report covers, in their order |
| Coverage.ResponsibleReport | entity_detail.go:350-393 | no report exactly if none accounts for the failure; else one that does, and no other that does shares more seconds with it, or as many and begins later, or begins together and has a lower id |
| Coverage.OverlapCountsSharedSeconds | entity_detail.go:378-382 | for a report that accounts for the failure the overlap is the number of seconds both hold |
| Coverage.ResponsibleReportIgnoresOrder | entity_detail.go:350-393 | with unique ids the responsible report is the same for every order and repetition of the list |
| Coverage.HiddenExactlyIfLogRowIsCovered | history_view.go:779-842 | after any run an incident is hidden from the bars exactly if its log row has a responsible report, and its entity's log lists that row exactly if it began in the window |
| Coverage.SetProbeEventCoverageGroups | entity_detail.go:413-426 | marks group starts and ends in place and leaves the reports alone |
| Coverage.CoveredRowsFormMarkedBlocks | entity_detail.go:413-426 | a row is covered exactly if it lies in a whole block of one report that is marked at its two ends and nowhere inside; uncovered rows are not marked |
| Coverage.MarkedBlocksAreDisjoint | entity_detail.go:413-426 | no row lies in two marked blocks |
| Availability.AvailabilitySortedEvents | availability.go:246-262 | the events up to the end, stably sorted by time and then method |
| Availability.SortedEventsAreATimeline | availability.go:246-262 | they are exactly the events up to the end and are in time order |
| Availability.StringLessIsLexical | availability.go:254-260 | a string is less than another exactly if at the first difference it ends or has the lesser character |
| Availability.SortedEventsAreInOrder | availability.go:246-262 | each of those events stands once, by time, then by the lexical order of methods, then as given |
| Availability.ProbeAvailabilitySegments | availability.go:203-244 | the missing part is a prefix, the segments tile the rest of the window, and each tick has the status of the last sorted event by then |
| Availability.SegmentsPartitionWindow | availability.go:203-244 | the same for every timeline, as a property of its segments |
| Availability.TilesPartition | availability.go:264-272 | every tick of a tiled range lies in exactly one segment |
| AvailabilityMetrics.CalculateProbeAvailability | availability.go:167-186 | a metric exactly for a window that is not empty and does not begin before the log; it is the percentage of the ticks whose status is none of the available ones |
| AvailabilityMetrics.DowntimeCountsTicks | availability.go:178-185 | the summed lengths of unavailable segments are the number of unavailable ticks |
| AvailabilityMetrics.MetricIsRoundedRatio | availability.go:188-201 | neither clamp acts; the metric times the total is 100 times the available time up to half a thousandth of the total, it has three decimals and lies in [0, 100] |
| AvailabilityMetrics.MetricOfNoneAndAll | availability.go:188-201 | no downtime shows as 100, nothing but downtime as 0 |
| AvailabilityMetrics.MetricIsMonotone | availability.go:382-385 | more downtime never shows as a higher percentage |
| AvailabilityMetrics.MergedIntervalDuration | availability.go:323-349 | the length of the union: the number of ticks in at least one interval |
| AvailabilityMetrics.CoverageIsMonotoneInTheSet | availability.go:323-349 | that number depends on the set of intervals alone and grows with it, so order and duplicates do not matter |
| AvailabilityMetrics.OutageUnavailableDuration | availability.go:281-321 | the number of ticks of the given intervals at which some affecting report holds: from its beginning to its end, or to `now` if it has none after its beginning and is announced |
| AvailabilityMetrics.CalculateReportedAvailability | availability.go:142-165 | the percentage that goes with that number, which never exceeds the window; only for nodes and vpsAdmin services |
| HistoryStore.HistoryStore.ProbeEventsForAvailability | history.go:1136-1182 | in time order exactly the target's events in the bounds, each as often as it is stored, after the latest earlier one, which is missing only if there is none |
| HistoryStore.HistoryStore.ProbeEventsForAvailabilityTargets | history.go:1184-1235 | the batched query gives every target the list of the single-target query |
| AvailabilityQueries.ProbeEventQueryTargets | history.go:1243-1274 | every named target once: with Ping for nodes, Lookup for resolvers and name servers, HTTP for web services and vpsAdmin if that is asked for, else with no method |
| AvailabilityQueries.AvailabilityTargetCounts | availability.go:351-362 | an entity has a target for its availability exactly if it is named and of one of those kinds, and then it is that of the one method |
| AvailabilityQueries.BatchRowsOfEntity | history.go:1196-1226 | picked out of the batch, an entity's rows are its target's log up to the end |
| AvailabilityQueries.TrimmingPreservesMeaning | history.go:1136-1182 | for every window inside the bounds the trimmed log gives the segments and the metric of the full log |
| AvailabilityQueries.AvailabilityWindowBounds | availability.go:108-124 | the earliest start and the latest end of the windows |
| AvailabilityQueries.MetricIsThatOfTheSamples | availability.go:167-186 | the metric from the compressed log is the percentage of ticks at which the last sample was neither operational nor degraded |
| HistoryStore.HistoryStore.EntityProbeAvailability | availability.go:70-97 | every window's metric, from one trimmed batched fetch, is that of the full log of the target that counts; an entity without one has no metric |
| SkipSafety.SkipIsSafe | index.go:258-292 | in every reachable state with no recorder between commit and bump, a body carrying the current version was built from the current tables alone |
| SkipSafety.CurrentBodyMissesOnlyPendingCommits | probe_history.go:9-23 | at any time such a body misses at most as many commits as recorders stand between commit and bump |
| Wakeups.NoLostWakeup | index.go:159-191 | with the renderer waiting, the channel empty, no recorder between bump and send and the latest pass completed, every locale has a body of the current version |
| Wakeups.NoLostWakeupAfterFullStartup | index.go:146-191 | after a start-up that stored every body that holds unless the latest pass failed to build |
| Wakeups.TryLockNeverFails | index.go:228-243 | after a start-up that stored every body the renderer never finds the render lock taken |
| LostWakeupRuns.BusyLockLosesAWakeup | index.go:118-131 | without it a run exists that drops a request and leaves a stale body with everyone at rest |
| LostWakeupRuns.FailedBuildLosesAWakeup | index.go:258-292 | after a full start-up a build that fails drops the request it was made for |
| LostWakeups.StepLosesWakeupExactly | index.go:168-191 | a step loses the wake-up exactly if the lock is found taken or the build fails, nothing is on its way, and a stored body or a handler's work is stale |
| LostWakeups.AttendedExactlyWithoutLoss | index.go:118-191 | over every run, something stale is at no point left unattended exactly if no step is such a step |
| LostWakeups.AttendedAtRestIsCurrent | index.go:168-191 | attended and at rest, every stored body carries the current version |
| LostWakeups.LockIsFoundTakenExactly | index.go:228-243 | while the server listens, some continuation finds the render lock taken exactly if a handler is not at rest, or there is one and a locale has no body |
| SkipSafety.ReadingsInvariantOfRun | index.go:264-288 | commits are bumps plus pending bumps, and no build reads tables older than its signature |
| Wakeups.WakeupInvariantOfRun | status.go:416-431 | at every step of every run bodies are current, or a request is on its way, or a pass is ahead |
| PreRenderedIndex.PreRenderedIndex.RefreshIndexBodies | index.go:213-226 | the loop leaves the bodies of the specified pass, whatever signature and readings each turn meets; none is removed, and without an error no locale has a body older than every turn's version |
| PreRenderedIndex.PreRenderedIndex.RenderIndexBodyLocked | index.go:258-292 | unless forced, a body of this signature rendered less than four minutes ago is kept; else the locale has the body just built, or the build failed and all bodies are as before; other locales keep theirs |
| PreRenderedIndex.PreRenderedIndex.HandleIndex | index.go:118-137 | a stored body is served as it is; only a missing one is built |
| PreRenderedIndex.PreRenderedIndex.NextRenderDelay | index.go:88-102 | waiting it out puts attempts at least the interval apart, and no longer than that |
| MachinePasses.EveryPassIsRendered | index.go:228-292 | in every run, whatever recorders and handlers do meanwhile, a pass that ends has left the bodies and the outcome of the object's loop, each turn with the signature read at a step of this pass, later turns at later steps, and with readings of the tables as they were at or after that step |
| MachinePasses.CompletedPassRefreshes | index.go:213-226 | a pass removes no body; if it completes, every locale has a body no older than the version at which the pass began, built from tables that hold every commit announced by then, whatever happens meanwhile |
| UndisturbedPasses.PassExtendsRun | index.go:213-292 | and every undisturbed pass of the object from a reachable state is the end of some run |
| UndisturbedPasses.RefreshedBodiesShowCurrentTables | index.go:258-292 | so after an undisturbed pass without an error every body, skipped or rebuilt, was built from the current tables alone |
| HistoryBars.HistoryBar.constructor | history_view.go:568-597 | consecutive operational days, the last of them the day of `now`, 90 of them unless a positive number is given, each with lanes of its own |
| HistoryBars.HistoryBar.ApplyHistoryIncident | history_view.go:599-627 | raises and lists exactly the days the incident touches, in place |
| HistoryBars.HistoryBar.ApplyHistoryIncidentToLane | history_view.go:629-667 | the same for one lane; every other lane, and the lanes of every other day, stay as they are |
| HistoryBars.SetHistoryLaneSeverity | history_view.go:669-684 | raises the first lane with the key and returns its caption, or reports that there is none |
| HistoryBarLaws.DayShowsItsIncidents | history_view.go:599-627 | after any list of incidents a day's state is the worst that touched it, and it lists each that touched it once |
| HistoryBarLaws.DayIgnoresOrder | history_view.go:599-627 | states and incident sets do not depend on order or repetition |
| HistoryBarLaws.LaneDayShowsItsIncidents | history_view.go:629-684 | every lane shows the worst of its own entity's incidents and the day the worst of its lanes |
| HistoryBarLaws.LaneDayListsItsIncidents | history_view.go:658-665 | the day lists exactly the captioned incidents of entities that have a lane |
| HistoryBarLaws.LaneDayIgnoresOrder | history_view.go:629-684 | lanes, state and incidents of a day with lanes do not depend on order or repetition |
| HistoryBatch.CreateEntityHistoryView | history_view.go:271-302 | the bar on demand is the fresh bar after the entity's reports and then its visible incidents |
| HistoryBatch.CreateHistoryViews | history_view.go:207-265 | there is an entity bar for exactly the configured entities, equal to its bar on demand, and every group bar was given exactly its members' incidents, for any map order |
| HistoryBatch.FindLocationByID | group_detail.go:88-98 | the first location of the id |
| HistoryViews.LocationLanesInOrder | history_view.go:453-473 | a location has a lane, at first operational, for each node, then each removed node, then each resolver, in their orders |
| HistoryViews.ServicesLanesInOrder | history_view.go:475-487 | and the services for each web service, then each name server |
| HistoryBatch.CreateGroupHistoryView | history_view.go:308-360 | a group's bar on demand was given exactly its members' incidents, with the lanes of the first location of its id |
| HistoryBatch.ConfiguredHistoryEntityGroups | history_view.go:499-532 | a key is mapped to a group exactly if the group shows that entity |
| HistoryBatch.NewHistoryGroupViews | history_view.go:427-443 | a fresh bar for each group, a later location replacing an earlier one of the same id |
| HistoryBatch.ApplyHistoryIncidentToGroups | history_view.go:538-562 | one incident reaches the bars of exactly the groups of its entity |
| ViewAgreement.GroupHasLaneIffBelongs | history_view.go:453-487 | a group has lanes only for entities that belong to it, and with unique location ids for all of them |
| ViewAgreement.EveryEntityHasAGroup | history_view.go:379-425 | every configured entity belongs to a group that exists |
| ViewAgreement.EntityBarAgreesExactlyWithLane | history_view.go:207-302 | for any configuration, a group's bar, in the batch or on demand, has on every day a lane of the entity with the state of the entity's own bar, exactly if the group has a lane for it |
| ViewAgreement.EntityBarAgreesWithGroupLane | history_view.go:207-302 | so with unique location ids every member of a group is shown alike by its own bar and its lane |
| ViewAgreement.GroupBarsAgreeExactly | history_view.go:308-443 | a group's bar on demand and in the batch show the same days, lanes, states and incidents exactly if the first and the last location of its id list the same nodes and resolvers |
| ViewAgreement.GroupBarsAgree | history_view.go:308-443 | so with unique location ids they always do |
| ViewAgreement.RepeatedIdSplitsTheViews | group_detail.go:88-98 | two locations of one id: the bar on demand shows the first one's node, the bar in the batch the second one's |
| EntityDays.EntityDayShowsSamplesAndReports | history_view.go:271-302 | a day of an entity's bar shows an outage exactly if an unplanned report touches it, else maintenance exactly if a planned one does or a bad run of at least five minutes of its samples for which no report accounts, else nothing |
| EntityDays.EntityDayListsReportsThenIncidents | history_view.go:271-302 | a day lists, once each, first exactly the reports that affect the entity and whose days, from begin to end, include it, then exactly its probe incidents whose days do |
| EntityDays.UnreportedEntityDayShowsSamples | history_view.go:271-302 | without affecting reports a day shows maintenance exactly if a long bad run of the entity's samples touches it |
| EntityDays.LogRunsAreSampleRuns | history.go:668-704 | the long bad runs of the log are those of the samples |
| EntityMapping.HistoryEntityMapping.constructor | history_view.go:856-929 | location lists are duplicate-free and hold exactly the current and removed nodes there, environments are the unions over their locations, removed keys are disjoint from current ones |
| EntityMapping.HistoryEntityMapping.AddNodeMapping | history_view.go:931-946 | adds the key once to all nodes and to its location, if it has one |
| EntityMapping.HistoryEntityMapping.AddCurrentNodes | history_view.go:878-889 | after all locations the indexes hold exactly the configured nodes: all of them, those at each location, and under each number the last node of that number |
| EntityMapping.HistoryEntityMapping.AddArchivedNodes | history_view.go:907-925 | after all snapshots also exactly the removed nodes whose group is found, which take over their numbers |
| EntityMapping.HistoryEntityMapping.AddEnvironmentMappings | history_view.go:960-982 | each environment's keys are the union over its locations, for any order of the map of locations |
| EntityMapping.AddUniqueHistoryKeys | history_view.go:1241-1258 | the union of two lists without duplicates |
| Pagination.PaginatedProbeLog | entity_detail.go:177-193 | a requested page that exists is the one shown, one too low is read as the first and one too high as the last; it is not empty when the log is not, even where 64-bit offsets wrap |
| Pagination.PagesAreTheWholeLog | entity_detail.go:195-204 | the pages together are the whole ordered log, 50 rows each but for the last |
| Pagination.ProbeLogPageLinks | entity_detail.go:232-263 | links increase strictly, are 1, the last page and the pages within two of the current one, with dots exactly where numbers are left out, and number at most nine |
| Pagination.ExactlyOneCurrent | entity_detail.go:232-263 | exactly one link is current if the page exists |

## Left out

- SQLite itself, failing transactions, schema migration and file checks: a query is its meaning, a failed call changes nothing.
- Instants within one second: text order of the stored instants need not be time order there.
- Network probes, the vpsAdmin API, DNS, ping and HTTP checks, metrics: their results are arbitrary samples.
- Templates, localisation, URLs, date formats, compression: incident texts and captions are opaque values, and the lanes of vpsAdmin services are captioned by their ids.
- Matching of outage entities to keys by text (`outageHistoryKeys`, `serviceHistoryKey`), the group of a removed node and the node, location, resolver and service text indexes: fuzzy text rules and map-order choice.
- Rounding of floating-point numbers beyond the three decimals of a percentage.
- Nil stores, nil reports and nil mappings, for which the source returns early.
- HistoryBatch.CreateHistoryViews: works on bar values, which the source copies out of and back into its maps; the update in place, and that no two days share lanes, is proved of HistoryBars.HistoryBar.
- Wakeups.NoLostWakeup: interleavings are those of a state machine over values; the object in PreRenderedIndex.dfy has no locks.
- PreRenderedIndex.PreRenderedIndex.RefreshIndexBodies: the render lock is part of the machine, not of the object.
- EntityMapping.HistoryEntityMapping.constructor: the node, location and service text indexes built beside the numbered ones are not modelled, being part of the fuzzy text rules.
- EntityMapping.HistoryEntityMapping.AddNodeMapping: without the node text index, for the same reason.
- EntityMapping.HistoryEntityMapping.AddArchivedNodes: whether a removed node's group is found is a parameter, and the location text index is not modelled.
- EntityMapping.HistoryEntityMapping.AddEnvironmentMappings: without the location text index filled by the same loop.
- EntityDays.EntityDayShowsSamplesAndReports: assumes that every incident has some text, since the source ignores one without.
- Pagination.PaginatedProbeLog: both queries see the same log, whereas the source releases the lock between them.
- Throttling in the machine (only the delay itself is modelled, PreRenderedIndex.PreRenderedIndex.NextRenderDelay) and the gauges of the renderer: no bound on the spacing holds over all interleavings.
- The probe log of a group (`ProbeLogForTargets`), which orders rows of one second by label and method too.
- Outage reports and entity snapshots written to the database do not raise the history version; skip safety is about the probe tables.
- Response and notice caches, status counts, group averages, security advisories, configuration parsing and JSON export: easy or plumbing.
- The archived nodes of the history window are a parameter of the views.

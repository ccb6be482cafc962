# Runner platform: a model of its stateful core

The platform runs CI runners on workers and shows what they do. This project
models the parts of it that keep state through failures, as Dafny programs in the
form the source has them, and proves what they promise over whole runs.

* **Job events.** A runner's hooks drop small files into a spool. Watchers and guest
  streams read them into a durable outbox on the worker (`OwnedSpool`, `JobEvents`,
  `OutboxRuns`, `JobPipeline`, `EventProgress`), a registry says who is being watched and can be
  paused for storage maintenance (`SourceRegistry`, `PauseProtocol`), and the
  controller projects the numbered ledger into run history (`Projection`,
  `Projector`, `BestFit`, `ProjectedRuns`, `ProjectionProofs`, `LedgerCollector`).
* **Operations.** Asynchronous verbs with idempotency keys, worker threads and
  bounded eviction (`Operations`, `OperationRuns`).
* **Alarms.** The watch book of runners and queued jobs (`Alarms`, `AlarmBook`,
  `AlarmRuns`), what each observation means for one of them (`RunnerMeaning`,
  `QueueMeaning`), exactly when its promises hold (`AlarmCourses`, `PlannedRaises`,
  `Debounce`, `Acknowledgements`, `AlarmFailures`), the outbox that sends what it says
  (`AlarmDelivery`, `AlarmOutbox`, `DeliveryRuns`, `AcknowledgedRows`), and both as one
  machine with the calls that tell one about the other in between (`AlarmRelay`,
  `RelayedAlarms`, `AcknowledgedAlarms`, `RelayFailures`).
* **Storage.** One filesystem image per runner on a Linux worker, made, mounted and
  removed in steps that may stop anywhere (`DiskPlan`, `LinuxStorage`, `DiskProofs`,
  `DiskRestart`, `StorageRuns`).
* **Run history from logs.** Overlapping windows of runner logs (`RunHistory`).
* **Algorithms.** CPU lists and limits (`CpuText`, `CpuSet`, `AffinityMask`,
  `CpuLimits`), disk descriptors and GPT layouts (`DiskDescriptor`, `DiskLayout`), a
  process tree (`ProcessTree`).

Each stateful part is split the same way. Functions say what a statement, a step or
an operation means; classes with the source's fields and loops are proved to do just
that; lemmas about the functions carry the results over runs. A run is a sequence of
atomic steps in any order; a database transaction is one step; a crash may fall
between any two. What the environment does is an input: which commands fail and
where, what a forge answers, what the clock says, what others do meanwhile.

`dafny verify dfyconfig.toml` checks everything.

Where a promise does not hold as written, the code is modelled as it is. A lemma
shows an input on which the promise fails, and another says exactly when it holds:
pausing and the source threads a heartbeat has already dropped, the eviction bound
while workers finish, ignored inserts in the projection, planned alarms that turn and
the debounce after such a turn, acknowledging before a raise, before it is told or
during a delivery pass, raises lost with the process, a resolve silenced by the next
outage, interrupted formats and removals, a log completion that is neither matched nor
kept, and a log start whose keys are other runners'.

## Model

| member | source | states |
|---|---|---|
| `JobEvents.JobEventSender.Record` | agent/job_events.py:99-128 | an event is stored once at most: a repeat is absorbed, another payload under its identity or a full outbox is refused and leaves both tables and the cache alone; only a stored event can become what its runner is doing, in the table and the cache alike |
| `JobEvents.DisplacesExactly` | agent/job_events.py:111-127 | a stored event becomes what its runner is doing exactly when it has a job and a run id, is at most 30 s ahead of the clock, is not the start of the execution shown as finished, and there is no identified current job or that one is not later by instant, numeric job id and finish |
| `JobEvents.JobEventSender.Clear` | agent/job_events.py:85-90 | a runner that is not running has no current job afterwards, in the table or the cache; the others keep theirs |
| `JobEvents.JobEventSender.Delivered` | agent/job_events.py:179-182 | after a post that succeeded the waiting rows are those before without the posted one, the delivered ones are the 10000 newest of those before and the posted one, and rowid order is kept |
| `JobEvents.OnlyThePostedRowMoves` | agent/job_events.py:179-182 | the same of the two statements, for every table: no waiting row but the posted one is touched, and only delivered rows beyond 10000 go |
| `JobEvents.JobEventSender.Jobs` | agent/job_events.py:152-156 | exactly the asked runners that are known, started and identified are named, each with its own job |
| `JobEvents.FindEvent` | agent/job_events.py:103 | the row found by identity is in the table and carries it; none is found exactly when no row carries it |
| `JobEvents.ValidExactly` | agent/job_event_stream.py:27-58 | which events a runner may record: its own, with bounded clean texts, a plain identity, and a result only of the eight and only when finished |
| `OutboxRuns.RecordUninterrupted` | agent/job_events.py:99-128 | the two crash-separable steps of a record come together to what the method does under its lock |
| `OutboxRuns.PruneQueue` | agent/job_events.py:181-182 | pruning a queue drops its oldest delivered rows beyond 10000 and nothing else |
| `OutboxRuns.BoundedFifo` | agent/job_events.py:102-182 | over every run with crashes, delivered rows are a prefix of insertion order, rowids follow it although rows are pruned, posts follow it apart from retries of the same row, and there are never more than 10000 undelivered and 10000 delivered rows |
| `OutboxRuns.RecordRefusals` | agent/job_events.py:102-110 | in every reachable outbox a valid event is a duplicate exactly when it is there, in conflict exactly when another payload has its identity, refused as full exactly at 10000 undelivered rows |
| `OutboxRuns.CacheIsTable` | agent/job_events.py:62-127 | outside the critical section, and after any crash and restart, the memory cache equals the current_jobs table |
| `OutboxRuns.CurrentExactly` | agent/job_events.py:111-128 | and then it is there in table and cache, and otherwise both are as they were |
| `OutboxRuns.FirstStartIsShown` | agent/job_events.py:99-156 | a runner with nothing current is named in the job of its first identified start, and no longer once its finish is recorded |
| `OutboxRuns.StepAdvances` | agent/job_events.py:111-127 | one step never lowers a runner's rank nor puts a start in place of the finish of the same execution |
| `OutboxRuns.RankNeverFalls` | agent/job_events.py:111-127 | between clears a runner's rank never falls over any run, however late, repeated or reordered its events are |
| `JobPipeline.RecordedIsCommitted` | agent/job_events.py:99-128 | record returns normally only once the identical event is in the outbox's history |
| `JobPipeline.NoEventLost` | agent/job_events.py:230-278 | over every interleaving of producers, watchers, guest streams, delivery and crashes, an event placed in a spool is still there, or in the outbox, or accepted by the controller |
| `JobPipeline.UnlinkAfterCommit` | agent/job_event_stream.py:177-197 | no step changes a spool file, and one that removes it does so only after the identical event was committed |
| `JobPipeline.CommittedIsSafe` | agent/job_events.py:158-182 | a committed event stays in the outbox until the controller has accepted it, pruning included |
| `JobPipeline.DeliveredIsAccepted` | agent/job_events.py:173-180 | a row is never marked delivered ahead of the controller |
| `JobPipeline.PopKeeps` | agent/job_event_stream.py:353-369 | taking an acknowledgement off the pipe leaves the guest deleting only a file whose event was recorded, and every other sent file known |
| `JobPipeline.HangupKeeps` | agent/job_event_stream.py:354-359 | a dropped connection leaves nothing behind by which an event that was not recorded could be deleted |
| `EventProgress.ProducedIsThere` | agent/hooks/job_event.py:73-81 | a producer adds its file, with its event, and nothing else |
| `EventProgress.WatcherTakes` | agent/job_events.py:237-241 | in any state a watcher that is not busy takes any event there is: three steps of its own put it in the outbox and delete that file alone |
| `EventProgress.StreamTakes` | agent/job_event_stream.py:353-391 | in any state a new stream takes any event there is: sent, recorded, answered and deleted, that file alone |
| `EventProgress.DeliveryDelivers` | agent/job_events.py:158-182 | in any state the free delivery thread posts the first row that waits, and once that is answered it waits no longer and every other row waits as before |
| `OwnedSpool.OwnedSpool.Read` | agent/job_event_stream.py:155-175 | the first 256 readable events in listing order, whatever junk lies between them; a stop only shortens that |
| `OwnedSpool.OwnedSpool.Acknowledge` | agent/job_event_stream.py:177-197 | a file is deleted exactly when it still holds the expected event, and nothing else changes |
| `OwnedSpool.NamedExactly` | agent/job_event_stream.py:24 | an entry is looked at exactly when its name is 32 lower-case hexadecimal digits and .json |
| `OwnedSpool.OwnedSpool.Round` | agent/job_events.py:237-241 | a round that records what it reads removes the files it read and only those |
| `OwnedSpool.RoundsDrain` | agent/job_event_stream.py:155-175 | r rounds leave exactly n - 256 r of n events, and none from then on, whatever junk lies between them and in whatever order each round lists the directory |
| `SourceRegistry.SourceTable.Pause` | agent/job_events.py:130-135 | a pause counts up, marks the runner unknown and captures the source registered then |
| `SourceRegistry.SourceTable.Detach` | agent/job_events.py:140-142 | the stopped source is dropped unless another took its place |
| `SourceRegistry.SourceTable.Resume` | agent/job_events.py:144-150 | an unpause takes back one pause and no more |
| `SourceRegistry.SourceTable.Ready` | agent/job_events.py:280-288 | the unknown mark is cleared exactly for the registered, unstopped source of an unpaused runner |
| `SourceRegistry.SourceTable.ReconcileSources` | agent/job_events.py:75-97 | a heartbeat removes dead and unwanted sources of unpaused runners and starts the missing ones, and leaves paused runners alone |
| `SourceRegistry.HeartbeatMeans` | agent/job_events.py:75-97 | runner by runner: an unpaused observed one has its old source if that was alive and a new one otherwise, an unpaused unobserved one has none, a paused one keeps what it had, and exactly those with a new source become unknown |
| `PauseProtocol.PauseCountsLeases` | agent/verbs.py:464-475 | over every interleaving the pause count is the number of maintenance calls that hold the runner, those whose pause raised included |
| `PauseProtocol.PausedIsUnknown` | agent/job_events.py:130-135 | a paused runner is always marked unknown, so no job is named for it |
| `PauseProtocol.NoStartWhilePaused` | agent/job_events.py:75-97 | no step starts a source or a source thread for a paused runner |
| `PauseProtocol.HeartbeatWatches` | agent/job_events.py:75-97 | over every run, after a heartbeat every unpaused observed runner has a registered source whose thread runs, and no other unpaused runner has one |
| `PauseProtocol.UnknownUntilReady` | agent/job_events.py:280-288 | an unknown runner, one with a new source included, stays unknown until that very source, alive, not stopped and its runner not paused, says it is ready |
| `PauseProtocol.ReadyIsKnown` | agent/job_events.py:280-288 | and then it is known |
| `PauseProtocol.FailedIsUnknown` | agent/job_events.py:219-225 | a registered source that failed leaves its runner unknown |
| `PauseProtocol.SignalledExactly` | agent/job_events.py:96-138 | a source is told to stop by the pause that finds it registered and by the heartbeat that dropped it, and by nothing else |
| `PauseProtocol.NoSourceUntilLastUnpause` | agent/job_events.py:130-150 | once any pause of a runner has returned no source is registered for it until its last unpause: over every run and every continuation during which it stays paused, whichever calls begin, return, raise or unpause meanwhile |
| `PauseProtocol.ReturnedLeavesOnlyDetached` | agent/job_events.py:96-97 | the threads that may still run when a pause has returned are exactly those a heartbeat had already dropped and that have not exited |
| `PauseProtocol.PauseMayOverlapDetached` | agent/job_events.py:96-97 | such a thread exists: docs/native-job-events.md says pausing waits for the watcher's thread, the code does not wait for one a heartbeat dropped |
| `Operations.Operation.CarryOut` | agent/server.py:253-267 | a reader finds the operation first running with the value it ends with, then ended with it, and at every instant an outcome comes with its value |
| `Operations.Operation.Answer` | agent/server.py:311-319 | a reply says the state and whatever values are there |
| `Operations.AgentServer.ForgetOldest` | agent/server.py:244-251 | the loop of deletions is the forgetting of the oldest finished entries beyond the bound |
| `Operations.AgentServer.Enter` | agent/server.py:220-236 | a remembered key gives back its operation, a new one enters a running operation and evicts; no two operations have one handle; another verb under the key, or no usable key, is refused and changes nothing |
| `Operations.ForgetOne` | agent/server.py:246-249 | deleting the oldest finished entry once is one unit of forgetting |
| `Operations.ForgetSelects` | agent/server.py:244-251 | forgetting keeps every running entry and the order, drops a finished entry only with every older finished one, and drops as many as asked for or exist |
| `Operations.ForgetBound` | agent/server.py:244-251 | afterwards the table is within its bound or holds only running operations, as long as no worker finishes meanwhile |
| `Operations.KeptRunning` | agent/server.py:247 | no running entry is ever among those dropped |
| `OperationRuns.StartedOnce` | agent/server.py:220-239 | over every interleaving of requests and workers a remembered key has one operation, and no operation's work is started twice |
| `OperationRuns.RepeatsStartNothing` | agent/server.py:220-239 | over any part of any run during which an operation stays remembered nothing is made under its key, and the only thread that can be started under it is its own, once |
| `OperationRuns.StartsExactly` | agent/server.py:235-239 | an operation's work is started by the request that entered it, once it has let the lock go, and that start touches no other |
| `OperationRuns.OneAtATime` | agent/server.py:220-251 | in every run, when a second operation has a key the first was started, has ended and is forgotten: work under one key never runs twice at a time |
| `OperationRuns.ForgetsOldestFinished` | agent/server.py:244-251 | a forgotten operation has ended, and every older entry was still running when the pass that found it began |
| `OperationRuns.BoundAtRelease` | agent/server.py:244-251 | when the lock is let go the table is within its bound or was all running when the last pass began; the literal bound holds exactly if it is within the bound or nothing ended during that pass |
| `OperationRuns.EvictionReleases` | agent/server.py:244-251 | over every interleaving an eviction that has had more looks than the table allows for has let go of the lock on the way, whatever others did in between |
| `OperationRuns.EvictionIsBounded` | agent/server.py:235-236 | a request that enters an operation holds the lock for at most (n + 1) squared looks at a table of n entries |
| `OperationRuns.FinishedRepliesAreWhole` | agent/server.py:311-319 | a reply that says succeeded or failed carries the result or the error, however writes and reads interleave |
| `OperationRuns.RunningReplyMayCarryResult` | agent/server.py:311-319 | a reply can say running and carry the result all the same |
| `OperationRuns.RunningReplyCarriesExactly` | agent/server.py:311-319 | it does exactly when the worker had written its value before the reply read the state or wrote it between the two reads |
| `OperationRuns.FinishedMayOutlastTheBound` | agent/server.py:244-251 | with the shipped limit a run leaves 1001 entries, one of them finished, because it ended during the pass |
| `Projector.NativeHistory.FindRun` | dashboard/native_history.py:31-78 | the two queries and the grouping loop find the row that the selection by identity and then by best fit finds |
| `BestFit.FindRunExactly` | dashboard/native_history.py:31-78 | in instants and identities: the newest run of the execution that carries the identity; where none does, the run alone in the first class that has any (at the matching end, inside with an open run having no end, at most 30 s outside) among those of the twenty newest that may bind |
| `BestFit.EligibleExactly` | dashboard/native_history.py:46-60 | which runs may bind: no other identity of the kind known, no start after news of a run that ended, and a known job name or, with a workflow run, an open run, a signed event, a finish, or identities to join |
| `Projector.NativeHistory.Project` | dashboard/native_history.py:105-160 | the statements change the tables as one projection of the event does |
| `ProjectedRuns.ProjectMeans` | dashboard/native_history.py:105-160 | row by row: what an event of a known run learns, leaves alone, renames, notes and ends, with duration, result and conclusion; what one of no known run opens; and when it is refused |
| `ProjectedRuns.ProjectsExactly` | dashboard/control/job_events.py:33-45 | a forge's event is always projected, a worker's exactly with a run and a job and no more than 30 s ahead of its receipt |
| `ProjectedRuns.StartThenFinish` | dashboard/native_history.py:31-160 | a start and later its signed finish, with no other run of the execution and whatever other executions do in between, leave one run, from the one instant to the other, with the finish's name and result, unless that name is taken |
| `Projector.NativeHistory.Record` | dashboard/native_history.py:92-103 | tables and cursor move together or not at all, and an event the cursor has passed changes nothing |
| `Projector.FittingIsGroup` | dashboard/native_history.py:46-74 | filtering by eligibility and then by interval selects the same rows as one pass |
| `ProjectionProofs.FindRunFacts` | dashboard/native_history.py:31-78 | a row found is of the event's own runner, provider, run and attempt and carries its identity or none of that kind; a row that carries it is not missed |
| `ProjectionProofs.FindByFitFacts` | dashboard/native_history.py:62-78 | a row chosen by time is the only one of the best group that is not empty |
| `ProjectionProofs.NeverGuesses` | dashboard/native_history.py:60-78 | every other candidate fits strictly worse than the one chosen, and none is chosen when the best fit is shared |
| `ProjectionProofs.NewestSorts` | dashboard/native_history.py:38-42 | candidates come newest first and none is lost or invented |
| `ProjectionProofs.ReplayKeepsInv` | dashboard/native_history.py:31-135 | over every ledger in which no run insert is ignored an identity belongs to one run and a run carries at most one hook and one forge identity |
| `ProjectionProofs.IdentitiesNeverMerge` | dashboard/native_history.py:31-135 | so two known distinct executions are never one run |
| `ProjectionProofs.NewSoundExactly` | dashboard/native_history.py:112-130 | an unmatched event keeps identities apart exactly when its insert is not ignored or tying it to the key's holder merges nothing |
| `ProjectionProofs.IgnoredInsertMergesIdentities` | dashboard/native_history.py:117-124 | a ledger on which an ignored insert makes two signed executions one run |
| `ProjectionProofs.SignedFinishCloses` | dashboard/native_history.py:136-160 | a signed finish leaves its run closed with its end and result, whatever order it came in |
| `ProjectionProofs.WorkerOnSigned` | dashboard/native_history.py:138-160 | a worker event changes a run that signed proof closed exactly when its own insert is ignored in favour of that run and it finishes |
| `ProjectionProofs.SignedProofSticks` | dashboard/native_history.py:138-139 | over every later sequence of worker events with no insert ignored, the signed end and result stay |
| `ProjectionProofs.SignedResultIsFinal` | dashboard/native_history.py:131-160 | from an empty history on, what a signed finish said is what its run says after any worker events |
| `ProjectionProofs.IgnoredInsertErasesProof` | dashboard/native_history.py:117-124 | a worker event of another workflow run erases a signed result through an ignored insert |
| `ProjectionProofs.StepNeverReopens` | dashboard/native_history.py:140-147 | no event reopens an ended run or moves its start |
| `ProjectionProofs.NeverReopened` | dashboard/native_history.py:131-160 | nor does any sequence of events |
| `ProjectionProofs.RefusedExactly` | dashboard/native_history.py:140-149 | an event is refused, and its transaction rolled back, exactly when it is signed and its job name is taken for that runner and start by another run |
| `ProjectionProofs.RefusalReachable` | dashboard/native_history.py:148-149 | three events lead to such a refusal |
| `LedgerCollector.ExactlyOnce` | dashboard/native_history.py:92-103 | over every ledger and every pattern of crashes, overlapping readers and repeats the tables are the projection of the ledger up to the cursor, each event once and in order |
| `LedgerCollector.CursorNeverFalls` | dashboard/native_history.py:93-103 | the cursor never goes back |
| `LedgerCollector.FetchMeans` | dashboard/control/job_events.py:158-161 | a reader fetches the first two hundred events above the cursor, fewer only where there are no more |
| `LedgerCollector.RefusalBlocks` | dashboard/app.py:478-482 | an event the projection refuses ends the history: nothing after it is ever projected |
| `AlarmRuns.SightsMean` | dashboard/alarms.py:337-349 | a name is present when a registration is listed or the platform expects it, and online when any registration of it is |
| `RunnerMeaning.ReasonExactly` | dashboard/alarms.py:337-361 | a runner is offline on purpose exactly when the platform says so by its name, by the first registration of it that the platform knows, or in the older list |
| `RunnerMeaning.ReadingMeans` | dashboard/alarms.py:337-392 | one reading, for one runner: gone or online its alarm is over; offline it is begun, renamed while not raised, begun again when raised as planned and now offline for real, and raised once the threshold after it began |
| `RunnerMeaning.ReadingLeavesOthers` | dashboard/alarms.py:337-392 | a reading of the runners or of the queue leaves every other alarm alone |
| `RunnerMeaning.DetailMeans` | dashboard/alarms.py:337-370 | the alarm names every label of the runner's registrations |
| `RunnerMeaning.MonitorMeans` | dashboard/alarms.py:290-300 | the monitor's own alarm is watched while runners or queue cannot be read and ends with the first reading that can |
| `RunnerMeaning.AcknowledgementMeans` | dashboard/alarms.py:268-288 | an acknowledgement notes its actor on the alarm it names and tells it once, and nothing else |
| `AlarmRuns.RaisedAfterThreshold` | dashboard/alarms.py:199-215 | a raise comes at least the threshold after the second its watch began, and every readable reading in between saw the runner not online, whatever turns and acknowledgements fell in between |
| `AlarmRuns.RaisesAlternate` | dashboard/alarms.py:199-226 | after an offline raise nothing is raised for the key until its resolve, and a resolve is recorded only while a raise stands |
| `AlarmRuns.ResolvesCarryTheirRaise` | dashboard/alarms.py:217-226 | over every sequence of observations of any key a resolve carries the kind, the beginning and the raised time of the raise that stands, so no raise is resolved twice |
| `AlarmRuns.OfflineRaiseIsAnswerable` | dashboard/alarms.py:217-226 | an offline raise stands exactly while its row is there to be resolved |
| `AlarmRuns.BlindReadingsErasable` | dashboard/alarms.py:292-375 | deleting the unreadable readings changes no row and no event of any runner or queued job |
| `PlannedRaises.PlannedRaiseStandsExactly` | dashboard/alarms.py:377-392 | over every run, while a planned raise is the last thing said of a runner its row is there to be resolved exactly when no reading since that raise saw the runner offline without a reason |
| `PlannedRaises.PlannedRaiseIsResolvedExactly` | dashboard/alarms.py:217-226 | the next reading that sees the runner online or gone then tells one resolve of that raise; after such a turn it tells none |
| `PlannedRaises.ResolvedExactly` | dashboard/alarms.py:217-226 | over every run such a reading tells something exactly when an offline raise stands or a planned one that has not turned |
| `AlarmFailures.PlannedRaiseMayStandForever` | dashboard/alarms.py:377-392 | a run on which a planned raise is never resolved: turned, then back online within the threshold |
| `AlarmCourses.UnraisedRun` | dashboard/alarms.py:199-215 | while no reading sees the runner online or gone, a watch is raised exactly when a reading comes at least the threshold after it began, and stays as it is until then |
| `AlarmCourses.RaisedRun` | dashboard/alarms.py:199-215 | a raise that stands is not told again meanwhile, unless it is a planned one that turns |
| `Debounce.DebounceKeptExactly` | dashboard/alarms.py:377-392 | over every run and every turn to offline for real: the whole threshold passes from the turn on every course that follows exactly when the watch begins with the turn (there was none, or the planned alarm had been raised) or in its second, or there is no threshold; otherwise a course with the same threshold and a forward clock raises early |
| `Debounce.TurnRaisesExactly` | dashboard/alarms.py:199-215 | on such a course the alarm comes with the first reading the threshold after the turn if the watch began with it, and after the older beginning otherwise |
| `AlarmFailures.PlannedTimeCounts` | dashboard/alarms.py:377-392 | so planned time can count: a run with an alarm one second after the platform let go, against the doc comment of `_turn` |
| `Debounce.RaiseTimeExactly` | dashboard/alarms.py:80-81 | over every run a raise comes more than the threshold less one second after the reading its watch began with, and before the full threshold exactly when the dropped fraction of a second lets it |
| `AlarmFailures.RaiseMayBeASecondEarly` | dashboard/alarms.py:80-81 | a raise after 119.1 of 120 seconds |
| `Acknowledgements.AcknowledgedIsRaisedExactly` | dashboard/alarms.py:268-288 | over every run, after a runner's alarm was acknowledged and while it lasts, a raise is told exactly when the watch had not been raised and comes due, or its raise was planned and has turned and come due again, against the doc comment of `acknowledge` |
| `Acknowledgements.AcknowledgementQuietsExactly` | dashboard/alarms.py:268-288 | for any key the book commits no raise after an acknowledgement while the alarm lasts, whatever comes from then on with a forward clock, exactly when it had been raised and not as planned |
| `AlarmFailures.AcknowledgedBeforeItsRaise` | dashboard/alarms.py:273-284 | a run on which a watch acknowledged before its raise is raised a minute later |
| `AlarmBook.AlarmBook.WatchKey` | dashboard/alarms.py:199-215 | one key is watched and at most one raise told; other keys are untouched |
| `AlarmBook.AlarmBook.ResolveKey` | dashboard/alarms.py:217-226 | one key's row goes and a resolve is told if it was raised; other keys are untouched |
| `AlarmBook.AlarmBook.TurnKey` | dashboard/alarms.py:377-392 | what an offline runner's watch is called changes, and nothing is told |
| `AlarmBook.AlarmBook.ObserveRunners` | dashboard/alarms.py:303-375 | walking registrations, expected names and rows does to every key what one reading means for it |
| `AlarmBook.AlarmBook.ObserveQueueReader` | dashboard/alarms.py:396-403 | only the queue monitor's own row can change |
| `AlarmBook.AlarmBook.ObserveQueue` | dashboard/alarms.py:416-446 | walking a sweep's jobs and then the rows does to every key what the sweep means for it |
| `AlarmBook.AlarmBook.RecheckQueue` | dashboard/alarms.py:448-462 | every queued job of the forge is resolved if a runner online now can take it and watched on otherwise |
| `QueueMeaning.CanRunExactly` | dashboard/alarms.py:469-473 | a runner can take a job exactly when it alone carries every label asked for, up to case and blanks |
| `QueueMeaning.HostedExactly` | dashboard/alarms.py:476-486 | a job is the forge's own exactly when it asks for nothing, or, not naming self-hosted, for a label no runner here carried |
| `QueueMeaning.SweepMeans` | dashboard/alarms.py:405-446 | one sweep, for one job: found with labels of ours that no single online runner carries it is watched and raised when due; not so found, its row is resolved when a runner can take it, its repository was swept or is no longer listed, and else stays |
| `QueueMeaning.SweepLeavesOthers` | dashboard/alarms.py:405-446 | a sweep of one forge leaves runners, monitors and the jobs of other forges alone |
| `QueueMeaning.RecheckMeans` | dashboard/alarms.py:448-462 | one recheck: resolved when one online runner carries all its labels, else watched on and raised when due |
| `QueueMeaning.RecheckLeavesOthers` | dashboard/alarms.py:448-462 | and so does a recheck, which begins no watch either |
| `AlarmBook.AlarmBook.AcknowledgeKey` | dashboard/alarms.py:268-288 | a known alarm is marked acknowledged and one acknowledgement told; an unknown one changes nothing |
| `AlarmBook.BookIsRun` | dashboard/alarms.py:164-262 | a book that starts empty does to every key, over any sequence of observations, what the per-key machine of the results above says |
| `AlarmDelivery.BatchesPartition` | dashboard/alarm_notify.py:386-401 | batches are not empty, hold at most ten rows, join only Discord job messages, and together are the due rows in id order |
| `AlarmDelivery.BatchesJoin` | dashboard/alarm_notify.py:386-401 | job messages to Discord are joined wherever they can be: two batches that follow each other meet at a full one or at a message that is not joined |
| `AlarmDelivery.BackoffDoublesToHalfAnHour` | dashboard/alarm_notify.py:356-357 | the wait starts at 30 s, doubles, and stays at 1800 s from the seventh attempt on |
| `DeliveryRuns.DueNowSelects` | dashboard/alarm_notify.py:369-372 | a pass takes waiting rows whose time has come, each once in id order: all, or the hundred with the lowest ids |
| `DeliveryRuns.DeliveryIsBounded` | dashboard/alarm_notify.py:360-444 | over every run each event has one row; a row uses at most eight attempts, is failed exactly at the eighth unless it was delivered, is sent exactly once delivered, never posted again after that, and posted at most eight times, plus once per death of the process and once per post of it that was rate-limited |
| `DeliveryRuns.PassOutcomes` | dashboard/alarm_notify.py:403-444 | in a pass the process survives every taken row ends as the answer that governs it says; from a rate limit on no row has used an attempt and all wait as told |
| `DeliveryRuns.DeathsOfPass` | dashboard/alarm_notify.py:426-444 | a pass adds at most one post whose outcome was not wholly written, and none if the process lives |
| `AcknowledgedRows.PostsInOrder` | dashboard/alarm_notify.py:403-425 | a pass posts its batches in order, all of them up to and with the first that is rate-limited or that the process dies over |
| `AcknowledgedRows.ReadIsSent` | dashboard/alarm_notify.py:403-444 | whatever is acknowledged meanwhile, a row a pass has read ends as sent exactly when the pass reached its batch, the batch was accepted and the process lived to write that row down |
| `AcknowledgedRows.SkippedIsNotSent` | dashboard/alarm_notify.py:369-372 | a row that does not wait when a pass begins is never posted again and stays as it is |
| `AcknowledgedRows.AcknowledgedBetweenPasses` | dashboard/alarms.py:280-282 | a row that is in the outbox when its alarm is acknowledged between passes is never posted again, whatever follows |
| `AcknowledgedRows.AcknowledgedIsPostedExactly` | dashboard/alarms.py:280-282 | acknowledged during a pass, a row is posted again, then or ever, exactly when the pass had read it into a later batch and reaches that batch before any rate limit or death |
| `AlarmOutbox.AlarmOutbox.Enqueue` | dashboard/alarm_notify.py:48-64 | one row per alarm, event and raise; a second, an acknowledgement or an unwanted event adds none |
| `AlarmDelivery.EnqueuedExactly` | dashboard/alarm_notify.py:48-64 | a raise, a resolve, a start and a finish get a row, when wanted and when the same one has none, waiting from the moment it happened; nothing else gets one |
| `AlarmOutbox.AlarmOutbox.Acknowledge` | dashboard/alarms.py:280-282 | exactly the key's waiting rows are skipped |
| `AlarmOutbox.AlarmOutbox.BuildBatches` | dashboard/alarm_notify.py:386-401 | the loop builds the batches described above |
| `AlarmOutbox.AlarmOutbox.WriteDown` | dashboard/alarm_notify.py:426-444 | row by row, up to where the process dies, the batch is settled from the attempts read at the start of the pass |
| `AlarmOutbox.AlarmOutbox.DeliverDue` | dashboard/alarm_notify.py:360-444 | the whole pass is one delivery of the state machine, and it returns exactly the rows whose acceptance it wrote down |
| `AlarmRelay.RelayIsBounded` | dashboard/alarm_notify.py:360-444 | the bounds on attempts, failures and posts of a row hold with book, tellers and deliverer interleaved and the process dying anywhere |
| `AlarmRelay.PostedExactly` | dashboard/alarm_notify.py:369-425 | over any part of any run a row is posted exactly when the pass under way comes to a batch it has it in and has not begun, or a later pass reads it while it waits and comes to its batch |
| `AlarmRelay.PassIsWhole` | dashboard/alarm_notify.py:403-425 | a pass that comes to its end without a rate limit or a death posts every batch |
| `RelayedAlarms.BookFollowsCourse` | dashboard/alarms.py:199-226 | interleaved with everything else the book does to every alarm what the per-key machine says its observations do |
| `RelayedAlarms.NewRowsAreTold` | dashboard/alarms.py:243-260 | every row an alarm gets tells a raise or resolve committed and not yet told before, or committed since |
| `RelayedAlarms.HeldExactly` | dashboard/alarm_notify.py:48-64 | a raise or resolve is in the outbox at the end of a run exactly when it was there or is told, and wanted, during it |
| `RelayedAlarms.TellingDecides` | dashboard/alarms.py:228-260 | one that no observation commits meanwhile gets there exactly when a call that had committed it lives to tell it, and it is wanted |
| `AcknowledgedAlarms.NoticePostedExactly` | dashboard/alarm_notify.py:360-444 | over any part of any run, exactly when a raise or resolve of an alarm is posted: overtaken by the pass under way, taken from the queue, or told anew and taken |
| `AcknowledgedAlarms.AcknowledgedRaiseIsPostedExactly` | dashboard/alarms.py:268-288 | for every run, alarm and continuation a raise is posted after an acknowledgement exactly when the pass under way comes to a batch it had read it into, or a raise that was committed and not yet told, or is committed later, becomes a row a later pass comes to |
| `AcknowledgedAlarms.RaiseComesExactly` | dashboard/alarms.py:199-226 | and one is committed later, while the alarm lasts, exactly when a runner's watch had not been raised and comes due or its planned raise turns and comes due; never for an alarm raised, not as planned |
| `AcknowledgedAlarms.AcknowledgedWhileItLasts` | dashboard/alarms.py:268-288 | the two together: the exact cases in which the promise of `acknowledge` that no raise is sent any more fails while the alarm lasts |
| `RelayFailures.RaiseSentAfterAcknowledgement` | dashboard/alarms.py:268-288 | a run on which a raised alarm is acknowledged, no pass under way, and its raise sent all the same: it was committed and not yet told |
| `AcknowledgedAlarms.RaiseReachesOutboxExactly` | dashboard/alarms.py:228-260 | the raise of an alarm that lasts becomes a row exactly when a call that committed it lives to tell it, wanted; nothing else ever does |
| `AcknowledgedAlarms.DeathLosesRaise` | dashboard/alarm_notify.py:10-14 | so not every raise becomes a row: one committed and not told when the process dies is lost while its alarm lasts |
| `RelayFailures.RaiseLostWithTheProcess` | dashboard/alarms.py:228-260 | a run on which it is |
| `AcknowledgedAlarms.FateDecides` | dashboard/alarm_notify.py:369-384 | a waiting row stays waiting until it is acknowledged or read; acknowledged, or read with nowhere to send it, before a pass reads it, it is skipped and never posted |
| `AcknowledgedAlarms.ResolveIsPostedExactly` | dashboard/alarms.py:268-288 | the resolve of an alarm, once told, is posted exactly when a pass reads it while it waits and comes to its batch; acknowledging the next outage of the key first silences it |
| `RelayFailures.ResolveHushedByNextOutage` | dashboard/alarms.py:280-282 | a run on which the resolve of an acknowledged alarm is never sent for that reason, against the doc comment |
| `LinuxStorage.LinuxStorage.Ensure` | agent/runtimes/linux_storage.py:206-256 | the steps, stopped at any effect, leave the directory the plan of phases says, and touch no other runner's |
| `LinuxStorage.LinuxStorage.Remove` | agent/runtimes/linux_storage.py:293-323 | the same for removal |
| `LinuxStorage.LinuxStorage.MountAll` | agent/runtimes/linux_storage.py:338-347 | the same for the boot's walk over the root, up to its first failure |
| `DiskProofs.EnsureSound` | agent/runtimes/linux_storage.py:206-256 | every effect of ensure, however far it gets, meets the state it is allowed in, and a finished ensure leaves a mounted whole image with direct I/O and every area |
| `DiskProofs.RemoveSound` | agent/runtimes/linux_storage.py:293-323 | every effect of remove meets the state it is allowed in: an image is unlinked only without a mount point and with no loop device on it |
| `DiskProofs.FormatsOnlyWhatItMade` | agent/runtimes/linux_storage.py:225-234 | a format happens only when there was no image and after this same call created it exclusively |
| `DiskProofs.ExistingImageIsKept` | agent/runtimes/linux_storage.py:225-235 | an image that exists is never formatted, resized or replaced, nor its metadata rewritten, wherever ensure stops |
| `DiskRestart.EnsureSucceedsExactly` | agent/runtimes/linux_storage.py:206-256 | undisturbed, ensure succeeds exactly on a valid size and a directory that is absent, empty, or this runner's with the same size, a whole image or none, and nothing hidden or mounted over |
| `DiskRestart.EnsureAgainDoesNothing` | agent/runtimes/linux_storage.py:206-256 | run again on a ready directory it performs nothing |
| `DiskRestart.EnsureCanResumeExactly` | agent/runtimes/linux_storage.py:213-234 | stopped anywhere, ensure can be run again exactly when the stop fell neither inside the metadata write nor between creating and formatting the image |
| `DiskRestart.StuckIsRefused` | agent/runtimes/linux_storage.py:222-235 | after such a stop ensure, remove and the boot all refuse and do nothing |
| `DiskRestart.InterruptedFormatSticks` | agent/runtimes/linux_storage.py:225-234 | a first ensure stopped at its format leaves such a directory |
| `DiskRestart.RemoveSucceedsExactly` | agent/runtimes/linux_storage.py:293-323 | undisturbed, remove succeeds exactly on no directory or one that is this runner's, hides nothing, has nothing mounted inside and no other loop device; nothing is left then |
| `DiskRestart.RemoveCanResumeExactly` | agent/runtimes/linux_storage.py:317-323 | stopped anywhere, remove can be run again exactly when the stop did not fall between deleting the metadata and the directory, and then ensure still can |
| `StorageRuns.ImagesAreDescribed` | agent/runtimes/linux_storage.py:105-131 | after any calls, boots, stops and meddling with mounts an image never lacks whole metadata of its runner, and what is mounted is that runner's whole image |
| `StorageRuns.FixedUntilRemoval` | agent/runtimes/linux_storage.py:213-235 | the recorded size and owner and an image's size and filesystem stay as they are until the runner is removed |
| `StorageRuns.StuckForEver` | agent/runtimes/linux_storage.py:222-235 | a stuck directory stays stuck through every later call and boot |
| `StorageRuns.BootKeepsImages` | agent/runtimes/linux_storage.py:338-347 | a boot formats nothing and writes no metadata, wherever it stops |
| `StorageRuns.BootStopsAtFirst` | agent/runtimes/linux_storage.py:338-347 | an undisturbed boot mounts the entries before the first it cannot pass and does nothing to those after |
| `StorageRuns.CheckedExactly` | agent/naming.py:22-33 | the boot takes a directory for a runner's exactly when its name is 32 hexadecimal digits in five groups, in either case, and the runner is the name in lower case |
| `DiskPlan.SizesExactly` | agent/runtimes/linux_storage.py:44-47 | a size is valid from 64 MiB up to below 2^63 |
| `RunHistory.RunTable.OpenRun` | dashboard/history.py:164-186 | the selects, the insert that may be ignored and the adoption make one start |
| `RunHistory.RunTable.CloseRun` | dashboard/history.py:189-228 | replay check, choice of the latest open run, closing it or keeping a partial run make one completion |
| `RunHistory.CompletionMeans` | dashboard/history.py:189-228 | an unrecorded completion closes the run of its runner and job begun last among those open and begun by then, with its end, result and the time in between, and no other row; with none open it is kept as a run of no length unless that key is taken |
| `RunHistory.SecondStartIsClosed` | dashboard/history.py:200-204 | of two starts of a job a completion closes the second |
| `RunHistory.StartMeans` | dashboard/history.py:164-186 | a start its runner has no row for gets one under its name, or its id where another runner holds that key, or takes over the unowned row that holds it; no other row is touched |
| `RunHistory.AdoptionMeans` | dashboard/history.py:586-588 | adoption gives the runner exactly the unowned rows of its name and provider |
| `RunHistory.RunTable.RecordLogs` | dashboard/history.py:582-596 | a window is adoption and then its lines in order |
| `RunHistory.ReplayIsAbsorbed` | dashboard/history.py:164-228 | a line once processed changes no row when read again at any later point, whatever was read in between, unless it was a completion that was blocked |
| `RunHistory.BlockedIsNotAbsorbed` | dashboard/history.py:205-212 | for every blocked completion there is a later start line after which reading it again does change a row |
| `RunHistory.BlockedIsReachable` | dashboard/history.py:205-212 | two lines lead to a blocked completion |
| `RunHistory.RepeatsChangeNothing` | dashboard/history.py:582-596 | any reading with repeats, in any order and number, gives the table of reading each line once |
| `RunHistory.OverlapIsHarmless` | dashboard/history.py:582-596 | overlapping windows of a log give the same table as reading once what they cover |
| `RunHistory.DoesNothingExactly` | dashboard/history.py:164-228 | a line changes no row exactly when it is done already (its rows adopted, its start or its end recorded, both keys of its start other runners') or it is a blocked completion |
| `RunHistory.OpensExactly` | dashboard/history.py:164-186 | a start leaves its runner with a row for it exactly unless both keys it could take are other runners' |
| `RunHistory.RenamesChangeNothing` | dashboard/history.py:582-596 | reading things again under whatever names their runners have by then gives the table of reading each once |
| `RunHistory.RenamedIsAbsorbedExactly` | dashboard/history.py:164-228 | a completion read again after a rename is absorbed; a start is exactly when its runner has a row for it or its new name's key is another runner's |
| `RunHistory.ShutIsNotAbsorbed` | dashboard/history.py:173-176 | for every start shut out by other runners' keys there is a name under which reading it again does change a row |
| `RunHistory.ApplyKeepsKeys` | dashboard/history.py:58 | runner, job name and start stay unique together |
| `RunHistory.ApplyGrows` | dashboard/history.py:164-228 | no line removes a row, moves its start, changes its owner once it has one, or its end once it has one |
| `CpuSet.CpusetCount` | agent/cpu.py:23-49 | the number of CPUs a list covers, each once in whatever order and overlap its ranges come; 0 when a part is nonsense |
| `CpuSet.SweepNext` | agent/cpu.py:45-49 | each turn of the sweep adds exactly the CPUs not counted yet |
| `CpuSet.SortedSorts` | agent/cpu.py:46 | sorting rearranges the intervals and orders them |
| `AffinityMask.AffinityMask` | agent/jobhost.py:124-138 | none for no list, an error exactly when a part is no range in order below 64, and otherwise a mask below 2^64 with exactly the covered CPUs set |
| `AffinityMask.OrBits` | agent/jobhost.py:137 | a bit of a disjunction is a bit of either side |
| `AffinityMask.PopulationIsSize` | agent/jobhost.py:130-138 | the number of set bits is the number of CPUs they name |
| `AffinityMask.MaskIsMadeExactly` | agent/jobhost.py:133-135 | for a list the request grammar admits a mask is made exactly when every range is in order and below 64 |
| `AffinityMask.MaskAgreesWithCount` | agent/verbs.py:113 | for such a list the mask has as many bits set as the count says |
| `AffinityMask.OpenRangeDiffers` | agent/jobhost.py:132-135 | outside the grammar they can differ: a range without an end |
| `CpuText.GrammarPartsAgree` | agent/verbs.py:113 | on a part the grammar admits both readers read the same ends |
| `CpuText.NumeralGrammar` | agent/cpu.py:31-41 | what Python's int reads after blanks and a sign: a digit, then digits with at most one underscore between two of them |
| `CpuText.NumbersExactly` | agent/cpu.py:31-41 | and with which sign |
| `CpuText.NumeralIsDecimal` | agent/cpu.py:31-41 | worth ten times what comes before a digit and the digit; an underscore is worth nothing |
| `CpuText.SpacesExactly` | agent/cpu.py:31-41 | the ten ASCII characters that are stripped |
| `CpuLimits.Ceiling` | agent/cpu.py:52-67 | nothing exactly when neither the list nor the quota says anything; otherwise the lower of the two to within half a hundredth of a core, and exactly when it is whole |
| `CpuLimits.CpuRateIsFair` | agent/jobhost.py:116-121 | a limit leaves at least one cycle and at most the machine, is kept to half a cycle in between, and a higher limit never gets less |
| `DiskDescriptor.ReadsBack` | agent/runtimes/windows_disk_read.py:21-41 | for every chain of up to 64 well-formed identifiers, with any padding and anything after it, the reader finds that chain |
| `DiskDescriptor.AcceptsOnlyWritten` | agent/runtimes/windows_disk_read.py:21-41 | and what it accepts is, up to its declared size, the writing of the chain it finds |
| `DiskDescriptor.ReadsOnlyDeclared` | agent/runtimes/windows_disk_read.py:24-41 | no byte past the declared size has a say |
| `DiskDescriptor.Identifiers` | agent/runtimes/windows_disk_read.py:21-41 | the loop ends on every byte string, within bounds, with the names of that chain or an error |
| `DiskDescriptor.NamesAreValues` | agent/runtimes/windows_disk_read.py:35-36 | a value is named exactly when a binary identifier of the disk itself has it |
| `DiskDescriptor.HexIsInjective` | agent/runtimes/windows_disk_read.py:36 | two values with one name are one value |
| `DiskLayout.Partition` | agent/runtimes/windows_disk_read.py:44-65 | the bounds of the one GPT entry that carries the id; an error exactly when the layout is not valid, no entry or several carry it, or its bounds are not valid |
| `DiskLayout.ReadsOnlyEntries` | agent/runtimes/windows_disk_read.py:44-58 | only the declared entries have a say |
| `DiskLayout.EntryExactly` | agent/runtimes/windows_disk_read.py:51-59 | byte by byte, which entry carries an id, where its bounds stand, and when they are valid |
| `DiskLayout.SignedExactly` | agent/runtimes/windows_disk_read.py:57 | a bound is the number in [-2^63, 2^63) that its eight bytes are modulo 2^64 |
| `ProcessTree.Owned` | agent/runtimes/macos_appliance.py:718-723 | on every table, cyclic and dangling links included, the loop ends with exactly the processes reachable by child links from the job's pid or group |
| `ProcessTree.MemoryUsed` | agent/runtimes/macos_appliance.py:724-727 | the memory of exactly those processes, each once; none when the table holds none of them |
| `ProcessTree.MemoryAdds` | agent/runtimes/macos_appliance.py:724-727 | separate groups of processes add up |
| `ProcessTree.SharedExactly` | agent/runtimes/macos_appliance.py:718-723 | two jobs own a process in common exactly when the pid of one or a member of its group is owned by the other |
| `ProcessTree.OverlapCountsTwice` | agent/runtimes/macos_appliance.py:724-727 | two groups of processes add up to their union and what they share once more |
| `ProcessTree.SeparateJobsFit` | agent/runtimes/macos_appliance.py:718-727 | what is measured of two jobs exceeds what they use together by exactly what they share; when neither owns a seed of the other they share nothing and fit in the whole table |

## Left out

The model does not capture these things:

- Timestamps: instants are integers, and texts the code compares raw are taken to be in one written form; text no date parser accepts, or whose conversion to UTC overflows, is not modelled.
- Numbers and text: job ids count as numbers only with ASCII digits, CPU lists are ASCII text without a final newline, and rowids stay below 2^63, where SQLite would choose them differently.
- Durability: a crash is the death of a process or a reboot between two steps; blocks lost on power failure are not modelled.
- `OwnedSpool.RoundsDrain`: no file arrives between the rounds it counts; JobPipeline lets files arrive at any step.
- Spool files: names are fresh and contents immutable once in place, as the producer writes them; ownership, links and reparse points are taken to have been checked.
- `_local` and `_remote` watch handles, SSH, inotify, kqueue and Win32 calls: a change may be noticed at any step or not at all.
- `OwnedSpool.OwnedSpool.Acknowledge`: returns false where a file that cannot be read makes the code raise; its callers catch that, and nothing is deleted either way.
- `JobEvents.Valid`: the timestamp's syntax and the identifier's UUID form are taken as checked.
- Threads: the wait of a stop for up to 300 seconds is a step that may or may not succeed; `X-Wait-Seconds` and the completion event only delay a reply.
- `Operations.Operation.Answer`: one look at one instant; OperationRuns takes the reads of a reply apart.
- `Operations.ForgetBound`: holds only while no worker finishes, as `OperationRuns.BoundAtRelease` makes exact.
- `Operations.AgentServer.ForgetOldest`: stated for a pass during which no worker finishes; OperationRuns interleaves them.
- `ProjectionProofs.NewSoundExactly`: the table `runs` holds what the projection writes; a row that log lines wrote can hold the UNIQUE key of an insert too and is not there.
- Projection: the columns the projection only fills in (gh_*, registration, samples and their aggregates, the job_id column of native_job_runs) are not kept; the ledger store behind `after` is taken to return events above the cursor in order.
- `Alarms.Trim`: labels are stripped of spaces and lowered by ASCII; Python strips other blanks and lowers other letters too.
- `Operations.AgentServer.Enter`: handles are counted, so they differ; the code draws them at random.
- `AlarmDelivery.Subject`: alarms and job runs are structured keys; the texts the code prints of them differ as long as a forge's name has no colon, and both forges' names have none.
- `AlarmRelay.AnswerStep`: the rows of one answered post are written in one step, the code commits them one by one; an acknowledgement between two of them leaves the same states and attempts and only other times and error texts.
- `AlarmRelay.TellStep`: an event at second 0 of 1970, which the code would stamp with the clock, is stamped with itself.
- Alarms: message texts, the audit and listeners other than the outbox are not modelled; the labels a forge's runners have carried are a parameter of a sweep; `planned` and `_record`, which translate specs and forge answers, are not modelled.
- `AlarmDelivery.Settled`: rendering and the request itself are an answer from outside; a wait too large for a date is not modelled; the 0.6 s pace is not time the model sees.
- Storage: the root directory, the lock, symlinks, owners and modes are taken as checked; two calls never run at once, which the lock file is for; nothing else changes a directory during a call; findmnt and losetup are taken to report what is there, and a foreign mount on `mnt` is not modelled; reset_registration and telemetry only read or delete inside the filesystem.
- `StorageRuns.Checked`: a name that ends in a line break is no runner's; the code's pattern lets one line break through.
- An interrupted format may leave anything in the image, a whole filesystem included.
- `RunHistory.Latest`: of two open runs with one start the first row is taken; SQLite does not say which.
- `RunHistory.Line`: the parsing of log lines, samples, enrichment and the other writers of the table (apply_close, close_interrupted, apply_result) are not modelled.
- `CpuText.PyInt`: a numeral of any length is read; Python's `int` refuses one of more than 4300 digits.
- `CpuLimits.Ceiling`: quotas are real numbers, so the rounding of binary fractions is not modelled, and a quota the code cannot read as a finite number is no quota.
- `DiskLayout.Partition`: an expected id that is no UUID is an id no entry carries; the code raises for it at the first GPT entry.
- `ProcessTree.MemoryUsed`: the table is given as read from the lines of ps, and the rounded CPU sum beside the memory sum is not modelled.
- Configuration, field validators, heartbeats, forge clients, federation, pages and message formats: they add branches but no state that the results above turn on.

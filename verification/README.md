# Verified model of the racing game backend

The server side of the game keeps many small state machines consistent under concurrent clients.
This project models the ones with the most state and proves what they keep, over every run:

* **Engine worker** (`EngineModel`, `EngineInvariant`, `EngineScheduling`, `EngineBlocking`,
  `EngineRevision`, `EngineEffects`, `EngineRefusals`, `EngineWorker`). One task owns the metadata that
  clients read and the live engines behind it, and executes compare-and-swap commands and scheduled
  activations. `EngineModel` gives each command as a
  function from world to world or error; the class in `EngineWorker` changes its fields step by step as
  the code does and is proved equal to those functions; the other modules prove properties of all runs.
  An engine is a token that carries the map it was built for, and building one may fail.
* **Local sandbox administration** (`LocalSandboxAdmin`, `LocalSandboxLimit`,
  `LocalSandboxProtocol`). Clients that read, check a limit, switch, set the weather and roll back, as separate steps that interleave with each other and the worker.
* **Official race table** (`RaceTrajectory`, `RaceTable`, `RaceTableHistory`, `RaceTableGaps`).
  Trajectories, binary search with interpolation, baselines, gaps, the archive of cars that dropped out.
  `RaceTableHistory` and `RaceTableGaps` say what a table shows, and how large its numbers are, in terms
  of the calls made so far.
* **Weather schedules** (`Weather`). Sweeps over a piecewise constant schedule against the
  millisecond-by-millisecond definition, and the slot-aligned forecast.
* **Sandbox menu cache** (`MenuCache`). A generation-tagged cache with slow readers and writers.
* **Bot logs** (`BotLog`, `BotLogStream`). The bounded tail of a file, the incremental line splitter,
  and what the snapshot and the stream after it deliver together.
* **Race calendar** (`RaceCalendar`). Validation after sorting, and administrators over a
  compare-and-swap store.
* **Local race clock** (`LocalRaceClock`). A race whose phase is brought up to date by whoever looks.
* **Achievement stream** (`TopologyStream`, `TopologyMessages`, `TopologyTracks`). Topology deltas and
  snapshots in their order, and the cache of track descriptors beside a run of the engine worker whose engines it reads.

`Prelude` holds result types, machine integers and string helpers, `Roster` vectors of records with ids.

Machine integers are explicit where they end: `u64` revisions saturate, `i64` times overflow with the
error of the code, `u32` gaps and indices are clamped. `f64` values are real numbers. Clocks, engine
builds, store failures and interleavings are inputs. All lemmas switch automatic induction off
(`{:induction false}`); every induction is written out as a recursive call.

Run `dafny verify dfyconfig.toml` to check the project.

## What came out of it

* Of the map ids that the configuration service stores, the worker can never build those with
  surrounding blanks and, in the official build, those with a hyphen or an underscore. Scheduling takes
  them; such an entry is never taken off the queue, and neither is anything that is due after it, whatever
  passes and other sandboxes' commands follow (`EngineBlocking.BuildableMapIds`,
  `UnbuildableHoldsUpTheRest`, `PoisonedHeadIsReachable`).
* The revision identifies the state up to the current weather and the ghost modes in every run. This
  ends exactly at `u64::MAX`, where a saturated revision hides changes
  (`EngineRevision.ChangesAreHiddenOnlyAtSaturation`); there, and nowhere else, clients that follow the
  protocol can exceed any sandbox limit but zero (`LocalSandboxLimit.LimitBreaksOnlyAtSaturation`).
* Rolling an activation back restores the sandboxes, and the rest of the metadata exactly when
  `LeavesNoTrace` held; an official race that ran underneath is lost
  (`EngineRevision.DeactivationUndoesActivation`).
* Every track that the achievement stream sends is of its source's map if and only if no source that
  had to be read was by then running on another map than its frame says
  (`TopologyTracks.TracksAreRightUnlessReadTooLate`); a read at the frame's revision is always right.
  A run with such a read exists, and its track is served again whenever the source is on the map of the
  frame, even if its engine would then give the right one (`TopologyTracks.LateReadIsServedAgain`,
  `TopologyStream.CachedTrackIsServed`).
* The log file is measured, then read to its end, then polled from the measured size on, while the bot
  writes it. From the first line that the snapshot keeps, snapshot and stream deliver each line once
  exactly when nothing had been written between measuring and reading and no line was begun where the
  reader found the end. Otherwise every line completed in between comes twice, and every end found within
  a line cuts it in two (`BotLogStream.SnapshotAndStreamFitTogether`, `LineInBetweenComesTwice`). The
  whole file is delivered only if, besides, no line was dropped, but for a coincidence that is spelled
  out (`BotLogStream.WholeFileIsDelivered`).
* A single look at a local race lags behind its clock exactly when the race is over and nobody had
  looked since it began (`LocalRaceClock.OneLookLagsOnlyAtTheEnd`).
* The last tie-break of the dominant weather type is never needed: distinct types are first seen at
  distinct times (`Weather.DominantIsUnique`).
* The menu cache needs no assumption on the clock: a hit on the initial entry can only happen in the
  first minute of the epoch and owes nothing to any finished commit (`MenuCache.RequestSeesFinishedCommits`).

## Model

| member | source | states |
|---|---|---|
| EngineInvariant.SwitchKeepsInv | game-server/src/runtime/engine_worker.rs:1787-1949 | A switch to idle, an official race or a sandbox keeps metadata and live engines in agreement, with queued activations still naming inactive sandboxes |
| EngineInvariant.DeactivateKeepsInv | game-server/src/runtime/engine_worker.rs:1951-2014 | Taking a sandbox down, including the fallback when it was the last one, keeps the agreement |
| EngineInvariant.ActivateLocalRaceKeepsInv | game-server/src/runtime/engine_worker.rs:2016-2102 | Starting a local race keeps the agreement |
| EngineInvariant.DeactivateLocalRaceKeepsInv | game-server/src/runtime/engine_worker.rs:2104-2146 | Stopping the local race keeps the agreement |
| EngineInvariant.SetTimeOfDayKeepsInv | game-server/src/runtime/engine_worker.rs:2162-2230 | Changing the time of day of an active sandbox keeps the agreement; no other kind of runtime takes the command |
| EngineInvariant.SetPendingKeepsInv | game-server/src/runtime/engine_worker.rs:2253-2331 | A queued entry is complete, unique for its sandbox, and an activation is only queued for an inactive one |
| EngineInvariant.CancelPendingKeepsInv | game-server/src/runtime/engine_worker.rs:2333-2369 | Cancelling keeps the queue well formed |
| EngineInvariant.SetWeatherKeepsInv | game-server/src/runtime/engine_worker.rs:1725-1783 | Setting the weather of a sandbox keeps the agreement |
| EngineInvariant.FireFromKeepsInv | game-server/src/runtime/engine_worker.rs:2371-2452 | A firing pass, stopped by a failed build or not, keeps the agreement |
| EngineInvariant.StepKeepsFit | game-server/src/runtime/engine_worker.rs:1251-1785 | No command or firing pass leaves a live engine that was built for another map than the metadata names for it |
| EngineInvariant.RunKeepsInv | game-server/src/runtime/engine_worker.rs:947-1104 | In every state that any run of commands and firing passes reaches: sandbox ids are distinct, not blank and exactly the engine keys; a local race is active iff its engine exists; kind is Sandbox iff a sandbox is active; official and local kinds have their engine, map and preset; and every live engine was built for the map that the metadata names |
| EngineScheduling.SortByTimeIsStable | game-server/src/runtime/engine_worker.rs:2383-2392 | The due entries are ordered by time, none is lost or invented, and entries due together keep their queue order |
| EngineScheduling.DueIsTheQueueByTime | game-server/src/runtime/engine_worker.rs:2383-2392 | The due list holds exactly the queued entries whose time has come, each once, earliest first |
| EngineScheduling.FiringExecutesAPrefix | game-server/src/runtime/engine_worker.rs:2371-2452 | One pass executes a prefix of the due list: the queue loses exactly it, the revision grows by its length, the active sandboxes change exactly as it says; it ends before the first activation that cannot be built, with that one's error, and is the whole list iff there is none; the already-active skip and the missing-payload errors never happen |
| EngineEffects.FiringStartsWhatWasScheduled | game-server/src/runtime/engine_worker.rs:2371-2452 | After a pass every activation that was fired runs on its map with its preset and ghost mode and the engine built for it, every deactivated sandbox is gone, every sandbox that no fired entry names has its session and engine as before, and the worker is in the mode (kind, map, time of day, official engine) that the fired entries lead to one by one |
| EngineBlocking.DueAfter | game-server/src/runtime/engine_worker.rs:2383-2392 | Of two due entries the one behind in time, or at the same time in the queue, comes later in the due list |
| EngineBlocking.UnbuildableHoldsUpTheRest | game-server/src/runtime/engine_worker.rs:2371-2452 | An activation that can never be built, and every entry behind it in due order, stay queued in that order over any run of passes and of commands about other sandboxes |
| EngineBlocking.PoisonedHeadBlocksPass | game-server/src/runtime/engine_worker.rs:2394-2452 | If the first entry in due order can never be built, a pass changes nothing, whatever else is due |
| EngineBlocking.PoisonedHeadBlocksForever | game-server/src/runtime/engine_worker.rs:1034-1083 | The same for any number of passes |
| EngineBlocking.BuildableMapIds | game-server/src/services/sandbox_admin/validation.rs:20-33 | The worker can build an id iff the configuration service accepts it, it has no surrounding blanks and, in the official build, no hyphen or underscore |
| EngineBlocking.HyphenatedMapIdIsStranded | game-server/src/runtime/engine_worker.rs:2464-2478 | "a-b" is accepted for storage and refused by the worker of the official build |
| EngineBlocking.PoisonedHeadIsReachable | game-server/src/services/sandbox_admin.rs:286-325 | For every id that is accepted for storage and cannot be built, one scheduled activation reaches such a queue |
| EngineRevision.AcceptedCommandBumps | game-server/src/runtime/engine_worker.rs:2148-2160 | Every accepted compare-and-swap command raises the revision by one, saturating, except cancelling where nothing was queued |
| EngineRevision.RevisionDeterminesState | game-server/src/runtime/engine_worker.rs:1801-1806 | Two points of a run with the same revision below `u64::MAX` have the same metadata up to the current weather, and the same engines for the same maps up to their ghost modes |
| EngineRevision.AcceptedCommandActsOnTheStateRead | game-server/src/runtime/engine_worker.rs:1801-1806 | A command sent with the revision of a state read earlier is accepted only while the state is still that one |
| EngineRevision.ChangesAreHiddenOnlyAtSaturation | game-server/src/runtime/engine_worker.rs:2148-2160 | A command can change the state without changing the revision iff the revision is `u64::MAX` |
| EngineRevision.RoutingAgreesWithMetadata | game-server/src/runtime/engine_worker.rs:1179-1249 | A simulation command reaches an engine iff the metadata says that its target is running |
| EngineRevision.DeactivationUndoesActivation | game-server/src/runtime/engine_worker.rs:1861-2014 | Deactivating what was just activated restores the sandboxes and the sandbox engines always, and the rest of the metadata iff a condition on the state before holds |
| EngineEffects.SwitchStartsTheSandbox | game-server/src/runtime/engine_worker.rs:1848-1924 | A switch to a sandbox is accepted iff it can be started; then it runs on its map with its preset and the ghost mode given or the default, and no other sandbox, queue entry, official engine or local race is touched |
| EngineEffects.SwitchStartsTheOfficialRace | game-server/src/runtime/engine_worker.rs:1823-1847 | A switch to an official race stops every sandbox; its engine has the ghost mode given, else that of the official engine before, else the default |
| EngineEffects.DeactivationStopsTheSandbox | game-server/src/runtime/engine_worker.rs:1951-2014 | Exactly that sandbox is gone; if it was the last, the worker falls back to the local race with its map and time of day, or to idle |
| EngineEffects.ActivationStartsTheLocalRace | game-server/src/runtime/engine_worker.rs:2016-2102 | Accepted iff no race is active and it can be started; it runs with its map, preset and ghost mode, and is the main mode iff neither a sandbox nor an official race is |
| EngineEffects.TimeOfDayReachesTheSandbox | game-server/src/runtime/engine_worker.rs:2162-2230 | The session of the sandbox that is meant, and the runtime, take the preset; every other sandbox stays |
| EngineEffects.WeatherReachesTheSandbox | game-server/src/runtime/engine_worker.rs:1725-1783 | The sandbox shows the weather iff its engine has taken it; nothing else changes |
| EngineEffects.GhostModeReachesTheEngine | game-server/src/runtime/engine_worker.rs:1701-1724 | The engine that the target is routed to takes the ghost mode, and no other engine does |
| EngineEffects.SchedulingQueuesTheEntry | game-server/src/runtime/engine_worker.rs:2253-2331 | An entry is accepted iff it is complete and no activation of an active sandbox; it replaces what was queued for its sandbox |
| EngineRefusals.RefusalsAreTrue | game-server/src/runtime/engine_worker.rs:1251-1785 | Whatever command is refused in whatever state, the error says something that is the case, and a wrong revision is always reported as such |
| EngineWorker.Worker.SwitchRuntime | game-server/src/runtime/engine_worker.rs:1787-1949 | The field updates of a switch amount to the model's transition; on error nothing has changed |
| EngineWorker.Worker.DeactivateSandbox | game-server/src/runtime/engine_worker.rs:1951-2014 | Likewise for taking a sandbox down |
| EngineWorker.Worker.ActivateLocalRace | game-server/src/runtime/engine_worker.rs:2016-2102 | Likewise for starting a local race |
| EngineWorker.Worker.DeactivateLocalRace | game-server/src/runtime/engine_worker.rs:2104-2146 | Likewise for stopping it |
| EngineWorker.Worker.BumpRevision | game-server/src/runtime/engine_worker.rs:2148-2160 | Likewise for the bare bump |
| EngineWorker.Worker.SetTimeOfDay | game-server/src/runtime/engine_worker.rs:2162-2230 | Likewise for the time of day |
| EngineWorker.Worker.UpsertActiveSandbox | game-server/src/runtime/engine_worker.rs:2232-2244 | The entry replaces the first one with its id, or is appended, in any list |
| EngineWorker.Worker.SetPending | game-server/src/runtime/engine_worker.rs:2253-2331 | Likewise for queueing |
| EngineWorker.Worker.CancelPending | game-server/src/runtime/engine_worker.rs:2333-2369 | Likewise for cancelling |
| EngineWorker.Worker.SetGhostMode | game-server/src/runtime/engine_worker.rs:1701-1724 | Likewise for the ghost mode of a target's engine |
| EngineWorker.Worker.SetWeather | game-server/src/runtime/engine_worker.rs:1725-1783 | Likewise for the weather of a sandbox |
| EngineWorker.Worker.ExecutePending | game-server/src/runtime/engine_worker.rs:2394-2452 | One turn of the firing loop executes the entry and takes it off the queue, or fails and leaves everything |
| EngineWorker.Worker.ExecuteDuePending | game-server/src/runtime/engine_worker.rs:2371-2452 | The loop over a queue that changes under it does what the model's pass does, with the same error |
| EngineWorker.Worker.Serve | game-server/src/runtime/engine_worker.rs:947-1104 | The worker loop over any sequence of events ends in the state of the model's run |
| LocalSandboxAdmin.LimitHoldsInEveryRun | game-server/src/services/local_sandbox_admin.rs:624-660 | Under every interleaving of any number of clients with each other and the worker, active sandboxes never exceed the limit while the revision is below `u64::MAX` |
| LocalSandboxLimit.BothClientsGetIn | game-server/src/services/local_sandbox_admin.rs:624-660 | For every limit above zero a permitted run from the start ends with one sandbox more than allowed |
| LocalSandboxLimit.LimitBreaksOnlyAtSaturation | game-server/src/services/local_sandbox_admin.rs:624-660 | Some permitted run exceeds the limit iff the limit is not zero, and every run that does has saturated the revision |
| LocalSandboxProtocol.ClientGetsItsSandbox | game-server/src/services/local_sandbox_admin.rs:613-700 | With room, and nobody coming in between, the client's sandbox runs with its map, preset, ghost mode and weather, and no other sandbox notices |
| LocalSandboxProtocol.ClientRollsBack | game-server/src/services/local_sandbox_admin.rs:664-687 | If the engine does not take the weather, the sandbox is gone again and every other is as before |
| LocalSandboxAdmin.RollbackRestoresTheSandboxesSeen | game-server/src/services/local_sandbox_admin.rs:664-687 | An accepted rollback leaves exactly the sandboxes that the client had seen, up to their current weather |
| LocalSandboxAdmin.Admin.Activate | game-server/src/services/local_sandbox_admin.rs:613-700 | Uninterrupted, activation succeeds iff the revision matches, the sandbox is not active, there is room, its engine can be built and takes the weather; then there is one sandbox more with that weather and a start time, otherwise the sandboxes are as they were |
| RaceTrajectory.Record | game-server/src/services/race_table.rs:833-867 | The update of one car's trajectory: restart after 5 m back, append after 0.1 m forward in later time, drop points older than a day but never the last |
| RaceTrajectory.RecordingKeepsAdvancing | game-server/src/services/race_table.rs:833-867 | A trajectory stays strictly increasing in time and by at least 0.1 m of progress, is never empty, and the car is less than 5 m behind its end |
| RaceTrajectory.RecordingRecords | game-server/src/services/race_table.rs:833-867 | In terms of the points alone: five metres or more back begins anew with the new point; ten centimetres or more on at a later time adds it; otherwise the end stays; of the points exactly those older than a day go, but never the last |
| RaceTrajectory.InterpolateLeaderTimeMs | game-server/src/services/race_table.rs:870-912 | The binary search finds the first point at or beyond the place, and the time derived from it |
| RaceTrajectory.TimeIsKnownExactlyInBetween | game-server/src/services/race_table.rs:870-881 | A time is returned iff the place lies between the first and last point, and is between their times |
| RaceTrajectory.TimeIsExactAtPoints | game-server/src/services/race_table.rs:895-902 | At a recorded point it is the recorded time |
| RaceTrajectory.TimeIsMonotone | game-server/src/services/race_table.rs:870-912 | A place farther on was passed no earlier |
| RaceTrajectory.TimeIsNearlyLinear | game-server/src/services/race_table.rs:895-912 | It is off the straight line between the two neighbouring points by at most a hundredth of the time between them |
| RaceTable.SortIsInRaceOrder | game-server/src/services/race_table.rs:790-798 | Sorting keeps every sample and orders by progress, then id |
| RaceTable.StartsAreOfCurrentCars | game-server/src/services/race_table.rs:445-447 | Baselines are held for exactly the cars on track, so that the second pruning has no effect |
| RaceTable.OfficialRaceCache.ResetIfSessionChanged | game-server/src/services/race_table.rs:61-78 | Another session marker empties the cache, the same one leaves it |
| RaceTable.OfficialRaceCache.Enter | game-server/src/services/race_table.rs:361-369 | A new session or a clock more than 100 ms back makes the cache forget its progress |
| RaceTable.OfficialRaceCache.NormalizeActiveProgressFromStart | game-server/src/services/race_table.rs:800-816 | Progress becomes the distance from the car's baseline, not below zero; cars without one start where they are |
| RaceTable.OfficialRaceCache.UpdateCarTrajectories | game-server/src/services/race_table.rs:818-868 | Each car on track gets its point recorded, absent cars lose their trajectory |
| RaceTable.OfficialRaceCache.BuildActiveRows | game-server/src/services/race_table.rs:388-440 | Rows and remembered gaps of the cars on track, each depending on the leader and its own car only |
| RaceTable.OfficialRaceCache.ArchiveAbsent | game-server/src/services/race_table.rs:448-464 | Returning cars leave the archive, cars of the last call that are gone enter it |
| RaceTable.SortDnfRows | game-server/src/services/race_table.rs:472-474 | The archive's rows, each once, by ascending id |
| RaceTable.NumberRows | game-server/src/services/race_table.rs:479-489 | Positions from one, status by part of the table, nobody in the pits who is out |
| RaceTable.OfficialRaceCache.ComputeOfficialRows | game-server/src/services/race_table.rs:354-492 | The whole call on the mutable cache is the model's step, for table and cache |
| RaceTableHistory.TrackIsInRaceOrder | game-server/src/services/race_table.rs:371-440 | The rows on track are those of the samples, each once, in race order |
| RaceTableHistory.CacheRemembers | game-server/src/services/race_table.rs:354-492 | After any calls the cache stands for the history since the table last started afresh: who is on track, who has been and is gone, and the row each left with |
| RaceTableHistory.TrajectoriesAlwaysAdvance | game-server/src/services/race_table.rs:818-868 | In every reachable cache every trajectory strictly increases |
| RaceTableHistory.TableIsComplete | game-server/src/services/race_table.rs:354-492 | Every table holds every car seen since it started afresh exactly once: cars on track in race order, then the others by id with their last row on track, marked DNF and out of the pits; positions are 1 to n |
| RaceTableHistory.BaselinesStayFirst | game-server/src/services/race_table.rs:800-816 | A baseline is the progress with which the car last came on track |
| RaceTableHistory.OrderIsByDistanceTravelled | game-server/src/services/race_table.rs:371-380 | The race order is by the distance travelled since then |
| RaceTableHistory.GapsGrowDownTheTable | game-server/src/services/race_table.rs:380-440 | Of two non-leading cars with interpolated gaps, the one placed higher has no larger a gap, after clamping and truncation |
| RaceTableHistory.LeaderSetsTheGaps | game-server/src/services/race_table.rs:389-413 | The leader has gap and laps zero; until it has moved, every gap that is shown is zero |
| RaceTableGaps.WaysAreRecorded | game-server/src/services/race_table.rs:818-868 | In every call of every run the recorded way of each car on track goes on, by these rules, from what it was to where the car is |
| RaceTableGaps.GapsAreRemembered | game-server/src/services/race_table.rs:426-444 | The gap that is kept of a car is the last one shown for it while it was not leading, unless it has since been away or hidden or the table has started afresh |
| RaceTableGaps.TableShowsTheGaps | game-server/src/services/race_table.rs:389-440 | In every table: the laps that a car lacks; no gap if it is hidden or more than one lap behind; zero while the leader has one recorded point or at most one metre; the whole milliseconds since the leader passed its place, between zero and `u32::MAX`; or else the gap kept |
| RaceTableGaps.GapAtAPointIsTheDifference | game-server/src/services/race_table.rs:415-420 | At a recorded point of the leader the gap is exactly the difference of the two clocks |
| Weather.WeatherIsTheEntryInForce | game-server/src/domain/weather.rs:313-331 | The weather at a time is that of the entry which has started and whose successor has not |
| Weather.RainIsOfThreeKinds | game-server/src/domain/weather.rs:394-399 | Rainy time is the time of light, medium and heavy rain together |
| Weather.SweepRain | game-server/src/domain/weather.rs:115-140 | The sweep counts exactly the milliseconds of the window in which the weather is rainy |
| Weather.RainProbability | game-server/src/domain/weather.rs:101-140 | The result is that count over the window's length, between 0 and 1, and 0 for an empty window |
| Weather.WindowsAreAdditive | game-server/src/domain/weather.rs:101-140 | Rainy time and temperature sums of adjacent windows add up |
| Weather.CollectStats | game-server/src/domain/weather.rs:147-185 | The recorded duration of each type is its pointwise time in the window, its first-seen time the first such millisecond |
| Weather.DurationsFillTheWindow | game-server/src/domain/weather.rs:147-185 | The durations of all types sum to the length of the window |
| Weather.DominantType | game-server/src/domain/weather.rs:147-195 | The chosen type lasts longest and, among those, appears first |
| Weather.DominantIsUnique | game-server/src/domain/weather.rs:186-195 | There is only one such type, so the order of the map does not matter |
| Weather.AverageTemperature | game-server/src/domain/weather.rs:201-247 | The average is the sum of the temperatures of all milliseconds over the length, and absent iff the window is empty or nothing is in force at its start |
| Weather.RoundingIsToTheNearest | game-server/src/domain/weather.rs:201-247 | The mean is rounded to the nearest degree, half away from zero |
| Weather.AverageIsBetween | game-server/src/domain/weather.rs:201-247 | With schedule temperatures in a range the average is in it too |
| Weather.ValidateSchedule | game-server/src/domain/weather.rs:285-311 | The first entry that is unspecified where that is forbidden, or not later than the one before, is reported with its error, and a pass means there is none |
| Weather.ValidIffIncreasing | game-server/src/domain/weather.rs:285-311 | Where unspecified entries are allowed, a schedule passes iff its times strictly increase |
| Weather.ValidAtTheTailIff | game-server/src/domain/weather.rs:285-311 | Where unspecified weather is kept to the tail, a schedule passes iff in addition none but the last entry is unspecified |
| Weather.SlotsAreTheBoundaries | game-server/src/domain/weather.rs:347-392 | The slots of a forecast are the start and every multiple of the step after it up to the horizon, and nothing else |
| Weather.ForecastIsASuffixOfTheSlots | game-server/src/domain/weather.rs:347-384 | The points are those of a suffix of the slots from the first one with weather in force, with the slot's time and weather |
| Weather.ProjectForecast | game-server/src/domain/weather.rs:347-384 | The loop yields the points of exactly horizon / step + 1 slots, or fails exactly on an unordered schedule, an unspecified preset, or a slot after the last that is not representable |
| Weather.NextSlot | game-server/src/domain/weather.rs:386-392 | The next boundary is the next slot, or the overflow error |
| MenuCache.SharedCache.ChangeConfigs | game-server/src/services/sandbox_admin.rs:106-111 | A change commits and then invalidates, or is refused and leaves everything; after it no request hits what is cached |
| MenuCache.SharedCache.Lookup | game-server/src/services/public_menu.rs:292-299 | The section under the read lock takes the protocol's lookup step and returns what that step returns |
| MenuCache.SharedCache.Store | game-server/src/services/public_menu.rs:306-311 | The section under the write lock takes the protocol's store step |
| MenuCache.SharedCache.GetSandboxConfigs | game-server/src/services/public_menu.rs:288-312 | A request runs the protocol's steps; it fails iff it misses and the store cannot be read, and what it returns has every commit finished before it |
| MenuCache.RunKeepsInv | game-server/src/services/public_menu.rs:288-312 | In every interleaving a cached snapshot is at least as new as every commit finished when its generation was current |
| MenuCache.RequestSeesFinishedCommits | game-server/src/services/sandbox_admin.rs:106-144 | A request that begins after an administrator has committed and invalidated never returns an older snapshot, whatever slow readers have stored |
| MenuCache.InitialEntryIsReturnedOnlyEarly | game-server/src/services/public_menu.rs:117-132 | The empty initial entry is returned only within the cache's lifetime of time zero |
| MenuCache.CacheServesForAMinute | game-server/src/services/public_menu.rs:288-312 | An uninterrupted request is served from the cache iff the generation is the current one and the entry at most 60 seconds old; otherwise it returns all that has been committed, or fails |
| MenuCache.RequestMissesOnlyUnfinished | game-server/src/services/public_menu.rs:288-312 | In any state that a run can reach, an uninterrupted request is served without a commit iff it hits and the cached snapshot lacks it, and then the commit's administrator has not invalidated yet |
| MenuCache.UnfinishedCommitMayBeMissed | game-server/src/services/sandbox_admin.rs:106-111 | A run in which this happens: between a commit and its invalidation a request is served without it |
| BotLog.ReadTail | game-server/src/services/race.rs:730-763 | The window is the longest tail of the shortened lines within 5000 lines and 200000 characters; it keeps the last line; `truncated` iff it is not the whole file |
| BotLog.SplittingIsExact | game-server/src/services/race.rs:785-798 | Joining the segments and the remainder gives the text back, and none of them holds a newline |
| BotLog.SplittingResumes | game-server/src/services/race.rs:766-801 | Splitting can be interrupted anywhere if the remainder is carried over |
| BotLog.Follower.Poll | game-server/src/services/race.rs:766-801 | A poll yields the lines completed by the appended text and keeps the unterminated rest; a file that has become shorter is read from its beginning |
| BotLog.ReplacedFileIsReadAfresh | game-server/src/services/race.rs:771-776 | A file that has become shorter is delivered from its beginning, and what was pending is dropped |
| BotLog.OneReturnIsStripped | game-server/src/services/race.rs:785-793 | One carriage return at the end of a line is stripped, and of a longer line the last 200000 characters are kept |
| BotLog.ChunkingDoesNotMatter | game-server/src/services/race.rs:766-801 | For a growing file the lines of any sequence of polls are those of the whole text split in one go |
| BotLogStream.SnapshotAndStreamFitTogether | game-server/src/services/race.rs:574-741 | For a file that is measured, read and polled while it grows: from the first line that the window keeps each line of the final file is delivered once iff no line was begun at the first end that the reader found and, once there is a poll, nothing had been written since the measuring; there are as many lines too many as were completed in between plus the ends found within a line |
| BotLogStream.LineInBetweenComesTwice | game-server/src/services/race.rs:731-741 | A line written after the measuring and before the reading is delivered twice |
| BotLogStream.WholeFileIsDelivered | game-server/src/services/race.rs:574-741 | With at least one poll they deliver exactly the final file iff the window dropped as many lines as come too many, the lines read repeat with that period, and a line begun at the measured size reads like its second piece; if none was dropped, none may come too many |
| BotLogStream.StreamLogs | game-server/src/services/race.rs:574-650 | The measured size, the snapshot that is read and the polls from that size on satisfy this with the window's own first line |
| RaceCalendar.ValidateSchedule | game-server/src/domain/race_config.rs:71-101 | The loop reports the first objection to the first entry that has one |
| RaceCalendar.ObjectionsAreTrue | game-server/src/domain/race_config.rs:117-180 | Whatever is objected to an entry is the case, in the numbers that are named |
| RaceCalendar.RunsUntilItsEnd | game-server/src/services/race_config_admin/mappers.rs:120-127 | A race runs from its start for its duration in seconds, which is until the end that is computed for it |
| RaceCalendar.SortIsAPermutationInOrder | game-server/src/services/race_config_admin.rs:223-230 | Sorting orders by start, then id, and keeps every entry |
| RaceCalendar.SortedValidationIsExact | game-server/src/services/race_config_admin.rs:223-235 | Sorted validation accepts iff every entry is valid with a representable end, ids are unique and not blank, and no instant belongs to two races, whatever the stored order |
| RaceCalendar.ValidateCandidate | game-server/src/services/race_config_admin.rs:232-235 | The candidate check passes iff it is such a calendar, and an end that does not fit is reported before anything else |
| RaceCalendar.CreateRaceConfig | game-server/src/services/race_config_admin.rs:74-112 | A creation succeeds iff the revision matches, the store takes it and the calendar with it is good; otherwise nothing changes |
| RaceCalendar.UpdateRaceConfig | game-server/src/services/race_config_admin.rs:114-168 | An update succeeds iff the race is there and the changed calendar is good; each refusal has its own error |
| RaceCalendar.DeleteRaceConfig | game-server/src/services/race_config_admin.rs:170-210 | A deletion succeeds iff the race is there, and keeps a good calendar good without validating it |
| RaceCalendar.CommitsAreExact | game-server/src/db/repos/race_config.rs:160-230 | The store takes a change iff it is for its revision and for an id that is new, or there; then exactly that entry has changed, and every refusal is a true one |
| RaceCalendar.RaceConfigRepo.CreateConfig | game-server/src/db/repos/race_config.rs:160-179 | The store inserts only at the expected revision and only a new id, and bumps the revision |
| RaceCalendar.RaceConfigRepo.UpdateConfig | game-server/src/db/repos/race_config.rs:182-201 | The store replaces only at the expected revision and only an existing id |
| RaceCalendar.RaceConfigRepo.DeleteConfig | game-server/src/db/repos/race_config.rs:204-230 | The store deletes only at the expected revision and only an existing id |
| RaceCalendar.DeletionKeepsGood | game-server/src/services/race_config_admin.rs:180-202 | Removing a race keeps the calendar good |
| RaceCalendar.CalendarStaysGood | game-server/src/services/race_config_admin.rs:74-210 | However the reads, checks and commits of any administrators interleave, every stored calendar is good: at any instant at most one race |
| LocalRaceClock.MillisecondsRoundTrip | game-server/src/local/local_race_state.rs:274-298 | Milliseconds to timestamp and back is the identity for every `u64` |
| LocalRaceClock.TimesAreSetOnce | game-server/src/local/local_race_state.rs:243-268 | When a countdown is over, times that are set stay, and the others become the countdown's end and the duration after the start |
| LocalRaceClock.LookingTwiceIsEnough | game-server/src/local/local_race_state.rs:243-268 | For any race, looking never goes back in phase, changes only the phase outside a countdown, and settles after two looks |
| LocalRaceClock.MalformedCountdownNeverEnds | game-server/src/local/local_race_state.rs:289-298 | A countdown whose end is not a valid instant never ends |
| LocalRaceClock.ClockDoesNotDependOnPolling | game-server/src/local/local_race_state.rs:243-268 | After any non-decreasing polls, two looks give what the time alone demands; start and planned end are the countdown's end and that plus the duration whenever they are set |
| LocalRaceClock.OneLookLagsOnlyAtTheEnd | game-server/src/local/local_race_state.rs:243-268 | One look suffices iff the race is not over yet or someone looked after it had started |
| LocalRaceClock.StartingSetsTheClock | game-server/src/services/local_race_admin.rs:130-152 | Starting writes a countdown; starting without one writes what a countdown ending now leads to |
| LocalRaceClock.StartedRaceFollowsTheClock | game-server/src/services/local_race_admin.rs:130-152 | From the start on, whoever polls, the race is what the time makes of it |
| LocalRaceClock.LocalRaceStateStore.SetActiveRace | game-server/src/local/local_race_state.rs:44-50 | The new race is brought up to date, and the participants start afresh |
| LocalRaceClock.LocalRaceStateStore.UpdateActiveRace | game-server/src/local/local_race_state.rs:52-71 | An update is applied between two looks to the race it names and to nothing else; the reply is that race with the number of participants |
| LocalRaceClock.LocalRaceStateStore.ClearActiveRace | game-server/src/local/local_race_state.rs:73-87 | Clearing the race it names clears the participants too |
| LocalRaceClock.LocalRaceStateStore.RegisterParticipant | game-server/src/local/local_race_state.rs:89-128 | Registration succeeds iff the race is staging and not full, and the new index exceeds all that are below the counter |
| LocalRaceClock.LocalRaceStateStore.RemoveParticipant | game-server/src/local/local_race_state.rs:141-148 | Removing a car updates the count and keeps the counter |
| LocalRaceClock.LocalRaceStateStore.ReconcileActiveRace | game-server/src/local/local_race_state.rs:150-172 | A transition is reported iff the look has moved the race on, by one phase |
| LocalRaceClock.RegistrationIsExact | game-server/src/local/local_race_state.rs:89-128 | Registration succeeds iff the named race is staging with room; then the car is listed under its name with the next index and nobody else changes; a refusal only looks at the race |
| LocalRaceClock.RemovalIsExact | game-server/src/local/local_race_state.rs:141-148 | The car is gone, everybody else stays, the count follows |
| LocalRaceClock.ReconcilingIsExact | game-server/src/local/local_race_state.rs:150-172 | The race is what a look makes of it, and only a race that has just finished loses the mark that it has been frozen |
| LocalRaceClock.OperationsReachTheRace | game-server/src/services/local_race_admin.rs:101-195 | Starting, aborting and marking act on the race they name; an aborted race stays aborted |
| LocalRaceClock.RunKeepsInv | game-server/src/local/local_race_state.rs:44-203 | Over every run of the store's operations participant indices are distinct until the counter saturates, and a race with a limit is never overfull |
| TopologyStream.ActiveSourcesAreDistinct | game-server/src/services/achievement_stream.rs:116-141 | In every reachable worker state a frame names no source twice |
| TopologyStream.AchievementStreamService.ResolveDescriptor | game-server/src/services/achievement_stream.rs:143-216 | A cached descriptor is used only for the map it is kept for; otherwise the engine is read and the cache updated |
| TopologyStream.AchievementStreamService.ResolveActiveDescriptors | game-server/src/services/achievement_stream.rs:218-231 | The sources of a frame are resolved in turn, each with the cache left by those before |
| TopologyStream.ResolvedDescribeTheirSources | game-server/src/services/achievement_stream.rs:143-231 | Every descriptor is of a source of the frame under its map, once |
| TopologyStream.DescribedIfCachedOrReadable | game-server/src/services/achievement_stream.rs:143-231 | A source is described iff it was cached on its map or its engine could be read |
| TopologyStream.TrackIsSentAndKept | game-server/src/services/achievement_stream.rs:143-191 | A source is sent with the track cached for its map, else with the one read, and the cache keeps that track for that map |
| TopologyStream.CachedTrackIsServed | game-server/src/services/achievement_stream.rs:199-216 | Whatever track is cached for a source is what is sent in all frames to come, as long as the source is on that map whenever it is there |
| TopologyTracks.SourcesAreRoutedToTheirMaps | game-server/src/services/achievement_stream.rs:116-141 | In every reachable worker state a source is listed with a map iff its target is routed to an engine built for that map |
| TopologyTracks.UnchangedRevisionReadsRight | game-server/src/services/achievement_stream.rs:148-162 | While the revision is still the frame's, a source of the frame is read from an engine of its map |
| TopologyTracks.TracksAreRightUnlessReadTooLate | game-server/src/services/achievement_stream.rs:143-231 | Over any worker run and any frames and later reads in it, all tracks sent are of their sources' maps iff no source that had to be read was by then running on another map |
| TopologyTracks.ReadsAtTheFramesRevisionAreRight | game-server/src/services/achievement_stream.rs:143-231 | In particular if every read finds the revision of its frame |
| TopologyTracks.LateReadIsServedAgain | game-server/src/services/achievement_stream.rs:143-216 | A reachable run in which a source is sent with another map's track, and again when it is back and its engine would give the right one |
| TopologyStream.RunStream | game-server/src/services/achievement_stream.rs:284-368 | The loop sends the messages of the specification for all frames, whose snapshots are exactly the frames |
| TopologyMessages.MessagesAreInPlace | game-server/src/services/achievement_stream.rs:284-368 | The stream is the bootstrap of the first frame and then one snapshot a frame, in order and with all its sources; directly before the snapshot of each frame with a new source stands an update with exactly its new sources, and there is no other message |
| TopologyMessages.SourcesAreInKeyOrder | game-server/src/services/achievement_stream.rs:116-141 | A frame lists the official race, if that is the mode, and every active sandbox with its map, the official race first and then by id |
| TopologyStream.SentExactlyWhenNew | game-server/src/services/achievement_stream.rs:328-336 | A source is sent iff the frame before did not have it on the same map |
| TopologyStream.SnapshotsAreAlwaysReadable | game-server/src/services/achievement_stream.rs:284-368 | For every run of frames, when a snapshot arrives the client knows each source in it under the map of that snapshot |
| TopologyStream.StreamOfAnEngineIsReadable | game-server/src/services/achievement_stream.rs:116-368 | In particular for the frames of any run of the engine worker |
| Roster.IndexOf | game-server/src/runtime/engine_worker.rs:2232-2251 | A search by id finds the first entry that carries it, or there is none |

## Left out

- The physics engine and its bindings, tracks and car dynamics: an engine is a token that can fail to build.
- gRPC plumbing, authentication, message mapping, configuration, logging, asset streaming and the frontend.
- Asynchronous scheduling, timers, back-pressure and cancelled streams; runs are sequences of atomic steps at the points where the code can be interrupted.
- The cache of upcoming races and its window, which has no freshness property beyond the one proved for sandbox configurations.
- `validate_draft_schedule` and `validate_inputs`, which are the calendar's validation without ids.
- Race tables of sandboxes and local races, team names, and the mapping from metrics to samples; the samples of a call have distinct car ids, as the frame keeps its cars in a map.
- LocalRaceClock.RunKeepsInv: phases are an enumeration, so raw integers that name no phase, which the code treats as unspecified, are not represented; nothing is claimed about how often the finish freeze is applied, since reconciliation clears its flag, nor that starting a countdown is all or nothing, since the race is changed before the revision is bumped.
- BotLog.Follower.Poll: characters stand for bytes, so a multi-byte character cut by a poll, which the code decodes lossily, is not represented; the size that a poll measures is that of the text it reads.
- BotLogStream.SnapshotAndStreamFitTogether: the file only grows; a stream that meets a replaced file, or text that is not valid UTF-8, which fails the snapshot, is not represented.
- BotLogStream.WholeFileIsDelivered: says nothing before the first poll, where only the snapshot has been sent.
- Weather.SweepRain: times are unbounded in the sweeps; the `i64` overflow of differences near the ends of the range is not represented, nor are the `f32` and `f64` roundings of the ratios.
- RaceTrajectory.InterpolateLeaderTimeMs: `f64` values are reals, without rounding and NaN.
- RaceTable.NumberRows: positions are unbounded, where the code casts to `u32`.
- MenuCache.RequestSeesFinishedCommits: the generation does not wrap around, and its relaxed atomic operations are taken as sequentially consistent.
- TopologyStream.RunStream: one stream is run over its service; the results about messages hold for any descriptors, and so also when other streams change the shared cache. Vehicles in snapshots are not modelled.
- TopologyTracks.TracksAreRightUnlessReadTooLate: frames are resolved one after another; two streams of the service that resolve at the same time, source by source, are not represented.
- The bodies of the repositories' queries: the store is a compare-and-swap transaction that may fail, and the order of its rows is arbitrary.

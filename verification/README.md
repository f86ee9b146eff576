# Verified model of docker-monitor

The monitor follows the logs of Docker containers, decides which lines matter, groups
them by log id, and hands batches to a log file and to a chat webhook. This project models
the stateful parts of it in Dafny and proves what they promise, over every input, every
run and every interleaving of their steps.

Each part comes as a specification on values (`...Model.dfy`, with the theorems) and, where
the program updates state in place, as a class or a method with a loop that is proved to
take exactly the steps of the specification.

| files | part of the program |
|---|---|
| `AggregatorModel`, `AggregatorProofs`, `AggregatorHistory`, `AggregatorEviction`, `Aggregator`, `Sorting` | grouping, eviction, flushing, backfill windows |
| `BackfillModel`, `WatcherBackfill`, `BackfillSummary` | the two-phase backfill count shared by watcher and aggregator, and the two run together |
| `StreamLoop` | the loop around a log stream: when it begins a backfill state, when it forgets one |
| `StreamRegistryModel`, `StreamRegistry` | the maps `active` and `ids` of running log streams |
| `Resume` | log cursors and what a stream delivers over disconnects |
| `WatcherRun` | retry delays and health reports of the main loop |
| `LineModel`, `LineWriter`, `Demux` | Docker's log bytes: frames, lines, truncation |
| `ChainModel`, `ParserModel`, `ChainBlocker` | excluded chains and the decisions of Parse |
| `PayloadModel`, `PayloadTruncation`, `SendWindow` | byte budget and send rate of the webhook |
| `BestEffortQueue` | the bounded queue in front of the webhook |
| `ShellQuote` | the command line sent over ssh |

Conventions. A time is a number of nanoseconds since Go's zero time, so `IsZero` is
equality with 0; a `GoInt` is a 64-bit integer; a clock is a parameter, arbitrary unless a
theorem says otherwise. The order of a range over a Go map and of ties in an unstable
sort is left open. The store is the sequence of batches handed to it. `hide` statements
only keep definitions out of a proof that does not need them.

What turned out not to hold, each with the exact condition or a witness:

- A line of exactly 1 MiB is marked truncated if its newline is the first byte of a
  later Write, and not otherwise. Apart from such lines the output of the splitter does not
  depend on how the input is cut (`OutputIsChunkFree`, both directions).
- `activate` keeps `active` and `ids` inverse exactly when it is no conflict: when the new
  name is not taken by another id while this id streams under another name
  (`ActivateKeepsInverse`; over runs `InverseRun`). Every live stream stays registered
  exactly when no stream ends late, that is after a newer one of the same name and id was
  registered (`FinishKeepsRegistered`, `RegisteredRun`, `LateEndLosesAStream`).
- No container is read twice in a run exactly when no activation starts a stream of an id
  that has a live one it does not cancel (`ActivateKeepsOneLive`, `OneLiveRun`); in runs
  without late ends exactly when no activation conflicts (`OneLiveStreamPerId`,
  `ConflictDoublesAStream`), and with a late end it can be without any conflict
  (`LateEndDoublesAStream`).
- Every open backfill state is held by a stream at every step of a run exactly when no
  stream begins a state while the one it holds is open (`StepKeepsHeld`, `HeldThroughout`).
  A state overwritten like that is ended only by the safety timer; without the timer it
  suppresses alerts for good (`OverwrittenStateIsOrphaned`, `OrphanSuppressesForever`).
- Whether the summary of a backfill window counts the alerts of that window depends on the
  late calls. If its exit is the only one pending and no other window is open, it does exactly
  when no alert came between the step that turned suppression on and the window's enter; in
  any other case it does exactly when the window had no alert (`SummaryCountsItsWindow`).
  Otherwise alerts of one window are reported by a later one (`LateExitMisreports`).
- A long outage need not enter backfill, as the time measured restarts at every turn of the
  stream loop. A state is begun at a turn exactly when the turn before ended in an error at
  least the threshold ago (`StreamLoop.Run`); an outage in which each next turn comes `delay`
  after the error enters backfill exactly when `delay` reaches the threshold, however long it
  lasts (`OutageEnters`, `LongOutageNeverEnters`). A begin forgets a state exactly when one was
  begun before and no line since has caught up (`StreamLoop.Run`, `SecondStateForgetsFirst`).
- Suppression follows the moment of the flush, not of the event (`SuppressionIsPerFlush`,
  `AlertOfWindowSentUnsuppressed`).
- `FirstSeen` is the earliest timestamp exactly when that is not the zero time or the last
  arrival has the zero time (`FirstSeenIsMinimum`).
- Equal expiry times let the blocker evict the newest id (`TieCanEvictNewest`). For any clock
  an unexpired id survives every eviction exactly when nothing has to go by number or fewer
  than floor(8*max/10) other live ids expire no earlier (`SurvivesEveryEviction`).
- A grant respects every cooldown noted during its wait exactly when those cooldowns end by
  the deadline the wait began with, or, for one grant, by the time of the grant
  (`GrantRespectsCooldowns`); a note that ends later is missed (`NoteDuringWaitIsMissed`).
- A container's first stream starts where one from the base time would exactly when none of
  its lines from there on is older than the second of the cursor it finds
  (`CursorSkipsNothing`). Containers that share a name share a cursor, so the later one can
  skip its own lines (`SharedNameSkips`).

Where code and documentation differ the model follows the code. The README of the
repository (line 356) says that `max_groups` bounds the groups without an alert; the code
compares it with the number of all groups, so groups with alerts use up the allowance. An
eviction removes as many groups as the documented rule exactly when the cap is off or not
exceeded, or the live groups are all with or all without an alert (`CapCountsAlertGroups`);
once the alert groups reach the cap, an event that is no alert, of an id without an alert
group, is thrown away by the call that adds it (`AlertGroupsUseUpTheCap`, and
`AlertGroupEvictsTheOther` for a run). Two
tests of `FormatSince` speak of sub-second precision in their names; the function floors to
seconds.

## Model

| member | source | states |
|---|---|---|
| AggregatorModel.MaxBufferedEvents | internal/aggregator/aggregator.go:316-324 | ten times `flushSize`, or `flushSize` itself where the product would overflow a 64-bit int; ten for a non-positive one; never below one |
| AggregatorModel.NewConfig | internal/aggregator/aggregator.go:48-66 | the arguments are carried over, negative caps and TTLs as zero; for every `flushSize`, non-positive and huge ones included, the limits the other theorems rest on hold |
| AggregatorModel.Expired | internal/aggregator/aggregator.go:245-247 | an alert-less group has expired exactly when it has been idle for the TTL; saturation of the time difference never matters |
| Aggregators.GroupBuffer.Append | internal/aggregator/aggregator.go:183-200 | one event's effect on all fields of a group, for any group size and limit, trimming included |
| Aggregators.GroupBuffer.Snapshot | internal/aggregator/aggregator.go:283-302 | the batch is a stable time sort of the group's events with matching count, times and container set; the group is unchanged |
| Aggregators.StableSortByTime | internal/aggregator/aggregator.go:290-292 | time order, and events of one time in arrival order |
| AggregatorProofs.StableSortUnique | internal/aggregator/aggregator.go:290-292 | only one order of the events is a stable time sort |
| AggregatorProofs.StableSortIsPermutation | internal/aggregator/aggregator.go:289-292 | sorting loses and invents no event |
| AggregatorProofs.SameTimeKeepsOrder | internal/aggregator/aggregator.go:290-292 | events of one time stay in the order they came in |
| Sorting.SortByStamp | internal/aggregator/aggregator.go:266-268 | some order by time, the same multiset; ties open |
| Aggregators.Aggregator.EvictExpired | internal/aggregator/aggregator.go:240-249 | exactly the groups not expired remain; what is gone is logged as discarded |
| Aggregators.Aggregator.CollectCandidates | internal/aggregator/aggregator.go:259-265 | each alert-less group once, with its touch time |
| Aggregators.Aggregator.RemoveOldest | internal/aggregator/aggregator.go:270-280 | down to the cap, or all alert-less groups; none removed was touched later than a survivor |
| Aggregators.Aggregator.EvictGroups | internal/aggregator/aggregator.go:239-281 | one pass: all expired alert-less groups, then exactly as many more as the cap asks for, least recently touched first, never a group with an alert |
| AggregatorProofs.EvictKeepsAlerts | internal/aggregator/aggregator.go:242-244 | no eviction removes a group with an alert |
| AggregatorEviction.EvictionRule | internal/aggregator/aggregator.go:239-281 | one eviction to the group: every idle group without an alert goes, none with an alert does, and of the rest exactly as many as the cap asks for, least recently touched first |
| AggregatorEviction.TouchIsLastAdd | internal/aggregator/aggregator.go:183-183 | every run: the touch time of a group is the clock of the last Add to it |
| AggregatorEviction.LastAddIs | internal/aggregator/aggregator.go:164-183 | the last Add to an id is one, and none to it comes later |
| AggregatorEviction.EvictionFollowsLastAdd | internal/aggregator/aggregator.go:239-281 | every run: an eviction takes each group without an alert last added to at least the TTL ago, no other without a cap, and never one last added to after one it leaves |
| AggregatorEviction.CallLeavesOthers | internal/aggregator/aggregator.go:164-237 | every run: what a FlushAll, or an Add of another id, does to a group: alert groups leave exactly at a FlushAll, idle ones go, and without a cap all others stay as they are |
| AggregatorEviction.AddDecides | internal/aggregator/aggregator.go:91-215 | an alert of the unknown id is sent alone and changes no group; any other event joins what its group still holds; a group without an alert is thrown away exactly at the maximum size, one with an alert sent exactly from `flushSize` events on, any other stays unless the cap takes it |
| Aggregators.Aggregator.EvictAndPush | internal/aggregator/aggregator.go:168-200 | first half of an Add: the group is found or created after the eviction and gets the event |
| Aggregators.Aggregator.Settle | internal/aggregator/aggregator.go:202-215 | second half: drop a full alert-less group, evict, keep a small group, flush a due one |
| Aggregators.Aggregator.AddToGroup | internal/aggregator/aggregator.go:164-216 | the locked part of an Add is the specified step |
| Aggregators.Aggregator.Add | internal/aggregator/aggregator.go:91-109 | a whole Add is the specified step and keeps the invariant |
| Aggregators.Aggregator.TakeAlertGroups | internal/aggregator/aggregator.go:224-234 | each group with an alert leaves the map as one batch, the others stay |
| Aggregators.Aggregator.DrainAll | internal/aggregator/aggregator.go:218-237 | evict, then drain |
| Aggregators.Aggregator.FlushAll | internal/aggregator/aggregator.go:115-128 | a whole FlushAll is the specified step and keeps the invariant |
| Aggregators.Aggregator.EnterBackfill | internal/aggregator/aggregator.go:135-139 | counts up; the first one opens a window and resets the alert count |
| Aggregators.Aggregator.ExitBackfill | internal/aggregator/aggregator.go:144-156 | counts down, never below zero; the last one returns and resets the alert count |
| AggregatorProofs.PushTracks | internal/aggregator/aggregator.go:192-200 | a push onto a group below its limits trims nothing, so the group still holds exactly its events since creation |
| AggregatorProofs.PushTrims | internal/aggregator/aggregator.go:183-200 | for any group: the newest events up to the maximum remain, and a trimmed group's first-seen time is that of the first of them |
| AggregatorProofs.AddGroupsShaped | internal/aggregator/aggregator.go:193-211 | after every Add alert groups have fewer than `flushSize` events and others fewer than the maximum |
| AggregatorProofs.AddGroupsTracked | internal/aggregator/aggregator.go:171-216 | after every Add each group holds exactly the events with its key added since it was created |
| AggregatorProofs.AddConserves | internal/aggregator/aggregator.go:91-109 | an Add loses no event: in a batch, buffered or discarded, and no alert is discarded |
| AggregatorProofs.AddCapHolds | internal/aggregator/aggregator.go:207-214 | after an Add a positive cap is exceeded only by groups with alerts |
| AggregatorProofs.CapCountsAlertGroups | internal/aggregator/aggregator.go:251-280 | an eviction removes as many groups as the documented rule exactly when the cap is off or not exceeded, or all live groups have an alert, or none has |
| AggregatorProofs.AlertGroupsUseUpTheCap | internal/aggregator/aggregator.go:164-212 | with as many alert groups as the cap allows, an Add of an event that is no alert, of an id without one, discards it and all buffered under its id |
| AggregatorProofs.AlertGroupEvictsTheOther | internal/aggregator/aggregator.go:251-280 | a run with cap one in which an alert group makes the only group without an alert go |
| AggregatorProofs.FlushConserves | internal/aggregator/aggregator.go:115-128 | a FlushAll loses no event and discards no alert |
| AggregatorProofs.FlushLeavesNoAlert | internal/aggregator/aggregator.go:218-237 | after FlushAll no group has an alert, and the cap holds without exception |
| AggregatorProofs.NextInv | internal/aggregator/aggregator.go:91-156 | every call keeps the invariant |
| AggregatorProofs.Conservation | internal/aggregator/aggregator.go:91-281 | every run: added = sent + buffered + discarded for each event, discarded ones are no alerts, buffered alerts are in marked groups, and after FlushAll all alerts have been sent |
| AggregatorProofs.BatchesAreFaithful | internal/aggregator/aggregator.go:171-215 | every run: a batch is the stable time sort of exactly the events of its id in one stretch of the log of added events, each as often as added, with an alert among them, their container names once each, count and last time, and the exact condition for the first |
| AggregatorHistory.BatchSpansItsGroup | internal/aggregator/aggregator.go:171-215 | every run: that stretch runs from the Add that created the group, which stayed in the map ever since, to the call that flushed it and took it out |
| AggregatorHistory.GroupHasCreation | internal/aggregator/aggregator.go:171-181 | every run: each buffered group was created by an Add of its id and has stayed in the map since |
| AggregatorProofs.FirstSeenIsMinimum | internal/aggregator/aggregator.go:185-187 | the first-seen time is the minimum exactly when the minimum is not zero or the last arrival is |
| AggregatorProofs.GroupsStayBounded | internal/aggregator/aggregator.go:183-281 | every run: `hasAlert` tells exactly whether an alert is buffered, groups are below their limits, the cap is exceeded only by alert groups |
| AggregatorProofs.UnknownIsNeverBuffered | internal/aggregator/aggregator.go:97-113 | fed with alerts and known ids only, no group has the unknown id |
| AggregatorProofs.ExitReportsItsWindow | internal/aggregator/aggregator.go:130-156 | the exit that closes a window reports exactly the alerts added since the enter that opened it |
| AggregatorProofs.SuppressionIsPerFlush | internal/aggregator/aggregator.go:91-128 | a batch is suppressed exactly when a window is open at the flushing call |
| AggregatorProofs.AlertOfWindowSentUnsuppressed | internal/aggregator/aggregator.go:92-128 | a run in which an alert of a window reaches the sinks unsuppressed |
| BackfillModel.StepKeepsInv | internal/docker/watcher.go:527-597 | every locked section and every controller call keeps the two counts in step |
| BackfillModel.CountsAgree | internal/docker/watcher.go:534-597 | all interleavings: the watcher counts the states begun and not ended, the aggregator the exits to come plus one while a state is open and entered; all over means suppression off |
| BackfillModel.NoUnderflow | internal/docker/watcher.go:574-576 | neither underflow guard ever acts |
| BackfillModel.OrphanSuppressesForever | internal/docker/watcher.go:463-468 | an open state held by no stream, without the timer, is never ended and keeps suppression on |
| BackfillModel.OverwrittenStateIsOrphaned | internal/docker/watcher.go:463-468 | a run that makes such a state |
| BackfillModel.StepKeepsHeld | internal/docker/watcher.go:463-468 | a step keeps every open state held by a stream exactly when it does not begin a state on a stream whose own is still open |
| BackfillModel.HeldThroughout | internal/docker/watcher.go:463-468 | every run: all open states are held at every step exactly when no step overwrites an open one |
| WatcherBackfill.Watcher.BeginLocked | internal/docker/watcher.go:534-543 | the locked part of a begin is the specified step; start time and window are kept |
| WatcherBackfill.Watcher.CallEnter | internal/docker/watcher.go:545-547 | the enter after the unlock is the specified step on both counts |
| WatcherBackfill.Watcher.EndLocked | internal/docker/watcher.go:573-584 | the locked part of an end is the specified step and hands out the longest disconnect of the window |
| WatcherBackfill.LongestIsMaximum | internal/docker/watcher.go:538-543 | the longest disconnect of a window is one of its disconnects, and none is longer |
| WatcherBackfill.Watcher.CallExit | internal/docker/watcher.go:592-595 | the exit after the unlock is the specified step and finds a positive count |
| BackfillSummary.CountsAreOne | internal/docker/watcher.go:534-597 | watcher and aggregator run together, all interleavings: the count in the aggregator is the one the protocol predicts |
| BackfillSummary.SummaryCountsItsWindow | internal/docker/watcher.go:545-595 | every window of the watcher, all interleavings: exactly when the count handed to its summary is the number of alerts between its enter and its exit |
| BackfillSummary.LateExitMisreports | internal/docker/watcher.go:573-595 | a run in which an exit comes late and the next window reports the alert of the one before |
| StreamLoop.Run | internal/docker/watcher.go:441-506 | a state is begun at a turn exactly when the turn before ended in an error at least the threshold ago, and replaces one still held exactly when one was begun before and no line has caught up since |
| StreamLoop.Deliver | internal/docker/watcher.go:446-451 | the lines of a turn end the held state exactly when one has a timestamp no more than 30 s before the reconnect |
| StreamLoop.OutageEnters | internal/docker/watcher.go:463-506 | an outage of any length enters backfill exactly when a single wait for the next turn reaches the threshold |
| StreamLoop.LongOutageNeverEnters | internal/docker/watcher.go:463-506 | outages of any length in which no turn enters backfill |
| StreamLoop.SecondStateForgetsFirst | internal/docker/watcher.go:463-468 | a run in which a second state replaces one still held |
| StreamRegistry.Registry.Activate | internal/docker/watcher.go:789-816 | registers a stream unless it is there, and hands back the stream it displaces |
| StreamRegistry.Registry.Stop | internal/docker/watcher.go:688-705 | unregisters an id and hands back its stream |
| StreamRegistry.Registry.StopAll | internal/docker/watcher.go:707-720 | empties both maps and hands back every registered stream |
| StreamRegistry.Registry.RemoveActive | internal/docker/watcher.go:818-828 | unregisters a name and id if they match |
| StreamRegistryModel.RunKeeps | internal/docker/watcher.go:688-828 | every run: each id points to a name whose entry carries it, and entries are live streams of that name and id |
| StreamRegistryModel.ActivateRegisters | internal/docker/watcher.go:789-816 | activating a registered name and id changes nothing; any other activation starts and registers one stream, and takes away another name only if it was the id's and the new name was free |
| StreamRegistryModel.FinishUnregisters | internal/docker/watcher.go:818-828 | the end of a stream takes away the entry of its name and id, whoever's it is, and nothing else |
| StreamRegistryModel.StopSilences | internal/docker/watcher.go:688-705 | a stop of an id leaves no live stream of it exactly when no live one was unregistered; it touches no other id |
| StreamRegistryModel.StopAllSilences | internal/docker/watcher.go:707-720 | stopAll leaves no live stream exactly when every live one was registered |
| StreamRegistryModel.StopAllEndsEverything | internal/docker/watcher.go:707-720 | runs without late ends: nothing survives stopAll |
| StreamRegistryModel.StopAllEmpties | internal/docker/watcher.go:707-720 | every run: stopAll leaves both maps empty and cancels whatever was registered |
| StreamRegistryModel.ActivateKeepsInverse | internal/docker/watcher.go:795-815 | an activation keeps the maps inverse exactly when it is no conflict |
| StreamRegistryModel.OtherStepsKeepInverse | internal/docker/watcher.go:688-828 | stops and stream ends keep the maps inverse |
| StreamRegistryModel.InverseRun | internal/docker/watcher.go:688-828 | every run: the maps are inverse at every step exactly when no activation conflicts |
| StreamRegistryModel.FinishKeepsRegistered | internal/docker/watcher.go:818-828 | the end of a stream leaves every live stream registered exactly when it is not late |
| StreamRegistryModel.RegisteredRun | internal/docker/watcher.go:688-828 | every run: all live streams are registered at every step exactly when no end is late |
| StreamRegistryModel.ActivateKeepsOneLive | internal/docker/watcher.go:789-816 | an activation keeps at most one live stream per container id exactly when it leaves no other live stream of its id running |
| StreamRegistryModel.OtherStepsKeepOneLive | internal/docker/watcher.go:688-828 | stops and stream ends never double a stream |
| StreamRegistryModel.OneLiveRun | internal/docker/watcher.go:688-828 | every run: at most one live stream per container id at every step exactly when no activation doubles one |
| StreamRegistryModel.DoublesIsConflict | internal/docker/watcher.go:795-810 | a conflict always doubles a stream, and while the maps are inverse and all live streams registered nothing else does |
| StreamRegistryModel.OneLiveStreamPerId | internal/docker/watcher.go:688-828 | runs without late ends: at most one live stream per container id at every step exactly when no activation conflicts |
| StreamRegistryModel.ConflictDoublesAStream | internal/docker/watcher.go:795-801 | a run with a conflict in which one id is read twice |
| StreamRegistryModel.LateEndLosesAStream | internal/docker/watcher.go:822-827 | a run with a late end in which a live stream cannot be stopped |
| StreamRegistryModel.LateEndDoublesAStream | internal/docker/watcher.go:822-827 | a run without conflicts in which a late end lets one id be read twice |
| Resume.StartSplits | internal/docker/client.go:311-316 | a stream with a since starts at the first line not before the whole second of it, one without at the beginning |
| Resume.LineArrives | internal/docker/watcher.go:448-456 | each line delivered keeps the last-seen time and the delivered range in step |
| Resume.SeenAfterIsLatest | internal/docker/watcher.go:452-455 | the last-seen time is the latest of the one before and the timestamps delivered |
| Resume.FurthestIsMaximum | internal/docker/watcher.go:463-506 | the furthest line reached is the largest end of a connection, or the start |
| Resume.NothingIsSkipped | internal/docker/watcher.go:448-471 | any sequence of disconnects: together the connections deliver one contiguous range, from the start of the first to the furthest line reached |
| Resume.RepeatsStayInOneSecond | internal/docker/watcher.go:448-471 | whatever a connection delivers again lies in the second of the last-seen time it was opened with, if the first since was after the zero time; and what else may come twice if not |
| Resume.Watcher.InitialLogSince | internal/docker/watcher.go:722-737 | the start time less a positive `initialSince`, or the latest of the cursors of the container's keys if that is later |
| Resume.Watcher.RecordLogTimestamp | internal/docker/watcher.go:739-752 | each cursor of the container is set, or moves to the later of the two times and never back; all others stay |
| Resume.Watcher.Connection | internal/docker/watcher.go:448-471 | one connection delivers each line from its floored since to where it breaks once and in order, returns the last-seen time after them, and the cursors of the container, and no others, move with it |
| Resume.Watcher.RunStream | internal/docker/watcher.go:436-506 | any sequence of disconnects: the first connection is opened with the initial since, each later one with the time last seen; what each delivers, in order; and a restart resumes where the stream ended |
| Resume.CursorSkipsNothing | internal/docker/watcher.go:722-737 | a first stream skips none of the lines from the base on exactly when none is older than the second of the cursor it found |
| Resume.SharedNameSkips | internal/docker/watcher.go:731-763 | after a stream of one container, the first stream of another of the same name starts at its cursor and skips a line |
| Resume.TrimSpaceCutsEnds | internal/docker/watcher.go:754-763 | trimming a key removes white space, and only that, at both ends |
| WatcherRun.NextRetryDelayWithMax | internal/docker/watcher.go:240-266 | min(base * 2^(failures-1), max) for a positive maximum, the wrapped product without one, 0 for a non-positive base |
| WatcherRun.WrapIsCongruent | internal/docker/watcher.go:259 | the wrapped product is the 64-bit integer that differs by a multiple of 2^64 |
| WatcherRun.WrapDouble | internal/docker/watcher.go:259 | doubling step by step wraps as the whole product does |
| WatcherRun.Run | internal/docker/watcher.go:160-212 | the loop stops at the first turn that returns, and its counters and reports are those of the turn-by-turn specification |
| WatcherRun.TurnReports | internal/docker/watcher.go:160-212 | each turn reports just this: ERROR at the third failure in a row, INFO with the number of failures when a row of three or more ends |
| WatcherRun.ReportsAlternate | internal/docker/watcher.go:160-212 | per component ERROR and INFO alternate from ERROR on, one ERROR outstanding exactly while consecutive failures are at least three |
| LineModel.TrimRightCR | internal/docker/logs.go:115-116 | all trailing carriage returns go and nothing else |
| LineModel.BlankMeansSpaces | internal/docker/logs.go:168-172 | a line is dropped exactly when it consists of white-space characters |
| LineModel.SpaceByCodePoint | internal/docker/logs.go:170-170 | white-space characters are the encodings of the white-space code points, and no others |
| LineModel.FeedSplitsLines | internal/docker/logs.go:104-166 | byte at a time: the newline-separated lines come out, capped, with the mark rule |
| LineModel.OutputIsLines | internal/docker/logs.go:104-184 | for every cut into Writes then Flush: exactly the lines of the whole input, capped at the limit, trimmed, blanks dropped, marked if longer than the limit or of exactly the limit with a late newline |
| LineModel.OutputLineByLine | internal/docker/logs.go:104-184 | for every cut into Writes then Flush: the lines that are not blank, once each and in order, each as its first 1 MiB without carriage returns at the end, marked exactly when longer than 1 MiB, or as long with a newline that opens a Write |
| LineModel.OneLineInOneWrite | internal/docker/logs.go:104-184 | one line in one Write: unmarked up to 1 MiB, cut and marked beyond |
| LineModel.SplitLinesJoin | internal/docker/logs.go:104-166 | those lines contain no newline and join to the input |
| LineModel.ChunksDoNotMatter | internal/docker/logs.go:104-184 | the contents never depend on the cut; nothing does without an exact-limit line |
| LineModel.ExactLineDependsOnChunks | internal/docker/logs.go:124-140 | an exact-limit line has two outputs |
| LineModel.OutputIsChunkFree | internal/docker/logs.go:104-184 | the output is independent of the cut exactly when there is no terminated, non-blank line of exactly the limit |
| LineWriters.LineWriter.EmitLine | internal/docker/logs.go:168-184 | the handler gets the line unless it is blank |
| LineWriters.LineWriter.Take | internal/docker/logs.go:104-151 | the loop of a Write does to buffer, mark and handler what feeding its bytes does; it terminates |
| LineWriters.LineWriter.Write | internal/docker/logs.go:104-151 | a Write extends the input by its bytes |
| LineWriters.LineWriter.Flush | internal/docker/logs.go:153-166 | after a Flush the handler has seen the output of the Writes since the last one |
| Demux.CopyDockerLogs | internal/docker/logs.go:202-260 | the Writes to both writers are those specified for the source, plain streams in any pieces; a read error is returned, and less than a header before it is dropped |
| Demux.CopyMux | internal/docker/logs.go:222-259 | the frame loop writes whole frames in order and stops at the end, at a read error or at an oversized one |
| Demux.PassThrough | internal/docker/logs.go:217-220 | a plain stream goes to stdout whole |
| Demux.PlainGoesToStdout | internal/docker/logs.go:202-220 | unless eight bytes open with 1 or 2 and three zeros, all goes to stdout, nothing to stderr; less than eight bytes before a read error are dropped |
| Demux.HeaderOpensFrames | internal/docker/logs.go:217-224 | with such a header the frames are read |
| Demux.Uint32IsBigEndian | internal/docker/logs.go:224-224 | the size of a frame is read big-endian |
| Demux.DecodeOfEncode | internal/docker/logs.go:202-260 | round trip: every frame arrives whole, in order, at its target |
| Demux.FramesReachTheirWriters | internal/docker/logs.go:236-249 | stderr gets exactly the payloads of stream type 2, stdout all others, whole and in order |
| Demux.DecodeOfCut | internal/docker/logs.go:202-260 | cut at byte 8 or later, by the end or by a read error, exactly the frames wholly before the cut arrive; before byte 8 the piece goes to stdout, or nothing after a read error |
| Demux.OversizedFrame | internal/docker/logs.go:224-227 | an oversized frame ends the copy with an error after the frames before it |
| Demux.FramingDoesNotMatter | internal/docker/logs.go:104-260 | the lines do not depend on how the bytes were framed, up to the exact-limit mark |
| ChainModel.BlockKeepsInv | internal/parser/parser.go:426-478 | a Block keeps the cache within its limit, true to the last block times, and complete for protected ids |
| ChainModel.EvictSparesProtected | internal/parser/parser.go:456-478 | eviction by number never takes an id with fewer than floor(8*max/10) others blocked since |
| ChainModel.EvictionRule | internal/parser/parser.go:456-478 | what has expired goes and nothing else, unless that leaves too many; then floor(8*max/10) stay, none that expires before one that goes |
| ChainModel.BlockRule | internal/parser/parser.go:426-436 | a Block enters the id for the TTL and takes nothing away unless that exceeds the limit |
| ChainModel.KeptEntriesIs | internal/parser/parser.go:474-474 | the target is floor(8*max/10) |
| ChainModel.LastBlockIs | internal/parser/parser.go:426-436 | the last block of an id, and the others blocked since, by position in the history |
| ChainModel.EmptyIdIsIgnored | internal/parser/parser.go:427-442 | the empty id is never entered and never blocked |
| ChainModel.BlockedIsRight | internal/parser/parser.go:439-454 | blocked only before the last block plus the TTL, for any clock; in time order exactly that for protected ids |
| ChainModel.SurvivesEveryEviction | internal/parser/parser.go:456-478 | any clock: an unexpired id survives every eviction exactly when nothing goes by number or fewer than floor(8*max/10) others expire no earlier |
| ChainModel.TieCanEvictNewest | internal/parser/parser.go:473-477 | three Blocks at one time, from the start, after which the id blocked last is not blocked |
| ChainBlockers.NewChainBlocker | internal/parser/parser.go:411-423 | no blocker exactly when the TTL is not positive |
| ChainBlockers.ChainBlocker.Block | internal/parser/parser.go:426-436 | a Block is the specified step and keeps the invariant |
| ChainBlockers.ChainBlocker.Blocked | internal/parser/parser.go:439-454 | the look-up is the specified one, removes an expired entry, and answers rightly |
| ChainBlockers.ChainBlocker.EvictLocked | internal/parser/parser.go:456-478 | expired entries go; if still too many, the earliest to expire until the target is left |
| ChainBlockers.ChainBlocker.DropOldest | internal/parser/parser.go:469-477 | down to the target, none kept that expires before one removed |
| ChainBlockers.Parse | internal/parser/parser.go:110-182 | with a blocker one Parse is the specified step; without one it decides by the facts alone as if nothing were blocked |
| ParserModel.ParseDecides | internal/parser/parser.go:110-182 | from the facts of a line: an event exactly when not blank, not excluded, not blocked, and with a level or a known id; an alert exactly when a JSON or text level was found; which level and which id; and the history grows by exactly the excluded lines of known ids |
| ParserModel.ExtractFinds | internal/parser/parser.go:128-166 | the id, the level, the alert and the exclusion, from the facts of a line |
| ParserModel.StepKeeps | internal/parser/parser.go:151-181 | an excluded line of a known id, and only that, is entered into the blocker's history |
| ParserModel.ChainSilence | internal/parser/parser.go:151-181 | after an excluded line every line of its id within the TTL yields nothing, on a strictly increasing clock and with few other ids excluded in between |
| ParserModel.SilenceHasAReason | internal/parser/parser.go:162-181 | every run: a line decides by its facts, and is blocked only within the TTL of the last exclusion of its id |
| ParserModel.UnknownIsNeverBlocked | internal/parser/parser.go:166-175 | the unknown id never enters the blocker |
| ParserModel.ParseNeverFillsUnknownGroup | internal/parser/parser.go:151-181 | an aggregator fed by Parse never has a group of the unknown id |
| PayloadModel.CutIsLastAligned | internal/store/dingtalk_store.go:339-350 | a cut falls at the last character start not beyond the limit |
| PayloadModel.AlignedMeansWhole | internal/store/dingtalk_store.go:339-350 | in well-formed text the aligned positions are exactly those where a well-formed prefix ends |
| PayloadModel.ScalarIsRune | internal/store/dingtalk_store.go:346-346 | the encoding of every code point that is a character is read as one (section 3 of RFC 3629) |
| PayloadModel.RuneIsScalar | internal/store/dingtalk_store.go:346-346 | and nothing else is |
| PayloadModel.NoticeText | internal/store/dingtalk_store.go:44-44 | the text of the truncation notice |
| PayloadModel.CutKeepsCharacters | internal/store/dingtalk_store.go:339-350 | cutting well-formed UTF-8 leaves well-formed UTF-8 |
| PayloadModel.EncodedReadsBack | internal/store/dingtalk_store.go:252-252 | what is written for a text reads back as the text by section 7 of RFC 8259, with U+FFFD for malformed bytes |
| PayloadModel.EncodedIsSafe | internal/store/dingtalk_store.go:252-252 | no control character and no HTML character is written |
| PayloadModel.EncodedSizeIsLength | internal/store/dingtalk_store.go:49-69 | the size of a payload is the length of its JSON |
| PayloadModel.WithBodySets | internal/store/dingtalk_store.go:278-305 | a cut replaces the markdown text of a markdown payload, the text of a text payload, and no other field |
| PayloadModel.EncodingSplits | internal/store/dingtalk_store.go:311-324 | the JSON encoding of a text splits at character starts |
| PayloadModel.ShortenedIsMonotone | internal/store/dingtalk_store.go:319-334 | a later cut is no shorter and costs no less |
| PayloadModel.EarlierCutFits | internal/store/dingtalk_store.go:319-334 | if a cut fits the budget so does every earlier one |
| PayloadTruncation.TruncateUTF8ByBytes | internal/store/dingtalk_store.go:339-350 | the loop finds that cut |
| PayloadTruncation.TruncatePayloadString | internal/store/dingtalk_store.go:307-337 | the result fits and is the longest aligned, newline-trimmed prefix plus notice that fits; none exactly when the notice alone does not fit |
| PayloadTruncation.MarshalPayload | internal/store/dingtalk_store.go:251-305 | what is sent is within 20000 bytes, a fitting payload is unchanged, a markdown or text payload that does not fit has that field cut in the longest way that fits, which fails exactly when the notice alone does not fit there, and the error after truncation never occurs |
| SendWindow.GrantsAreSpaced | internal/store/dingtalk_store.go:200-235 | every run, cancelled waits included: k windows apart means k intervals apart |
| SendWindow.FifteenAMinute | internal/store/dingtalk_store.go:45-45 | at four seconds a half-open minute has at most 15 windows |
| SendWindow.GrantsAreRecorded | internal/store/dingtalk_store.go:217-234 | the grants of a run are those of its waits that were not cancelled, in order |
| SendWindow.DeadlineIsEarliest | internal/store/dingtalk_store.go:207-249 | a time is not before the deadline of a wait exactly when every interval after a grant and every cooldown after a note from before the wait is over by then |
| SendWindow.CooldownIsKept | internal/store/dingtalk_store.go:200-249 | a wait begun after a rate-limit note is not granted before that cooldown ends |
| SendWindow.GrantRespectsCooldowns | internal/store/dingtalk_store.go:200-249 | the deadline, and the grant, come after every cooldown exactly when each note during the wait ends by then |
| SendWindow.NoteDuringWaitIsMissed | internal/store/dingtalk_store.go:210-249 | a run in which a note during a wait does not hold that wait back |
| SendWindow.DingTalkStore.BeginWait | internal/store/dingtalk_store.go:207-215 | the deadline is the later of next send and cooldown |
| SendWindow.DingTalkStore.EndWait | internal/store/dingtalk_store.go:217-234 | a grant moves the next send, a cancelled wait moves nothing |
| SendWindow.DingTalkStore.NoteRateLimit | internal/store/dingtalk_store.go:237-249 | a note extends the cooldown and never shortens it |
| BestEffortQueue.NothingIsLost | internal/store/best_effort_store.go:50-109 | all interleavings: accepted = delivered, in flight, queued, in order; at most 128 queued; worker done means all delivered |
| BestEffortQueue.ClosedAcceptsNothing | internal/store/best_effort_store.go:56-92 | after Close nothing is accepted or sent |
| BestEffortQueue.AcceptedAreAdmitted | internal/store/best_effort_store.go:56-73 | every run: accepted are exactly the batches appended before the first Close while fewer than 128 of those admitted were still to be taken |
| BestEffortQueue.BestEffortStore.AppendBatch | internal/store/best_effort_store.go:50-74 | queues or drops, never blocks |
| BestEffortQueue.BestEffortStore.Close | internal/store/best_effort_store.go:76-84 | closes once |
| BestEffortQueue.BestEffortStore.Receive | internal/store/best_effort_store.go:94-98 | the worker takes the oldest batch, or is done when closed and empty |
| BestEffortQueue.BestEffortStore.Hand | internal/store/best_effort_store.go:99-105 | the batch in flight is delivered |
| ShellQuote.ShellJoin | internal/docker/ssh_helper.go:104-110 | the loop joins the quoted parts |
| ShellQuote.ReadReplaced | internal/docker/ssh_helper.go:112-117 | inside single quotes the replaced value reads as the value |
| ShellQuote.WordsOfJoin | internal/docker/ssh_helper.go:104-117 | the shell's words of the command are exactly the parts, by sections 2.2.1 to 2.2.3 and 2.6.7 of POSIX.1-2017 XCU |

## Left out

- Aggregators.Aggregator.Add: one atomic call; the lock is released before the batch reaches the store, and the store's error is not returned.
- Aggregators.Aggregator.EnterBackfill: the counts are unbounded integers, not 32- and 64-bit atomics, and the two atomics of one call are changed together.
- Aggregators.Aggregator.FlushAll: one atomic call; the errors of the store are not joined and returned.
- Aggregators.Aggregator.ExitBackfill: as for EnterBackfill, unbounded counts changed together.
- Aggregators.GroupBuffer.Snapshot: the flush time stamped on a batch is not modelled.
- StreamLoop.Run: one reading of the clock per turn; the returns on cancellation, replacement or a container that has gone end the list of turns, and the safety timer, which ends a state without the loop noticing, is in BackfillModel.
- WatcherBackfill.Watcher.EndLocked: the log lines are left out.
- WatcherBackfill.Watcher.CallExit: the text of the summary report is left out; the alert count it is given is the subject of BackfillSummary.
- BackfillSummary.SummaryCountsItsWindow: a call to the aggregator is one step, as in the aggregator's own model.
- StreamRegistry.Registry.Activate: cancelling takes effect when the cancel function is handed to its caller, a moment before it is called.
- Resume.Watcher.RunStream: one stream at a time, without replacement lookup; the loop's backfill decisions are in StreamLoop; Docker is taken to serve a container's lines in time order from `since` on.
- WatcherRun.Run: the log lines and the waits themselves are left out; a retry that is cancelled ends the list of turns.
- LineWriters.LineWriter.EmitLine: records content and mark; appending the suffix text and splitting off Docker's timestamp are left out, and the handler is taken to succeed.
- LineWriters.LineWriter.Take: the handler is taken to succeed, so the early return on its error is left out.
- LineWriters.LineWriter.Write: as for Take.
- LineWriters.LineWriter.Flush: as for Take.
- Demux.CopyDockerLogs: write errors are left out, as the writers' handlers are taken to succeed.
- Demux.CopyMux: as for CopyDockerLogs.
- ChainBlockers.Parse: regular expressions, JSON decoding, timestamps and message text are given as facts about the line.
- PayloadTruncation.MarshalPayload: the encoder is modelled by the bytes it writes for strings and the fixed text around them; it is taken not to fail.
- SendWindow.DingTalkStore.EndWait: the timer is a time not before the deadline.
- BestEffortQueue.BestEffortStore.Close: the 15-second limit on waiting for the worker is left out.
- ShellQuote.WordsOfJoin: reading stops at unquoted special characters, which quoting never produces.
- HTTP, Unix sockets and the ssh process: input and output.
- Configuration, Markdown and mention text, request signing, file writing: formatting.
- Container events, discovery, replacement and self detection: decisions on Docker's answers without state of their own.

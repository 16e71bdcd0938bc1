# NuSelf: verified models

A Dafny 4.11 project that models the protocols, state machines and graph algorithms of NuSelf and proves what they
promise. `dafny verify dfyconfig.toml` checks all of it.

| file | what it models |
|---|---|
| `SchedulerModel.dfy`, `SchedulerSafety.dfy`, `SchedulerMeaning.dfy`, `Scheduler.dfy` | the daemon task scheduler: a state machine of atomic steps, its invariants over every run, what each step does field by field, and the class whose methods take those steps |
| `MemoryGraph.dfy` | breadth-first search over the memory relations, against walks, distance and least closed sets |
| `LogStore.dfy` | log rotation that can fail at any rename or unlink, and the append with rollback |
| `LogCursor.dfy`, `LogCursorLimits.dfy`, `LogIdentities.dfy` | the incremental log reader that takes no lock; for each condition on its runs, exactly when it stays right without it; the recognition of events already seen |
| `Delivery.dfy`, `DeliveryProtocol.dfy` | the delivery store and loop; and the same protocol under any number of workers with a crash between any two steps |
| `Conversation.dfy`, `ConversationLocks.dfy` | the two-phase turn attempt and its interleavings; the lock order |
| `Activity.dfy` | the bounded live-activity queues and their drop counts |
| `Transport.dfy` | the bounded frame reader and the frame writer |
| `RelatedMatches.dfy` | the fold that ranks related memories |
| `MigrationV4.dfy`, `MigrationV6.dfy` | the v3-v4 and v5-v6 schema migrations and how they undo each other |
| `Wrappers.dfy`, `Ordering.dfy`, `Json.dfy` | option and result values, the order of strings, JSON values |

A class is used where the source updates fields in place; its methods are tied to functions or step relations on
values, and the lemmas are about those. For the functions there are lemmas that say what they do in terms of fields,
lengths and names alone. Things the source asks its surroundings for (clock readings, which system call fails, what
`send` or a callback does, new identifiers) are parameters, so every statement is for all of them.

## What the proofs found

- Delivery: a loop that knows no adapter leaves a record without a plan pending, however often it runs; a later loop
  that has adapters can still finish it (`CompletedStatus`, first clause).
- Conversation: the pending-turn check is skipped when the conversation already holds an assistant message with the
  same turn id. The exact condition is `PendingTurnGuard`; `RepliedPendingTurnRunsAgain` is an input where a pending
  turn runs again without `continue_pending_turn`.
- Conversation: an empty turn id is accepted and persisted, and the stored record cannot be decoded afterwards
  (`StartedTurnIsPending`: readable if and only if the id is not empty). `EmptyTurnIdLocksTheConversation`: after such
  an update that does not commit, update, rename, branch and archive all fail.
- Log cursor: `PollsReturnExactlyTheCompleteLines` holds over runs whose steps meet some conditions. For each of
  them `LogCursorLimits` says exactly when the reader, without it, is right from then on, however the file grows
  later (`StaysRight`, `RightForEver`), and has an input where it is not: a start inside a line
  (`WholeLinesIffStartedAtALine`, `StartedInsideALine`); a rollback behind the cursor, after which the reader starts
  over or, if the file has grown past its offset again, returns the end of a line and misses the rest
  (`CutBehindTheReader`, `CutAndReadAgain`, `CutAndRegrown`, `CutAndTornLater`); more than one rotation since its last
  poll (`FilesBetweenAreSkipped`, `TwoRotationsLoseALine`); a file dropped before it was read (`DroppedFileIsSkipped`,
  `OneBackupLosesTheRest`, `FailedRotationLosesTheRest`), also when its identity was given to a new file
  (`ActiveFileHasOldIdentity`, `BackupHasOldIdentity`, `OldIdentityTearsALine`); a rotation before the first look
  (`RotationBeforeFirstLook`, `FirstFileIsLost`), inside a line (`RotationInsideALine`, `LineTornByRotation`) or
  between the two looks of one poll (`RotationInsideAPoll`, `TornByTheRace`); a poll between the rename of the
  active file and the creation of the next (`PollInTheGap`, `LineLostInTheGap`).
- Frame reader: for a stream with bytes after the first newline the outcome depends on the chunking: a frame when a
  chunk happens to end at the newline, "extra data" otherwise (`ExtraDataDependsOnChunking`, `TwoFramesTwoOutcomes`).
- v3-v4: v4 records have a v3 form exactly when their payloads are objects and no two keys of a collection are equal
  up to ASCII case, because SQLite column names ignore case (`DowngradableIffNoClash`, `ClashingRecords`); a downgrade
  that went through can be upgraded again if and only if no record id is empty (`DowngradeUpgradable`,
  `EmptyIdIsNotUpgradedAgain`).
- Scheduler: with `cancel_pending=False` every future is settled by every shutdown if and only if, when shutdown
  began, nothing was pending, or the dispatcher had started and all pending tasks were due
  (`ShutdownWithoutCancelling`; `UnstartedLeavesAFuture` and `DelayedTaskIsLeft` are the two ways to fail).

## Model

| member | source | states |
|---|---|---|
| SchedulerModel.WaitIsExact | src/nuself/daemon/scheduler.py:266-277 | the computed wait is exact: from the moment it was computed until it ends nothing is runnable, from its end on something is; unbounded means that nothing becomes runnable by waiting |
| SchedulerModel.NextIsUnique | src/nuself/daemon/scheduler.py:246-264 | the minimum of (priority, run time, sequence) among the eligible tasks is unique |
| SchedulerSafety.StepKeepsInv | src/nuself/daemon/scheduler.py:121-368 | every step (submit, dispatch, complete, periodic re-admission, shutdown) keeps the bookkeeping invariant: active set, busy resources, futures, order of the queue, bounds |
| SchedulerSafety.RunKeepsInv | src/nuself/daemon/scheduler.py:121-368 | so does every run |
| SchedulerSafety.AdmissionAndExclusion | src/nuself/daemon/scheduler.py:152-364 | in every reachable state the active identities are the disjoint union of the pending and the running ones, one task per identity, the busy resources are exactly those of the running tasks with one task each, at most `max_concurrency` run and at most `queue_capacity` are active |
| SchedulerSafety.NeverSleepsThroughWork | src/nuself/daemon/scheduler.py:228-237 | whenever the dispatcher sleeps in a reachable state, nothing is runnable before its alarm, and something is from the alarm on |
| SchedulerSafety.StepSettlesOnce | src/nuself/daemon/scheduler.py:334-368 | no step changes a future that was resolved or cancelled |
| SchedulerSafety.FuturesSettleOnce | src/nuself/daemon/scheduler.py:334-368 | over every run a future is settled at most once and never forgotten |
| SchedulerSafety.StoppedMeansSettled | src/nuself/daemon/scheduler.py:206-226 | when stopped, every future ever handed out is settled if and only if nothing was left pending |
| SchedulerSafety.ClosedStep | src/nuself/daemon/scheduler.py:195-244 | after shutdown has begun no step makes anything pending, and dispatcher, completions and the end of shutdown strictly use up the remaining work |
| SchedulerSafety.ShutdownProgress | src/nuself/daemon/scheduler.py:195-244 | a stopping scheduler can always take a step that reduces the remaining work, without waiting for time to pass |
| SchedulerSafety.Drain | src/nuself/daemon/scheduler.py:228-244 | from every stopping state some run reaches the stopped state, leaving the tasks that were not due |
| SchedulerSafety.ShutdownSettlesEverything | src/nuself/daemon/scheduler.py:195-226 | with `cancel_pending=True`, after any run from the beginning of shutdown nothing is pending, and once stopped nothing is active and every future ever handed out is settled |
| SchedulerSafety.ShutdownWithoutCancelling | src/nuself/daemon/scheduler.py:195-244 | with `cancel_pending=False` every future is settled in every stopped state if and only if nothing was pending, or the dispatcher had started and every pending task was due |
| SchedulerSafety.LeftIsLater | src/nuself/daemon/scheduler.py:228-244 | in every reachable stopped state a task left pending was not due when the dispatcher left, or the dispatcher never started |
| SchedulerSafety.UnstartedLeavesAFuture | src/nuself/daemon/scheduler.py:195-226 | submit and shut down without cancelling, never started: the run ends stopped with an unsettled future |
| SchedulerSafety.DelayedTaskIsLeft | src/nuself/daemon/scheduler.py:228-244 | start, submit with a delay and shut down without cancelling: the dispatcher leaves, and the future stays unsettled |
| SchedulerMeaning.SubmitMeans | src/nuself/daemon/scheduler.py:139-178 | a refused or coalesced submit changes nothing; a new one adds as the last entry its task and interval, to run at clock + delay, with the next sequence number and a fresh waiting future, makes its identity active, wakes the dispatcher and changes nothing else |
| SchedulerMeaning.SubmitAnswers | src/nuself/daemon/scheduler.py:139-178 | when a submit raises, which error, and whose future it returns otherwise |
| SchedulerMeaning.SubmitIsDueAfterDelay | src/nuself/daemon/scheduler.py:169-169 | the new entry is due from clock + delay on and not before |
| SchedulerMeaning.NextMeans | src/nuself/daemon/scheduler.py:246-264 | the next task is due, its resource free, and it comes first by priority, then run time, then sequence; there is none exactly if none is due with a free resource or all slots are taken |
| SchedulerMeaning.DispatchMeans | src/nuself/daemon/scheduler.py:228-244 | the dispatched entry is taken out of its place in the queue, runs and occupies its resource; no due entry with a free resource comes before it |
| SchedulerMeaning.CompleteMeans | src/nuself/daemon/scheduler.py:334-368 | the run gives back its resource; a periodic task, while running, is pending again as the last entry, to run at clock + interval with a fresh waiting future, and otherwise its identity is dropped and the queue unchanged |
| SchedulerMeaning.PeriodicStaysActive | src/nuself/daemon/scheduler.py:350-363 | over every run, until shutdown begins, a periodic task stays active: pending or running, with the same task and interval |
| SchedulerMeaning.ResolveMeans | src/nuself/daemon/scheduler.py:365-368 | the future of the finished run, and no other, gets the outcome of that run |
| SchedulerMeaning.EveryRunGetsItsOwnOutcome | src/nuself/daemon/scheduler.py:334-368 | whatever happens after a run completed with an outcome, its future is settled with that very outcome, or still waiting with it at hand; in a stopped state it is settled with it |
| SchedulerMeaning.BeginShutdownMeans | src/nuself/daemon/scheduler.py:203-216 | shutdown with cancelling empties the queue, cancels exactly the futures of the entries in it and drops exactly their identities; without, it takes nothing away; what runs is left alone |
| Scheduler.DaemonScheduler.constructor | src/nuself/daemon/scheduler.py:82-119 | a new scheduler is in the initial state of the state machine |
| Scheduler.DaemonScheduler.Create | src/nuself/daemon/scheduler.py:82-119 | construction succeeds exactly with some handler, positive concurrency and positive capacity |
| Scheduler.DaemonScheduler.Start | src/nuself/daemon/scheduler.py:121-137 | takes the start step, and is refused exactly while stopping or stopped |
| Scheduler.DaemonScheduler.Submit | src/nuself/daemon/scheduler.py:139-178 | takes the submit step, which `SubmitMeans` and `SubmitAnswers` describe by fields: errors in the order of the source, coalescing on the identity, admission below capacity |
| Scheduler.DaemonScheduler.NextRunnable | src/nuself/daemon/scheduler.py:246-264 | returns the least eligible task, and none only if there is none or all slots are taken |
| Scheduler.DaemonScheduler.WaitTimeout | src/nuself/daemon/scheduler.py:266-277 | returns a non-negative wait whose end is the wake time that `WaitIsExact` is about |
| Scheduler.DaemonScheduler.RemovePending | src/nuself/daemon/scheduler.py:237-237 | removes the chosen task and keeps the order of the others |
| Scheduler.DaemonScheduler.DispatchStep | src/nuself/daemon/scheduler.py:228-244 | one turn of the dispatch loop is a dispatch, an exit or a sleep step |
| Scheduler.DaemonScheduler.Complete | src/nuself/daemon/scheduler.py:334-364 | takes the complete step, which `CompleteMeans` describes by fields: frees the resource, and re-admits a periodic task with its own identity while running |
| Scheduler.DaemonScheduler.Resolve | src/nuself/daemon/scheduler.py:365-368 | settles the future of the task, which was not settled before, with the outcome of its run (`ResolveMeans`) |
| Scheduler.DaemonScheduler.CancelAllPending | src/nuself/daemon/scheduler.py:210-215 | cancels every pending future and forgets the pending identities |
| Scheduler.DaemonScheduler.BeginShutdown | src/nuself/daemon/scheduler.py:203-216 | takes the begin-shutdown step; a negative timeout changes nothing |
| Scheduler.DaemonScheduler.EndShutdown | src/nuself/daemon/scheduler.py:217-226 | ends in the stopped state exactly when the dispatcher has exited or never started; otherwise the deadline passes and nothing changes |
| MemoryGraph.BuildAdjacency | src/nuself/memory/repository.py:848-863 | the loop builds the adjacency of the edge list |
| MemoryGraph.AdjacencyHoldsArcs | src/nuself/memory/repository.py:848-863 | a neighbour is listed exactly for each edge that can be followed, reversed where the traversal says so |
| MemoryGraph.WithinIffWalk | src/nuself/memory/repository.py:328-339 | being at distance at most k is the same as having a walk of at most k edges |
| MemoryGraph.WalkVisits | src/nuself/memory/repository.py:347-367 | an undirected walk is a sequence of ids of which each two neighbours are the ends of an edge, in either direction |
| MemoryGraph.FindPath | src/nuself/memory/repository.py:347-367 | returns a walk of fewest edges, and the empty list exactly when the ends are equal or unconnected |
| MemoryGraph.EnqueueNeighbours | src/nuself/memory/repository.py:363-366 | every neighbour of the node at hand becomes visited, and the queue keeps only shortest walks of the current and the next level |
| MemoryGraph.ExpandLevel | src/nuself/memory/repository.py:328-339 | one level reaches exactly the unvisited neighbours and adds exactly the ids of the edges leaving the frontier, each once |
| MemoryGraph.NodesInOrder | src/nuself/memory/repository.py:341-345 | the existing nodes among a set of ids, in ascending order, each once |
| MemoryGraph.MatchingIsFilter | src/nuself/memory/repository.py:311-316 | the matched nodes are exactly the nodes that match |
| MemoryGraph.MatchingKeepsOrder | src/nuself/memory/repository.py:311-316 | the matched nodes come in the order in which they are listed |
| MemoryGraph.LastNodeCounts | src/nuself/memory/repository.py:311-345 | of several nodes with one id the last one listed is the one that is found |
| MemoryGraph.SearchGraph | src/nuself/memory/repository.py:302-345 | matched nodes first, then exactly the other existing nodes within the depth, as listed, counting distance through ids without a node; edge ids are exactly those with an end strictly inside the depth; no edge at depth 0 |
| MemoryGraph.ReachableIsLeastClosed | src/nuself/memory/repository.py:379-417 | reachability is the least set with the start that is closed under the relation |
| MemoryGraph.ReachedByAChain | src/nuself/memory/repository.py:392-417 | an id is reached exactly if a chain of ids leads to it from the start, each step along an edge of exactly that relation, from source to target, or from target to source if the relation is symmetric |
| MemoryGraph.EdgesByChains | src/nuself/memory/repository.py:392-417 | the edges left on the way are exactly those of the relation whose source is reached or, for a symmetric relation, whose target is |
| MemoryGraph.TransitiveClosureFrom | src/nuself/memory/repository.py:379-417 | returns the existing nodes among the ids that a chain of edges of the relation leads to from the start, forwards, or backwards too if the relation is symmetric, as listed and in order; and each id of an edge of the relation whose source (if symmetric: or target) is reached, exactly once; it ends on cyclic graphs |
| LogStore.GatherShifted | src/nuself/log/store.py:663-669 | a rotation, whole or stopped anywhere, keeps the order of everything but the file it dropped |
| LogStore.ShiftKeepsValid | src/nuself/log/store.py:663-669 | so it keeps the files a recent part of everything appended, and every file within the bound |
| LogStore.ComponentLogPaths | src/nuself/log/store.py:708-717 | all backups in descending order, then the active path |
| LogStore.ComponentLog.constructor | src/nuself/log/store.py:475-486 | a log with no file holds nothing |
| LogStore.ComponentLog.RotateIfNeeded | src/nuself/log/store.py:651-669 | rotates exactly when the active file is not empty and the line does not fit (by lengths in `FittingWriteKeepsAll` and `FullWriteStartsAFile`); a failing unlink changes nothing, a failing rename of slot k leaves the slots up to k in place and all others moved, files and contents alike |
| LogStore.ComponentLog.RenameUp | src/nuself/log/store.py:665-669 | one rename moves the boundary between moved and unmoved slots down by one |
| LogStore.ComponentLog.WriteBytes | src/nuself/log/store.py:532-538 | through any short writes the file gains a prefix of the line; the whole line unless some write fails or makes no progress |
| LogStore.ComponentLog.WriteOrRollBack | src/nuself/log/store.py:485-502 | "persisted" means the whole line and a sync, "not persisted" means no byte of it, "uncertain" only if the rollback failed |
| LogStore.ComponentLog.AppendEncodedLine | src/nuself/log/store.py:475-523 | the same for the active file, the log's history and the other files, also when the active file cannot be created or opened; it raises unless the line was persisted and the file closed, and does not raise when nothing fails |
| LogStore.ComponentLog.WriteEvent | src/nuself/log/store.py:365-390 | without an active file, with an empty one or with a line that fits, no other slot changes and nothing is given up; with a nonempty one and a line that does not fit, a write where nothing fails leaves exactly the line in slot 0; whatever fails in the rotation, the files, oldest first, then hold what they held and the piece that was left of the line, the whole line if it is reported persisted and nothing if not persisted; only a rotation that got past its first step gives something up, the oldest backup and nothing else; the books of appended and persisted lines agree |
| LogStore.RotationLosesTheOldest | src/nuself/log/store.py:661-669 | a rotation, whole or stopped anywhere, gives up the oldest backup and no other contents |
| LogStore.WriteLosesOnlyTheOldest | src/nuself/log/store.py:365-390 | the same for one write with its rotation: old contents but the oldest backup, then the new piece |
| LogStore.FittingWriteKeepsAll | src/nuself/log/store.py:661-661 | while the active file is missing or empty, or its length and that of the line are within `max_bytes`, a write changes no other slot and loses nothing |
| LogStore.FullWriteStartsAFile | src/nuself/log/store.py:661-669 | when they are not, a write where nothing fails moves every file up by one and leaves the written piece alone in slot 0 |
| LogStore.FaultyWriteStops | src/nuself/log/store.py:661-669 | slot by slot, what a failing unlink or a failing rename leaves in place and what it moved |
| LogStore.NothingLostWhileItFits | src/nuself/log/store.py:651-669 | over every run of writes whose lines fit `max_bytes` together with what the active file holds, nothing is ever given up |
| LogStore.KeptThroughRotations | src/nuself/log/store.py:651-669 | over every run of writes, whatever was written from some write on can be read back complete and in order as long as no more than `backup_count` rotations followed it |
| LogStore.ComponentLog.ReadBack | src/nuself/log/reader.py:31-37 | returns all that the files hold, oldest first: whole chunks, a suffix of all that was left behind, and of the persisted lines unless some append ended uncertain |
| LogStore.ReadAllIsGather | src/nuself/log/store.py:708-717 | path order is append order |
| LogStore.FilesAreLines | src/nuself/log/store.py:661-669 | files end at line ends, and while no rotation failed each is within `max_bytes` or a single line |
| LogCursor.CompleteLength | src/nuself/log/reader.py:336-340 | the boundary is after the last newline, and 0 without one |
| LogCursor.CompleteAfterLines | src/nuself/log/reader.py:311-340 | complete parts of consecutive reads add up to the complete part of the whole |
| LogCursor.InteractiveLogCursor.constructor | src/nuself/log/reader.py:216-228 | a new cursor stands at the end of the active file and remembers its identity |
| LogCursor.InteractiveLogCursor.ReadComponent | src/nuself/log/reader.py:253-292 | one poll: rest of the file it was reading wherever that has moved, then the active file; the active file may have grown since it was looked at |
| LogCursor.InteractiveLogCursor.ReadLogPath | src/nuself/log/reader.py:311-333 | the longest run of whole lines that starts at the offset; nothing when the offset is beyond the end of the file |
| LogCursor.InteractiveLogCursor.FindLogWithIdentity | src/nuself/log/reader.py:295-308 | the oldest backup with that identity, and none only if no backup has it |
| LogCursor.PollReadsOn | src/nuself/log/reader.py:253-292 | a poll returns exactly the complete lines behind the cursor's position and moves to their end, across a rotation too |
| LogCursor.PollAcrossReadsOn | src/nuself/log/reader.py:253-292 | a poll that a rotation crosses leaves the reader in the rotated file, at the right place, if what it returned is part of what was to be read next |
| LogCursor.StepKeepsInv | src/nuself/log/reader.py:253-292 | appends, rollbacks of unread bytes, rotations, partial rotations, creations of the next file and polls, also polls that a rotation crosses, keep the cursor at its place in the log's history |
| LogCursor.PollsReturnExactlyTheCompleteLines | src/nuself/log/reader.py:216-292 | over every run, what a reader has returned is always an initial part of the complete lines written since its creation: in order, none twice, no partial line; after each poll that no rotation crossed it is all of them |
| LogCursorLimits.WholeLinesIffStartedAtALine | src/nuself/log/reader.py:216-228 | once something was returned, the reader has returned exactly the lines completed since its creation if and only if it started at a line boundary |
| LogCursorLimits.StartedInsideALine | src/nuself/log/reader.py:216-228 | a reader started while a line is half written returns its second half |
| LogCursorLimits.StaysRightIff | src/nuself/log/reader.py:253-292 | a reader that returned some lines and then those of the active file from an offset on makes up the lines of a text, however the file grows, exactly if the text is those lines and the file from that offset |
| LogCursorLimits.RightForEver | src/nuself/log/reader.py:253-292 | being right for the next poll, whatever is appended, is being right after every later poll |
| LogCursorLimits.CutBehindTheReader | src/nuself/log/reader.py:282-288 | the file was cut behind the cursor and grew since: from this poll on the reader returns what was appended since, whatever is appended later, if and only if the poll starts over with a file that was emptied |
| LogCursorLimits.CutAndRegrown | src/nuself/log/store.py:569-589 | a returned line is rolled back and a longer one appended: the poll returns the end of that line only |
| LogCursorLimits.CutAndTornLater | src/nuself/log/store.py:569-589 | the same with the poll before the end of the longer line: that line is torn by the next poll |
| LogCursorLimits.CutAndReadAgain | src/nuself/log/reader.py:282-288 | a rollback behind the cursor makes the poll return an earlier line again |
| LogCursorLimits.FilesBetweenAreSkipped | src/nuself/log/reader.py:269-289 | after any number of rotations a poll returns the rest of the reader's file and the active file; it is right from then on if and only if that rest ended at a line end and all files in between are empty |
| LogCursorLimits.DroppedFileIsSkipped | src/nuself/log/reader.py:269-289 | the reader's file was dropped: the poll returns the active file; it is right from then on if and only if nothing was unread and all files since are empty |
| LogCursorLimits.ActiveFileHasOldIdentity | src/nuself/log/reader.py:269-288 | the dropped file's identity was given to the active file: the reader is right from then on if and only if nothing was unread or in between, and the active file is shorter than the offset or the offset is 0 |
| LogCursorLimits.BackupHasOldIdentity | src/nuself/log/reader.py:269-289 | the identity was given to a file that is now a backup: right from then on if and only if nothing was unread or skipped and that file is read whole |
| LogCursorLimits.OldIdentityTearsALine | src/nuself/log/reader.py:269-288 | a reader that had read everything takes the new active file for its own and returns the end of a line |
| LogCursorLimits.RotationBeforeFirstLook | src/nuself/log/reader.py:259-289 | a reader without an identity returns the active file; it is right from then on if and only if all backups are empty |
| LogCursorLimits.TwoRotationsLoseALine | src/nuself/log/reader.py:269-289 | two rotations between two polls lose the line in the middle file |
| LogCursorLimits.OneBackupLosesTheRest | src/nuself/log/store.py:663-669 | with one backup, the second rotation drops a file that was not read to its end |
| LogCursorLimits.FailedRotationLosesTheRest | src/nuself/log/store.py:663-669 | a rotation that removes the oldest backup and then fails does the same |
| LogCursorLimits.FirstFileIsLost | src/nuself/log/reader.py:224-227 | a log created and rotated before the reader's first look loses its first file |
| LogCursorLimits.RotationInsideALine | src/nuself/log/reader.py:269-289 | after one rotation the reader is right from then on if and only if what was left of its file ended at a line end |
| LogCursorLimits.LineTornByRotation | src/nuself/log/reader.py:311-333 | a line torn by a rotation: its second half, written after a poll that found nothing wrong, comes out as a line |
| LogCursorLimits.PollInTheGap | src/nuself/log/reader.py:261-266 | a poll between the rename of the active file and the creation of the next forgets the renamed one; from the next poll on the reader is right if and only if nothing of that was unread |
| LogCursorLimits.LineLostInTheGap | src/nuself/log/reader.py:261-266 | an unread line lost that way |
| LogCursorLimits.RotationInsideAPoll | src/nuself/log/reader.py:261-292 | a rotation between the two looks of a poll: it returns the new file from the old offset on; with the next poll, and from then on, that is right if and only if these bytes are what was to be read next; for a reader that had read everything: if and only if the new file has no complete line beyond the old offset |
| LogCursorLimits.TornByTheRace | src/nuself/log/reader.py:261-292 | such a poll returns the end of a line |
| LogIdentities.SeenEvents.Reconcile | src/nuself/log/reader.py:142-173 | returns the events whose key is new, reports those that differ from the event on record for their key, and remembers both |
| LogIdentities.EachKeyOnce | src/nuself/log/reader.py:142-173 | exactly the unseen keys come out, each once |
| LogIdentities.SameKeyIff | src/nuself/log/reader.py:151-161 | two events share a key exactly if they have the same id, or neither has one and their records are equal |
| LogIdentities.FirstOnesComeOut | src/nuself/log/reader.py:151-173 | what comes out are exactly the first events of the keys not seen before, in the order in which they came in |
| LogIdentities.FirstOnesStand | src/nuself/log/reader.py:163-170 | the event that stands for a key is the one on record, else the first that came with it |
| LogIdentities.DifferingOnesAreReported | src/nuself/log/reader.py:167-173 | reported are exactly the events that differ from the one standing for their key, in order |
| LogIdentities.BatchesDoNotMatter | src/nuself/log/reader.py:142-173 | cutting a stream of events into calls anywhere changes nothing that is returned or reported |
| Delivery.DeliveryStore.Request | src/nuself/delivery/store.py:45-53 | an existing record is returned as it is, otherwise a pending one without plan is stored; an empty item id is refused |
| Delivery.PreparedMeans | src/nuself/delivery/store.py:55-63 | a record without plan gets the given adapters, in order, each pending without attempts; one with a plan keeps everything |
| Delivery.RecoveredMeans | src/nuself/delivery/store.py:65-77 | exactly the adapters that were in delivery are uncertain, with their attempts and times; everything else is as it was |
| Delivery.BegunMeans | src/nuself/delivery/store.py:79-89 | the adapter, if pending, is in delivery with one more attempt; all others are as they were |
| Delivery.FinishedMeans | src/nuself/delivery/store.py:91-102 | the adapter is sent, with the time, or failed, without one, and keeps its attempts; all others are as they were |
| Delivery.FinalizedMeans | src/nuself/delivery/store.py:104-115 | delivered if all results are sent, undelivered if all are terminal and some is not sent, pending otherwise; the results stay |
| Delivery.DeliveryStore.Prepare | src/nuself/delivery/store.py:55-63 | fixes the plan once: a record with a plan is left alone |
| Delivery.DeliveryStore.Recover | src/nuself/delivery/store.py:65-77 | adapters caught in delivery become uncertain, nothing else changes (`RecoveredMeans`) |
| Delivery.DeliveryStore.Begin | src/nuself/delivery/store.py:79-89 | only a pending adapter starts, with one more attempt |
| Delivery.DeliveryStore.FinishAdapter | src/nuself/delivery/store.py:91-102 | the adapter becomes sent or failed, with a sending time exactly when sent |
| Delivery.DeliveryStore.Finalize | src/nuself/delivery/store.py:104-115 | the status follows from the results |
| Delivery.CompletedStatus | src/nuself/delivery/loop.py:36-69 | a completed delivery with at least one adapter ends delivered if all adapters are sent and undelivered otherwise; with none it stays pending; no adapter is left open |
| Delivery.CompletedMeans | src/nuself/delivery/loop.py:36-69 | by fields, for every adapter: one that was pending is sent exactly if the item was there, the adapter known and its `send` answered true, else failed, with one more attempt; one that a crash had left in delivery is uncertain with the same attempts; a terminal one is as it was |
| Delivery.CallsMeans | src/nuself/delivery/loop.py:54-68 | `send` is called exactly for the known adapters of the plan that were pending, if there is an item, in the order of the plan |
| Delivery.DeliveryLoop.Deliver | src/nuself/delivery/loop.py:36-69 | settles every pending adapter by what its `send` said, touches no other adapter or record, calls `send` once for each pending adapter it knows and in order, and leaves a closed record alone; when a `send` raises, its adapter is left in delivery, those before it are settled and called, those after it untouched |
| Delivery.DeliveryLoop.DriveAdapter | src/nuself/delivery/loop.py:54-68 | one adapter: skipped unless pending, failed without a call when unknown or the item is gone |
| Delivery.DeliveryLoop.RunOnce | src/nuself/delivery/loop.py:27-34 | every record pending at the start is delivered, every other one untouched, and the count is the number of records now delivered; when a `send` raises, that record is left as `deliver` leaves it, every other one is delivered or untouched, and the raising call is the last |
| DeliveryProtocol.StepKeepsInv | src/nuself/delivery/store.py:55-115 | every step of every worker, and a crash at any point, keeps the books: at most one attempt, at most one call, sent only if acknowledged |
| DeliveryProtocol.WorkerCanStep | src/nuself/delivery/loop.py:36-69 | a worker holding the lock can always go on |
| DeliveryProtocol.StepEvolves | src/nuself/delivery/store.py:55-115 | one step takes an adapter from pending to delivering with one more attempt, or from delivering to a terminal status, and nowhere else; it plans a record once, with every adapter pending, and never touches a closed record; so statuses only move forward |
| DeliveryProtocol.RunKeepsInv | src/nuself/delivery/loop.py:36-69 | both hold over every interleaving on all records |
| DeliveryProtocol.SentAtMostOnce | src/nuself/delivery/loop.py:36-69 | in every reachable state `send` was called at most once per record and adapter and no adapter has more than one attempt; a closed record has only terminal results and is delivered exactly when all are sent |
| DeliveryProtocol.StepKeepsCauses | src/nuself/delivery/store.py:55-115 | every step keeps, for each adapter, why it has its status: refused by `send`, not callable, or cut off with its worker |
| DeliveryProtocol.FailedOnlyIfFinished | src/nuself/delivery/loop.py:36-69 | in every reachable state a failed adapter was finished by its worker, after its one `send` answered false or because item or adapter was missing and `send` not called; one whose worker was lost after beginning it is in delivery or uncertain, never failed or sent; and only such a one is uncertain |
| DeliveryProtocol.OnlyForward | src/nuself/delivery/model.py:19-77 | along every run from a reachable state no status moves back and a closed record never changes |
| Conversation.FindTurnFinds | src/nuself/conversation/store.py:269-280 | the search finds a pending turn with the id if there is one |
| Conversation.BeginTurnAttempt | src/nuself/conversation/store.py:261-284 | resumes, refuses or records the turn, by id, digest and `continue_pending_turn` |
| Conversation.StartKeepsValid | src/nuself/conversation/store.py:64-83 | persisting a pending turn keeps ids unique and the message index rule |
| Conversation.CommitKeepsValid | src/nuself/conversation/store.py:84-95 | so does the commit |
| Conversation.CallbackSeesTheRecord | src/nuself/conversation/store.py:65-84 | whenever the callback runs its state has the stored id, summary, messages, indexes and archive mark, or those of a blank conversation; its pending turns are the stored ones with this turn at the end exactly if it was given, was not pending and has no reply; a turn without reply has that state on record, otherwise nothing is written; no other record is touched |
| Conversation.WhenAnUpdateIsRefused | src/nuself/conversation/store.py:65-80 | exactly when an update raises before the callback, and which error: an unreadable record, then a turn pending with other input, then one pending with the same input that may not be continued |
| Conversation.CommitStoresTheResult | src/nuself/conversation/store.py:84-95 | exactly when a commit is refused, and which error; what it stores is the result of the callback field by field, with its own turn taken out of its place among the pending ones; no other record is touched |
| Conversation.ConversationStore.Update | src/nuself/conversation/store.py:46-100 | the two phases, described by fields in `CallbackSeesTheRecord`, `WhenAnUpdateIsRefused` and `CommitStoresTheResult`, around any callback and any change made meanwhile: an error before the callback changes nothing, a raising callback leaves the pending turn, the commit insists on the id and on the record it started from |
| Conversation.ConversationStore.Rename | src/nuself/conversation/store.py:156-173 | moves the record to the new id, or fails and changes nothing |
| Conversation.ConversationStore.Branch | src/nuself/conversation/store.py:175-222 | stores and returns the branch, or fails and changes nothing |
| Conversation.ConversationStore.SetArchived | src/nuself/conversation/store.py:224-250 | sets the mark if it is not set already, or fails and changes nothing |
| Conversation.RenameMoves | src/nuself/conversation/store.py:156-173 | exactly when a rename raises, and which error; the record moves with all its fields but the id, and no other is touched |
| Conversation.BranchCopies | src/nuself/conversation/store.py:175-222 | exactly when a branch raises, and which error; the branch has the summary, the start and the first messages of its source up to the index, all of them without one, no pending turn and no archive mark, and nothing else changes |
| Conversation.ArchiveMarks | src/nuself/conversation/store.py:224-250 | exactly when archiving or restoring raises, and which error; only the mark changes |
| Conversation.OperationsUndone | src/nuself/conversation/store.py:156-258 | renaming back, restoring and deleting a branch give back the whole collection |
| Conversation.BranchOfBranch | src/nuself/conversation/store.py:175-222 | branching off a branch gives what branching off the source at the same place gives |
| Conversation.UndisturbedUpdateCommits | src/nuself/conversation/store.py:84-95 | an undisturbed update commits the callback's state, drops its own pending turn and no other, and leaves other conversations alone |
| Conversation.PendingTurnGuard | src/nuself/conversation/store.py:70-83 | while a turn is pending an update for it runs if and only if its reply is already there, or the digest is the same and continuation was asked for; otherwise it raises the matching error; either way the stored collection is unchanged |
| Conversation.RepliedPendingTurnRunsAgain | src/nuself/conversation/store.py:70-73 | an input where a pending turn runs again without being asked to continue |
| Conversation.StartedTurnIsPending | src/nuself/conversation/store.py:70-83 | once the first phase ended the turn is pending, and the record can be read again if and only if the turn id is not empty |
| Conversation.EmptyTurnIdLocksTheConversation | src/nuself/conversation/model.py:41-54 | after an update with an empty turn id that did not commit, update, rename, branch and archive all fail to read the record; only deleting it is left |
| Conversation.ApplyKeepsValid | src/nuself/conversation/model.py:110-157 | every interleaved step (start, commit, rename, branch, archive, delete, save) keeps unique pending ids and next index = start + count |
| Conversation.QuietStepKeepsWaiting | src/nuself/conversation/store.py:58-100 | a step that neither continues the turn nor removes the record keeps it pending and does not run it |
| Conversation.NeverSilentlyRerun | src/nuself/conversation/store.py:58-100 | over every interleaving of such steps, under whatever id it is renamed to, a turn whose callback failed stays pending and never runs |
| ConversationLocks.LockedMany | src/nuself/conversation/store.py:114-122 | the locks to take: exactly the given ids, each once, ascending |
| ConversationLocks.ScriptAt | src/nuself/conversation/store.py:46-258 | action by action: an operation takes the locks of its conversations in order, runs its transactions, one or for an update one per commit, start and callback transaction, and gives the locks back |
| ConversationLocks.HeldThroughout | src/nuself/conversation/store.py:63-122 | from the beginning of its first transaction to the end of its last an operation holds the locks of all its conversations, across the callback of an update too |
| ConversationLocks.ScriptsAreDisciplined | src/nuself/conversation/store.py:46-258 | every operation takes each lock above all those it holds and gives all back |
| ConversationLocks.RunKeepsInv | src/nuself/conversation/store.py:102-122 | over every run no lock has two holders and every process stays disciplined |
| ConversationLocks.WritersAreAlone | src/nuself/conversation/store.py:63-122 | in every reachable state a process about to begin a transaction holds the locks of all its conversations, and no other process holds one of them or is about to write to one of them |
| ConversationLocks.NoDeadlock | src/nuself/conversation/store.py:63-122 | in every reachable state with an unfinished process some unfinished process can step |
| Activity.PublishAccounted | src/nuself/daemon/activity.py:63-78 | an offered event keeps the account, whatever the bound pushes out |
| Activity.ReadAccounted | src/nuself/daemon/activity.py:99-110 | a read that reports all drops and takes the oldest events keeps the account |
| Activity.NothingUnaccounted | src/nuself/daemon/activity.py:63-111 | published = delivered + reported drops + unreported drops + queued; without drops the delivered events and the queue are the published events in order |
| Activity.OfferKeepsTheNewest | src/nuself/daemon/activity.py:70-75 | an event joins the end of the queue of a subscription to its turn, and of no other; exactly one event, the oldest, goes for it and is counted, and only if the queue was full |
| Activity.NoMoreIsLost | src/nuself/daemon/activity.py:63-78 | after any number of events between two reads a queue holds the newest of its turn, as many as fit, and counts exactly the others |
| Activity.ActivityBroker.Expire | src/nuself/daemon/activity.py:117-125 | forgets exactly the subscriptions unread for longer than the time to live, and leaves the others as they are |
| Activity.ActivityBroker.Open | src/nuself/daemon/activity.py:52-61 | adds an empty subscription after expiry; an empty turn id is refused |
| Activity.ActivityBroker.Offer | src/nuself/daemon/activity.py:70-75 | the queue keeps its newest events within the bound and counts the rest |
| Activity.ActivityBroker.Publish | src/nuself/daemon/activity.py:63-78 | offers the event to every live subscription of its turn and no other, keeping every account |
| Activity.ActivityBroker.NextEvents | src/nuself/daemon/activity.py:80-111 | reports all drops with the oldest events up to the limit; an empty batch comes only from an empty queue without unreported drops, so it hides no gap |
| Activity.ActivityBroker.TakeOldest | src/nuself/daemon/activity.py:99-104 | takes from the front, in order, up to the limit |
| Activity.ActivityBroker.Close | src/nuself/daemon/activity.py:113-115 | removes one subscription, if it is there |
| Transport.Find | src/nuself/daemon/transport.py:51-52 | the first newline |
| Transport.ReadSocketFrame | src/nuself/daemon/transport.py:28-67 | for every sequence of chunks and timeouts the reader's outcome is the verdict on the bytes received and on whether a chunk ends at the newline |
| Transport.ChunkingIsIrrelevant | src/nuself/daemon/transport.py:28-67 | for a stream of at most one frame the outcome depends on the bytes alone, for any chunking and any retried timeouts; it is the frame if and only if the newline comes within the bound |
| Transport.OutcomesMean | src/nuself/daemon/transport.py:28-67 | for every sequence of chunks and timeouts: exactly when the reader reports a closed peer, an incomplete frame, a timeout, and a frame over 1 MiB |
| Transport.ExtraDataDependsOnChunking | src/nuself/daemon/transport.py:51-62 | with bytes after the newline the outcome is the first frame if and only if a chunk ends there, and the extra-data error otherwise |
| Transport.TwoFramesTwoOutcomes | src/nuself/daemon/transport.py:51-62 | two chunkings of the same bytes with different outcomes |
| Transport.WriteStreamFrame | src/nuself/daemon/transport.py:70-79 | through any partial writes exactly the frame is written, then flushed; failure means that a write made no progress |
| Transport.WrittenFrameIsRead | src/nuself/daemon/transport.py:28-79 | what the writer sent in any pieces the reader recovers from any chunks |
| RelatedMatches.RankSorts | src/nuself/memory/service.py:415-416 | the ranking is a permutation sorted by score descending, then date ascending, then id ascending |
| RelatedMatches.RankedMeans | src/nuself/memory/service.py:415-416 | ranked means descending scores, equal scores by ascending date, equal dates by ascending id |
| Wrappers.SliceIsPrefix | src/nuself/memory/service.py:383-412 | cutting at the limit keeps the first `limit` entries, or all but the last ones for a negative limit |
| RelatedMatches.OutgoingRefs | src/nuself/memory/service.py:419-426 | exactly the derivations along an entry's own fields |
| RelatedMatches.IncomingRefs | src/nuself/memory/service.py:429-439 | exactly the derivations along other entries' fields, under the inverse name |
| RelatedMatches.TransitiveRefs | src/nuself/memory/service.py:442-459 | exactly the derivations along closures of transitive relations, without those already direct |
| RelatedMatches.AddRelatedMatch | src/nuself/memory/service.py:468-496 | one derivation at a time keeps, for each id, the best score and all reasons of the derivations so far |
| RelatedMatches.CollectRelated | src/nuself/memory/service.py:386-409 | the fold covers exactly the derivations from the direct matches |
| RelatedMatches.ExpandRelatedMatches | src/nuself/memory/service.py:375-412 | ranked direct matches come first, then the related ones with the maximum of max(score - penalty - extra, 0.1); at most `limit`, all distinct |
| RelatedMatches.RelatedAreThoseWithAReason | src/nuself/memory/service.py:386-409 | an entry is in the related part exactly if it is eligible, no direct match, and some direct match names it along a relation, is named by it, or reaches it through the closure of a transitive relation |
| RelatedMatches.RelatedIsExplained | src/nuself/memory/service.py:462-496 | the reasons of a related entry are exactly those that hold, as relation name and match id; its score is the best score of such a match less the penalty (0.5 or 0.75, and 0.25 more through a closure), and never below 0.1 |
| RelatedMatches.RelatedStaysBelow | src/nuself/memory/service.py:462-481 | a related score is at least 0.5 below the score of some direct match, or the least score 0.1; so it is below a direct score whenever all of these are above 0.1 |
| RelatedMatches.LastEntryIsFound | src/nuself/memory/service.py:386-386 | of several eligible entries with one id the last one is added |
| RelatedMatches.RankingIsDetermined | src/nuself/memory/service.py:411-412 | two rankings of the same entries and scores agree position by position |
| RelatedMatches.ExpansionIsDetermined | src/nuself/memory/service.py:375-412 | whatever the order of the derivations, the related entries, scores, positions and reasons are the same |
| MigrationV4.UpgradeUndone | scripts/database_migrations/v003_to_v004.py:84-175 | for every upgradable v3 database the downgrade goes through and gives back every row's columns and JSON values, losing exactly the columns that are NULL in every row |
| MigrationV4.RecordHoldsTheRow | scripts/database_migrations/v003_to_v004.py:84-121 | the upgrade writes one record per row of a known table, with a key for each column that is not NULL and the value that its cell decodes to |
| MigrationV4.RowHoldsTheRecord | scripts/database_migrations/v003_to_v004.py:124-173 | the downgrade writes one row per record, whose cells are the encoded values of the keys but `id`, in a table with a column exactly for each such key of the collection |
| MigrationV4.DowngradeUpgradable | scripts/database_migrations/v003_to_v004.py:97-100 | what was downgraded can be upgraded again if and only if no record id is empty |
| MigrationV4.DowngradeUndone | scripts/database_migrations/v003_to_v004.py:84-175 | downgrade then upgrade is the identity on the records if and only if they are confined to the v3 collections, have no "id" key and no empty record id |
| MigrationV4.WorkspaceKept | scripts/database_migrations/v003_to_v004.py:44-77 | the upgrade keeps every workspace entry: the same JSON object, the same times, the same keys |
| MigrationV4.DowngradableIffNoClash | scripts/database_migrations/v003_to_v004.py:132-173 | records can be downgraded if and only if their payloads are objects and no two different keys of one collection, `id` included, are equal up to ASCII case |
| MigrationV4.FoldIgnoresCase | scripts/database_migrations/v003_to_v004.py:152-157 | two names are one column exactly if they differ in the case of ASCII letters at most |
| MigrationV4.CaseClashHasNoDowngrade | scripts/database_migrations/v003_to_v004.py:152-157 | any two such keys, in one record or in two, make the downgrade fail |
| MigrationV4.ClashingRecords | scripts/database_migrations/v003_to_v004.py:152-157 | records with `Key` and `key`, and with `ID`, that v4 holds and v3 cannot |
| MigrationV4.EmptyIdIsNotUpgradedAgain | scripts/database_migrations/v003_to_v004.py:97-100 | a record with an empty id is downgraded but cannot be upgraded again |
| MigrationV4.Database.UpgradeWorkspace | scripts/database_migrations/v003_to_v004.py:44-77 | every workspace row is kept with its value re-encoded; fails exactly on a row with a cell that is no text or a value that is no JSON object |
| MigrationV4.Database.UpgradeTable | scripts/database_migrations/v003_to_v004.py:94-121 | one column table becomes records, and fails exactly when the table is missing or has an id or cell that cannot be read |
| MigrationV4.Database.Upgrade | scripts/database_migrations/v003_to_v004.py:84-121 | the loops compute the upgrade that `UpgradeUndone` and `WorkspaceKept` are about, and fail exactly when it is not defined |
| MigrationV4.Database.ReadPart | scripts/database_migrations/v003_to_v004.py:137-151 | the payloads of one collection and the union of their keys |
| MigrationV4.Database.DowngradeCollection | scripts/database_migrations/v003_to_v004.py:133-173 | one collection becomes a column table, or fails on an unreadable payload or a column clash |
| MigrationV4.Database.Downgrade | scripts/database_migrations/v003_to_v004.py:124-175 | the loops compute the downgrade of the lemmas; a workspace that is not empty is refused |
| MigrationV6.ReplaceUndone | scripts/database_migrations/v005_to_v006.py:21-50 | a prefix replaced there and back gives the string again if and only if it did not have the new prefix |
| MigrationV6.WalkUndone | scripts/database_migrations/v005_to_v006.py:21-50 | walking there and back gives the JSON value again, at every depth, if and only if it uses none of the new names |
| MigrationV6.WalkRewrites | scripts/database_migrations/v005_to_v006.py:21-50 | a walk rewrites the kind in `source_type`, the prefix of `source_ref` and of each of the `source_refs`, at every depth, from threads to conversations in an upgrade and back in a downgrade, and nothing else |
| MigrationV6.WalkLeavesNoOldName | scripts/database_migrations/v005_to_v006.py:21-50 | after a walk no old name is left where it looked, and a second walk changes nothing |
| MigrationV6.RenameUndone | scripts/database_migrations/v005_to_v006.py:11-18 | a key renamed there and back gives the record again if and only if the new key was not there |
| MigrationV6.IdsAreRenamed | scripts/database_migrations/v005_to_v006.py:53-71 | the records of conversations, curator cursors and plans, traces and reflections move the value of the old id key to the new one, fail on both keys or on a payload that is no object, and keep everything else |
| MigrationV6.LinksAreSwapped | scripts/database_migrations/v005_to_v006.py:74-83 | a notification swaps the prefix of its link and keeps everything else |
| MigrationV6.OthersAreWalkedOrKept | scripts/database_migrations/v005_to_v006.py:86-177 | the memory collections are walked, and collections that no rule names stay as they are |
| MigrationV6.PayloadUndone | scripts/database_migrations/v005_to_v006.py:53-83 | the record transforms undo each other if and only if the payload uses none of the new names; the way back never fails |
| MigrationV6.MigrationUndone | scripts/database_migrations/v005_to_v006.py:86-185 | a migration that went through can be migrated back, and gives the same records again if and only if none used a new name |
| MigrationV6.RecordsMove | scripts/database_migrations/v005_to_v006.py:86-177 | an upgrade files the chat threads as conversations and a downgrade does the reverse; every other record stays in its collection; both need the destination to be empty |
| MigrationV6.CleanIsMigratable | scripts/database_migrations/v005_to_v006.py:86-177 | records that use none of the new names do not make the migration fail on names, shapes or the destination collection |
| MigrationV6.Database.TransformCollection | scripts/database_migrations/v005_to_v006.py:86-177 | one collection is rewritten in place, or the first bad record raises |
| MigrationV6.Database.TransformRecords | scripts/database_migrations/v005_to_v006.py:86-177 | the loops compute the migration of the lemmas, and fail exactly when it is not defined |
| MigrationV6.Database.Migrate | scripts/database_migrations/v005_to_v006.py:180-185 | a failing migration leaves the database as it was |

## Left out

- LogCursor.PollsReturnExactlyTheCompleteLines: its runs have at most one rotation between two polls, made at a line end and after the reader had seen an active file; a poll that a rotation crosses must return bytes that were to be read next; a file not read to its end is not dropped, and no poll looks while there is no active file unless all was read; rollbacks cut only unread bytes. `LogCursorLimits` shows for each condition that the code breaks the promise without it, and exactly when. Files that exist at the same time have distinct identities, as the file system guarantees.
- LogCursor.InteractiveLogCursor.ReadComponent: the search among the backups is one look, made together with opening the active file; renames during the search itself, and a disappearing active file (the poll raises and changes nothing) as a step of a run, are left out.
- LogStore.ComponentLog.WriteEvent: one fixed retention policy per log and no backup beyond its count, as the rotation assumes; creation modes, directory syncs, the cross-process lock and the observers called after the append are not modelled, and the append that ends uncertain is recorded with whatever prefix stayed in the file.
- LogStore.ComponentLog.ReadBack: concatenates the files; splitting into lines, parsing, corrupt-line warnings and sorting by time are left out.
- LogIdentities.SeenEvents.Reconcile: the JSON text of an event stands for the event, so keys and fingerprints are compared as values.
- Scheduler.DaemonScheduler.Submit: the blank-name checks of `DaemonTask` and the client's own cancellation of a returned future are left out; a coalesced submit returns the active task's future.
- Scheduler.DaemonScheduler.Complete: what the handler does, the runtime context and the task events it publishes are left out; a handler is any outcome with or without an error.
- Scheduler.DaemonScheduler.BeginShutdown: joining threads and executor shutdown are the gap between `BeginShutdown` and `EndShutdown`, in which any steps may happen; the deadline is a case of `EndShutdown`.
- MemoryGraph.SearchGraph: text matching is an arbitrary predicate, filters on kinds and confidence are applied by the caller, and results of edges are stated over edge ids, since the source removes duplicates by id.
- Delivery.DeliveryLoop.RunOnce: one process; concurrent workers are in `DeliveryProtocol`. The order of the listing is arbitrary, and records that cannot be decoded are not in the store.
- DeliveryProtocol.SentAtMostOnce: a raising `send` counts as a call and drops the lock like a crash; attempts to take a lock that is held are not steps.
- Conversation.ConversationStore.Update: digests are opaque values compared for equality; the callback's effect is a returned state or an exception, and other processes' transactions during the callback are one arbitrary change that keeps the collection valid; wire encoding and the commit observer are left out.
- ConversationLocks.NoDeadlock: callbacks may run transactions but take no conversation lock, which the source does not enforce; a process may die or unwind at any point and then gives back its locks.
- Activity.ActivityBroker.NextEvents: one turn of the wait loop; `Retry` stands for waiting on the condition, and other calls may come between two turns. The constructor's argument errors are preconditions.
- Transport.ReadSocketFrame: an error of the socket other than a timeout ends the read and is not modelled.
- RelatedMatches.ExpandRelatedMatches: scores are reals, so rounding of floats is not captured; the order of the reasons of one entry is left open; the transitive closure is a function given to the fold, and `MemoryGraph` has the search itself.
- MigrationV4.UpgradeUndone: JSON text is an arbitrary codec whose decoder inverts its encoder; SQL is a map of tables, with column names compared up to ASCII case as SQLite does; SQLite's limits on columns and names are left out.
- MigrationV6.CleanIsMigratable: strings in payloads are Unicode scalar text; the code re-encodes without ASCII escapes (scripts/database_migrations/v005_to_v006.py:140, 166), so a stored escape of an unpaired surrogate makes the write fail and the migration with it.
- MigrationV6.MigrationUndone: payloads are JSON values; rows are a map by collection and id, and the numbers in them are reals.
- The v6-v7 migration, the migration registry and the planner: the downgrade of v7 does not restore its input, the rest only selects steps.
- Wire codecs of the plain records, configuration, command line, terminal interface, agents, prompts and model calls: no protocol to prove.
- The field checks of the audit and warning registries, and candidate review: one branch each, with no invariant across calls.

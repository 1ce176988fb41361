# brain-sync: a verified model of its core

brain-sync mirrors remote documents into a folder tree and keeps a machine-written summary per folder.
This project models the logic that has to be right for that to work and proves properties of it:

- **Regeneration** (`Topology`, `Evaluation`, `RegenLocks`, `RegenEngine`, `RegenSoundness`,
  `RegenConsistency`, `RegenOutcomes`, `RegenRuns`, `RegenFailures`, `KnowledgeTree`, `TreeScan`): an incremental build
  over folders. Folders are evaluated by hashes over their files and their children's summaries, a
  propagation table says which outcomes make the parent dirty, and dirty folders are processed deepest
  first. The main theorems hold for every model answer, every similarity verdict and a failure
  at any of the points named in `RegenEngine.Reply`.
- **Timed queues** (`QueueTiming`, `RegenQueue`, `MinHeap`, `Scheduler`): the regeneration queue with
  debounce, cooldown, a sliding one-hour window and bounded retries, and the polling scheduler with its
  lazily cleaned heap.
- **Prompt planning** (`PromptPlanner`, `PromptBudget`, `MarkdownChunks`, `ChunkChoice`): greedy packing under a token
  budget and a recursive document splitter.
- **Source lifecycle** (`Manifests`, `SourceLeases`, `SourceInvariant`, `Lifecycle`, `Reconcile`,
  `ReconcileRows`, `SourceStore`, `LifecycleRuns`): manifests, polling rows and leases, as commands one after the other and
  as an interleaving of single transactions of many processes.
- **Journals, undo, index** (`Journal`, `JournalContents`, `PortableUndo`, `AreaIndex`, `AreaSearch`): a parser and printer with an
  idempotent merge, multi-step file writes with exact undo, and a cached search index.

`Basics` and `Strings` hold shared vocabulary. Code that changes things step by step is a class or a
method with loops (`RegenRuns.Engine`, `RegenLocks.LockTable`, `RegenQueue.RegenQueue`,
`Scheduler.Scheduler`, `SourceStore.Store`, `PortableUndo.PortableFiles`, `Journal.JournalStore`,
`AreaIndex.AreaIndex`); each of its methods is tied to a specification function, and the theorems are
lemmas about those functions.

Verify with `dafny verify dfyconfig.toml` (Dafny 4.11).

## What the outside world may do

The file tree, the clock, the model, the remote documents and the points of failure (`RegenEngine.Reply`,
`PortableUndo.Commit`) are parameters; a database call itself does not fail. SHA-256 is an arbitrary
deterministic function (`Evaluation.Sha`); it is assumed injective for the index theorem and for telling
which content changes go unnoticed. Clocks are integers in seconds that do not run backwards; the
scheduler's are reals. A database transaction or fenced section is one atomic step. The class methods run
without interruption between two steps; `LifecycleRuns` and the ownership part of `RegenLocks` let other
processes in between any two steps.

## Where the code does less than one might expect

Each of these has a lemma with a run in which it happens and one that states exactly when it does.

- A journal entry that cannot be appended after the summary was saved leaves the parent stale and unmarked
  (`RegenFailures.JournalFailureLeavesParentStale`). So do a cleanup that stops with the summary gone and a
  summary that cannot be put back; these three are all (`RegenSoundness.SpoilsExactlyWhen`), and any other
  failure leaves nothing stale (`RegenConsistency.EarlyFailuresLeaveNoStaleParent`).
- The walk-up stops after ten folders (`RegenFailures.DeepWalkUpMissesWork`); it misses work exactly when
  the tenth one propagated (`RegenConsistency.LongWalkUpIsTheWaveBatchExactlyWhen`).
- `regen_all` never starts at the root (`RegenFailures.RootIsNeverStarted`): the root is repaired exactly
  when a child's change reaches it (`RegenRuns.FullRunRepairsExactly`).
- A cleanup that stops half way keeps the folder's ownership row (`RegenFailures.StoppedCleanupKeepsOwnership`).
  So does a failure before planning or between planning and the claim, which also leaves the row unmarked
  (`RegenFailures.UnreadFolderKeepsOwnership`). These are all (`RegenConsistency.OwnershipReturnedExactlyWhen`).
- File bodies are hashed without separators, so a file cut in two can pass for a renamed one
  (`Evaluation.CutBodyLooksRenamed`, `Evaluation.SameContentExactlyWhen`). For the same reason an edit that keeps
  a file's length can go unnoticed (`Evaluation.EditCanGoUnnoticed`, `Evaluation.ChangeNoticedExactlyWhen`).
- Deleting a lock row ignores its owner (`RegenLocks.DeletionBreaksExclusion`, `RegenLocks.NamedOverRuns`).
- With a debounce above 30 seconds a retry can run inside the debounce window
  (`QueueTiming.DebounceCanBreak`, `QueueTiming.DebounceHolds`).
- The assembled prompt can exceed its budget by one token, and by no more
  (`PromptBudget.BudgetCanBeExceededByOne`, `PromptBudget.OverBudgetByAtMostOne`).
- A source that went missing before it was ever materialized cannot be revived
  (`SourceInvariant.AwaitingSourceCannotReturn`, `SourceInvariant.SyncManifestRaisesExactlyWhen`); reconcile
  then stops in the middle (`Reconcile.PassFollowsFates`).
- Reconcile can delete a row that was acquired after it looked (`LifecycleRuns.StaleRowDeletion`): deleting or
  stripping a row under its holder is the only way to break a hold (`LifecycleRuns.BackedOverRuns`).
- Remove and finalize give up their lease before they delete the registration
  (`LifecycleRuns.DeregistrationWindow`), and an update of the sync settings takes none
  (`LifecycleRuns.SettingsBringBackRegistration`): the unfenced writes are the only steps that change a
  source under somebody else's lease (`LifecycleRuns.HeldSourceOverRuns`).
- Saving sync progress can leave a polling row for a removed source (`LifecycleRuns.OrphanPollingRow`,
  `LifecycleRuns.PollingOverRuns`).
- A permission error during materialization is not undone (`PortableUndo.DeniedLeavesChanges`,
  `PortableUndo.DeniedIsCleanExactlyWhen`).

## Model

| member | source | states |
|---|---|---|
| `Topology.WalkUpChain` | src/brain_sync/regen/topology.py:129-139 | the loop collects the first entries of the leaf-to-root chain, at most the limit |
| `Topology.ComputeWaves` | src/brain_sync/regen/topology.py:142-157 | a wave plan: exactly the ancestor closure of the inputs, one depth per wave, deepest first, each wave sorted and without repetition |
| `Topology.WavePlanIsSchedule` | src/brain_sync/regen/topology.py:142-157 | flattened, the waves visit every folder of the closure once, never a parent before its child, and contain every parent |
| `Topology.ParentInLaterWave` | src/brain_sync/regen/topology.py:142-157 | a folder's parent is in a strictly later wave |
| `Topology.WavePlanUnique` | src/brain_sync/regen/topology.py:142-157 | the wave plan of a set of inputs is unique, so the processing order is reproducible |
| `Topology.OneSeedWavesAreTheChain` | src/brain_sync/regen/topology.py:160-181 | for one seed the wave order is exactly its leaf-to-root chain |
| `Topology.DecideQueueBatch` | src/brain_sync/regen/topology.py:160-181 | one distinct ready path gives the bounded walk-up, anything else a wave plan over its closure |
| `Topology.ParentOfChild` | src/brain_sync/regen/topology.py:121-126 | going down one directory and back up returns to the start, one level deeper in between |
| `KnowledgeTree.FindAllContentPaths` | src/brain_sync/brain/tree.py:41-67 | the recursive walk finds exactly the non-root directories with readable files or content directories |
| `Evaluation.ComputeContentHash` | src/brain_sync/regen/evaluation.py:73-93 | the hash over sorted child summaries and then file bodies in digest order |
| `Evaluation.CollectChildSummaries` | src/brain_sync/regen/evaluation.py:117-130 | the existing child summaries, in directory order |
| `Evaluation.ContentHashIgnoresNames` | src/brain_sync/regen/evaluation.py:73-93 | renaming or reordering files and child areas never changes the content hash |
| `Evaluation.SameContentExactlyWhen` | src/brain_sync/regen/evaluation.py:73-114 | for an injective hash, equal content hashes mean the same summaries and bodies in some order exactly when the hashed parts kept their lengths |
| `Evaluation.SplitFileKeepsHash` | src/brain_sync/regen/evaluation.py:73-93 | a file cut in two anywhere keeps the content hash when the front part is hashed first, for any bodies without carriage returns |
| `Evaluation.SplitFileLooksRenamed` | src/brain_sync/regen/evaluation.py:28-53 | the area is then evaluated as having changed its names only, or not at all if the structure hashes agree |
| `Evaluation.CutBodyLooksRenamed` | src/brain_sync/regen/evaluation.py:28-53 | a file with the body ba cut into b and a is evaluated as renamed, for an injective hash that puts b before a, as SHA-256 does |
| `Evaluation.EvaluateFolderState` | src/brain_sync/regen/evaluation.py:133-266 | the imperative evaluation, with its early exits, computes the specified verdict and hashes |
| `Evaluation.VerdictExactly` | src/brain_sync/regen/evaluation.py:195-266 | the verdict of an area with content, case by case: no usable stored hash or a differing one is changed content; with an equal one a missing structure hash is a backfill, a differing one a change of names only, an equal one nothing; the hashes reported are those of the files and summaries as they are |
| `Evaluation.ChangeNoticedExactlyWhen` | src/brain_sync/regen/evaluation.py:28-53 | over an area stored as regenerated, for an injective hash, content is evaluated as changed exactly when the hashed bytes differ |
| `Evaluation.EditIsNoticed` | src/brain_sync/regen/evaluation.py:73-93 | an edit of one file that changes its length, or leaves the hashed lengths in their order, is evaluated as changed content |
| `Evaluation.EditCanGoUnnoticed` | src/brain_sync/regen/evaluation.py:73-93 | for a hash that orders three bodies as SHA-256 does, an edit of one file goes unnoticed |
| `Evaluation.SameStructureExactlyWhen` | src/brain_sync/regen/evaluation.py:96-114 | two areas have the same structure hash exactly when they have the same names, in whatever order, as long as the names keep their lengths |
| `Evaluation.LineEndsDoNotMatter` | src/brain_sync/regen/evaluation.py:73-93 | a text file counts the same under every convention for line ends, any other file byte by byte |
| `Evaluation.EvaluationDecidesUpToDate` | src/brain_sync/regen/evaluation.py:28-53 | an area is up to date exactly when it evaluates as unchanged, or as contentless without a summary |
| `Evaluation.EvaluateFrame` | src/brain_sync/regen/evaluation.py:133-266 | an area's evaluation depends on no summary or stored state but its own and its children's |
| `RegenLocks.LockTable.AcquireRegenOwnership` | src/brain_sync/runtime/repository.py:2520-2556 | the guarded claim: granted exactly for free, own or stale running rows |
| `RegenLocks.LockTable.SaveRegenLock` | src/brain_sync/runtime/repository.py:2431-2479 | saving a row never changes its owner and refuses to claim or transfer it |
| `RegenLocks.LockTable.ReleaseRegenOwnership` | src/brain_sync/runtime/repository.py:2408-2428 | only the owner releases |
| `RegenLocks.LockTable.ReclaimStaleRunningStates` | src/brain_sync/runtime/repository.py:2559-2601 | frees exactly the running rows whose start is too old or unusable, and counts them |
| `RegenLocks.LockTable.ReleaseOwnedRunningStates` | src/brain_sync/runtime/repository.py:2604-2625 | session exit frees only its own running rows |
| `RegenLocks.ClaimWrites` | src/brain_sync/runtime/repository.py:2520-2556 | a claim is refused exactly by a row of another session that is not running, has no start, or started no longer ago than the threshold; a granted one starts running now and keeps the error, a refused one changes nothing |
| `RegenLocks.ClaimHoldsForTheThreshold` | src/brain_sync/runtime/repository.py:2520-2556 | after a granted claim another session is granted the row exactly once the threshold has passed |
| `RegenLocks.SaveWrites` | src/brain_sync/runtime/repository.py:2431-2479 | saving keeps the owner, writes the other three fields and no other row, and is refused exactly when it names an owner the row does not have |
| `RegenLocks.ReleaseWrites` | src/brain_sync/runtime/repository.py:2408-2428 | the owner's release writes status and error and keeps the start; anybody else's changes nothing |
| `RegenLocks.FreedRows` | src/brain_sync/runtime/repository.py:2559-2625 | a reclaim frees exactly the running rows without a usable or recent start, a session's end exactly the running ones it owns; freed rows keep start and error |
| `RegenLocks.OwnershipEndsExactlyWhen` | src/brain_sync/runtime/repository.py:2385-2625 | a path stops being owned exactly by the owner's release or exit, by a takeover or reclaim of a stale row, or by deletion |
| `RegenLocks.OwnershipStartsOnlyByAcquiring` | src/brain_sync/runtime/repository.py:2520-2556 | ownership begins only with an acquisition that was granted |
| `RegenLocks.NamedOverRuns` | src/brain_sync/runtime/repository.py:2385-2625 | every hold is what the row says, at every point of every interleaving, exactly when no step ends the hold of another session by a takeover, a reclaim or a deletion |
| `RegenLocks.SharedOnlyAfterEnding` | src/brain_sync/runtime/repository.py:2385-2625 | two sessions hold one path only if somewhere before a step ended a hold of another session |
| `RegenLocks.NoSharedPath` | src/brain_sync/runtime/repository.py:2385-2625 | over every interleaving in which holders finish within the threshold, two sessions never hold one path together |
| `RegenLocks.DeletionBreaksExclusion` | src/brain_sync/runtime/repository.py:2506-2517 | deleting a row under its holder lets two sessions hold one path |
| `RegenLocks.LockTable.RenameKnowledgePathPrefix` | src/brain_sync/runtime/repository.py:2182-2201 | the row-by-row rename over the fetched paths |
| `RegenLocks.RenameIsExactExactlyWhen` | src/brain_sync/runtime/repository.py:2182-2201 | for any two prefixes and any fetch order, the row-by-row rename re-keys all rows at once exactly when no row of the folder is renamed onto one fetched after it |
| `RegenLocks.FolderRenameIsExact` | src/brain_sync/runtime/repository.py:2182-2201 | for the folders of a directory move, neither of them inside the other, the rename re-keys all rows at once, in whatever order they were fetched |
| `RegenLocks.NestedRenameLosesARow` | src/brain_sync/runtime/repository.py:2190-2198 | what the function would do with a folder renamed into itself, which no directory move produces: one row overwrites another and is renamed twice |
| `RegenSoundness.ActEffect` | src/brain_sync/regen/engine.py:966-1597 | for every answer and failure point: only this folder is written, success stores the evaluated hashes, and an action that does not propagate leaves the summary alone |
| `RegenSoundness.NonPropagatingKeepsSummary` | src/brain_sync/regen/topology.py:95-118 | an action that does not propagate never changed the folder's summary |
| `RegenSoundness.DoneIsQuiet` | src/brain_sync/regen/engine.py:966-1597 | whatever the model said, a call that returns leaves its folder with nothing to do |
| `RegenSoundness.QuietFolderIsNoOp` | src/brain_sync/regen/engine.py:1121-1166 | a quiet folder is left as it is whatever the call would answer; an unchanged one does not propagate |
| `RegenSoundness.SpoilsExactlyWhen` | src/brain_sync/regen/engine.py:315-387 | a call raises with its summary changed exactly when a cleanup stops with the summary gone, or a new summary is written and then the way back or the journal fails; in terms of what is known before the call |
| `RegenOutcomes.ReturnsExactlyWhen` | src/brain_sync/regen/engine.py:966-1597 | a call returns exactly when nothing in its way fails, verdict by verdict |
| `RegenOutcomes.ActionTells` | src/brain_sync/regen/engine.py:966-1597 | the action of a call that returns follows from the verdict and, for changed content, the similarity; it propagates exactly when a summary was written or cleaned up |
| `RegenOutcomes.ReasonTells` | src/brain_sync/regen/topology.py:40-118 | the reason given to the parent says whether the folder's summary was removed, rewritten or left as it was |
| `RegenOutcomes.RegeneratedStoresAnswer` | src/brain_sync/regen/engine.py:1492-1597 | after a regeneration the summary on disk is the model's answer, of at least 20 characters, stored with its own hash, the evaluated hashes and the time of the call; the journal got exactly the answer's entry, at its end |
| `RegenOutcomes.SimilarKeepsSummary` | src/brain_sync/regen/engine.py:1492-1597 | a similar answer keeps the old, non-empty summary and stores its hash |
| `RegenOutcomes.RehashStoresHashes` | src/brain_sync/regen/engine.py:252-312 | the outcomes without a model call store the current hashes and keep everything else of the state |
| `RegenOutcomes.CleanUpErases` | src/brain_sync/regen/engine.py:1003-1048 | a cleanup that returns leaves no summary, no stored state and no lock row |
| `RegenOutcomes.StoppedCleanUp` | src/brain_sync/regen/engine.py:1003-1048 | a cleanup that stops raises with exactly the parts gone that it got to |
| `RegenOutcomes.RaisedWrites` | src/brain_sync/regen/engine.py:315-387 | a call that raises never changes a journal; unless it was cleaning up, it has changed its summary only by writing the model's answer, and its stored hashes only when the journal failed after everything else was written |
| `RegenOutcomes.TerminalTells` | src/brain_sync/regen/engine.py:390-432 | the row a call ends with, field by field, unless another session owns it |
| `RegenOutcomes.EditIsRegenerated` | src/brain_sync/regen/engine.py:966-1597 | after an edit of one file of a regenerated folder that changes its length or leaves the hashed lengths in order, a call that returns has consulted the model |
| `RegenConsistency.BatchSettlesEverything` | src/brain_sync/regen/queue.py:219-258 | after any batch, every area requested, reached or up to date before is up to date, failed, refused, or has a child that failed with its summary changed |
| `RegenConsistency.WaveBatchRestoresConsistency` | src/brain_sync/regen/queue.py:219-258 | if all areas outside the ready set are up to date, a batch without failures or refusals leaves every area of the tree up to date |
| `RegenConsistency.EarlyFailuresLeaveNoStaleParent` | src/brain_sync/regen/queue.py:219-258 | if all areas outside the ready set are up to date, then after a batch in which no call fails between its summary and its end, every area is up to date, or failed or was refused itself |
| `RegenConsistency.NothingSpoiledExactlyWhen` | src/brain_sync/regen/engine.py:1692-1722 | a batch records no such failure exactly when no call of it is in those circumstances |
| `RegenConsistency.CleanBatchRepairsExactly` | src/brain_sync/regen/queue.py:219-258 | after a clean batch an area is up to date exactly when it was requested, a child was processed with an action that propagates, or it was up to date before |
| `RegenConsistency.SecondRunIsIdle` | src/brain_sync/regen/engine.py:1682-1726 | repeating a clean run on the same files changes no summary and no stored hash and evaluates no folder as changed |
| `RegenConsistency.ModelConsultedOnlyOnContentChange` | src/brain_sync/regen/engine.py:1222-1597 | the model's answer matters only for a folder whose content changed |
| `RegenConsistency.EachFolderAtMostOnce` | src/brain_sync/regen/engine.py:1692-1722 | each folder is processed at most once per run |
| `RegenOutcomes.BatchReportsItsCalls` | src/brain_sync/regen/engine.py:1682-1722 | a batch reports as failed exactly the folders whose call raised, as refused exactly those it could not acquire, and counts exactly the regenerations |
| `RegenOutcomes.GuardTells` | src/brain_sync/regen/queue.py:182-258 | a guarded visit is refused exactly when the folder's row cannot be claimed now in the caller's name; otherwise it runs with the row claimed |
| `RegenConsistency.ShortWalkUpIsTheWaveBatch` | src/brain_sync/regen/queue.py:182-217 | for a chain of at most ten folders the bounded walk-up is the wave batch: same folders, same order, same brain, same failures |
| `RegenConsistency.LongWalkUpIsTheWaveBatchExactlyWhen` | src/brain_sync/regen/queue.py:182-217 | for a longer chain it is the wave batch exactly when one of the first ten folders, visited in turn, did not succeed with an action that propagates |
| `RegenConsistency.OwnershipReturnedExactlyWhen` | src/brain_sync/regen/engine.py:390-432 | a call gives its ownership back unless, on a row it already held, a cleanup stopped half way or a failure wrote nothing; a call without an owner leaves the owner as it is unless it deletes the row |
| `RegenConsistency.LockRowTellsTheOutcome` | src/brain_sync/regen/engine.py:187-432 | the lock row ends gone after cleanup, idle after success, failed with the reason after a failure, untouched by a refused call or by a failure that writes nothing; it names nobody, or whom it named before if the call has no owner |
| `RegenFailures.JournalFailureLeavesParentStale` | src/brain_sync/regen/engine.py:331-387 | a run in which a journal failure leaves an up-to-date parent stale, failed and unmarked |
| `RegenFailures.DeepWalkUpMissesWork` | src/brain_sync/regen/queue.py:182-217 | for every deleted folder more than ten levels deep, the bounded walk-up succeeds, leaves the folder above dirty and differs from the wave batch |
| `RegenFailures.RootIsNeverStarted` | src/brain_sync/regen/engine.py:1674-1682 | a full run over a tree whose only file is in the root does nothing and leaves the root out of date |
| `RegenFailures.StoppedCleanupKeepsOwnership` | src/brain_sync/regen/engine.py:1037-1047 | a folder without content but with a summary: a cleanup that stops at once leaves the caller owning the row |
| `RegenFailures.UnreadFolderKeepsOwnership` | src/brain_sync/regen/engine.py:966-1001 | a folder that cannot be read leaves the caller owning the row, with no failure recorded in it |
| `RegenRuns.Engine.RegenSingleFolder` | src/brain_sync/regen/engine.py:966-1597 | the step-by-step body does what the specification says, state and result |
| `RegenRuns.Engine.CommitArtifactPlan` | src/brain_sync/regen/engine.py:315-387 | summary and hashes, then journal, then lock row; a failure marks the row failed and takes nothing back |
| `RegenRuns.Engine.RehashArea` | src/brain_sync/regen/engine.py:252-312 | claim, persist, release for the outcomes that only rewrite hashes |
| `RegenRuns.Engine.SaveTerminalRegenLock` | src/brain_sync/regen/engine.py:390-432 | the terminal row without owner, unless somebody else owns it |
| `RegenRuns.Engine.RegenPath` | src/brain_sync/regen/engine.py:1600-1651 | the loop is the walk-up along the bounded chain; a failure ends it |
| `RegenRuns.Engine.RunWaves` | src/brain_sync/regen/engine.py:1682-1722 | the nested loops over waves are the specified run: brain, total and failed paths |
| `RegenRuns.Engine.RegenAll` | src/brain_sync/regen/engine.py:1654-1754 | the full run over all content paths followed by the removal of orphaned state |
| `RegenRuns.FullRunRepairsExactly` | src/brain_sync/regen/engine.py:1674-1754 | a full run without failures brings every area with files or child directories up to date; any area is up to date exactly when it is one of those, a child was processed with an action that propagates, or it was up to date before |
| `RegenRuns.SecondFullRunIsIdle` | src/brain_sync/regen/engine.py:1682-1754 | a second full run, after the orphan cleanup of the first, writes nothing and calls no model |
| `QueueTiming.PrunedLengthCountsTheLastHour` | src/brain_sync/regen/queue.py:110-115 | however the deque was pruned on the way, its pruned length is the number of completions in the last hour |
| `QueueTiming.PopsRespectCapAndCooldown` | src/brain_sync/regen/queue.py:110-150 | a path is handed out only below the hourly cap and past its cooldown |
| `QueueTiming.DebounceHolds` | src/brain_sync/regen/queue.py:95-150 | with a debounce of at most 30 seconds nothing is popped within the debounce window of its latest enqueue, retries included |
| `QueueTiming.DebounceCanBreak` | src/brain_sync/regen/queue.py:260-283 | for every longer debounce there is a run in which a retry breaks the window |
| `QueueTiming.AtMostFourAttempts` | src/brain_sync/regen/queue.py:260-283 | without new enqueues a path is attempted at most four times, and retry counts stay at most three |
| `QueueTiming.CountsAreAttempts` | src/brain_sync/regen/queue.py:124-150 | the counts of the queue are the attempts made since the path was enqueued |
| `QueueTiming.FailureIsRetried` | src/brain_sync/regen/queue.py:260-283 | after its first, second and third failed attempt a path is pending again, 30, 60 and 120 seconds later with the count of its attempts; after the fourth it is given up; nothing else changes |
| `QueueTiming.EnqueueResetsTimer` | src/brain_sync/regen/queue.py:95-108 | an enqueue starts the timer anew and keeps the count of an entry that is waiting |
| `QueueTiming.LeavesOnlyByPop` | src/brain_sync/regen/queue.py:95-150 | a pending path stays pending until it is popped |
| `RegenQueue.RegenQueue.Enqueue` | src/brain_sync/regen/queue.py:95-108 | a new entry, or a reset timer with the retry count kept |
| `RegenQueue.RegenQueue.IsRateLimited` | src/brain_sync/regen/queue.py:110-115 | the popleft loop drops exactly the leading expired entries |
| `RegenQueue.RegenQueue.PopReady` | src/brain_sync/regen/queue.py:124-150 | everything that qualified before the call is popped, everything popped qualifies after it, and retry counts are remembered |
| `RegenQueue.RegenQueue.QualifiesExactly` | src/brain_sync/regen/queue.py:110-150 | a path qualifies exactly when its timer has passed, its last run is at least the cooldown ago, and fewer runs than the cap were completed in the last hour |
| `RegenQueue.RegenQueue.HandleFailure` | src/brain_sync/regen/queue.py:260-343 | with a remembered count below three the path is pending again with the count of its attempts and a timer 30, 60 or 120 seconds after the failure; otherwise its lock row is left failed |
| `RegenQueue.RegenQueue.ProcessSingleWalkUp` | src/brain_sync/regen/queue.py:182-217 | the guarded walk-up; a failure anywhere is charged to the seed, anything else counts as its completion |
| `RegenQueue.RegenQueue.ProcessWave` | src/brain_sync/regen/queue.py:219-258 | the guarded batch is the specified run, and every ready path is recorded as completed, failed or refused as the run says |
| `RegenQueue.RegenQueue.ProcessReady` | src/brain_sync/regen/queue.py:152-180 | pop, choose the strategy, run it: walk-up for one ready path, wave batch over the closure for several |
| `RegenQueue.RegenQueue.NextFireIn` | src/brain_sync/regen/queue.py:349-355 | the wait until the earliest timer, none exactly when nothing is pending |
| `MinHeap.Push` | src/brain_sync/sync/scheduler.py:61-71 | keeps the heap order and adds exactly the entry |
| `MinHeap.Pop` | src/brain_sync/sync/scheduler.py:106-118 | removes exactly the root, which is due first, and keeps the heap order |
| `Scheduler.Scheduler.Schedule` | src/brain_sync/sync/scheduler.py:61-71 | adds the key with its deadline unless it is scheduled already |
| `Scheduler.Scheduler.Reschedule` | src/brain_sync/sync/scheduler.py:120-122 | replaces the deadline by one within 20% of the interval |
| `Scheduler.Scheduler.ScheduleImmediate` | src/brain_sync/sync/scheduler.py:73-75 | replaces the deadline by now |
| `Scheduler.Scheduler.ScheduleFromPersisted` | src/brain_sync/sync/scheduler.py:77-104 | the persisted time, clamped: absent, unparsable or past means now, too far means the interval |
| `Scheduler.PersistedDelay` | src/brain_sync/sync/scheduler.py:77-104 | now for an absent, unparsable or past time, the interval for one beyond the clamp, and exact in between; never negative |
| `Scheduler.Scheduler.Remove` | src/brain_sync/sync/scheduler.py:124-126 | drops the key from the plan; its heap entry stays behind as stale |
| `Scheduler.Scheduler.PopDue` | src/brain_sync/sync/scheduler.py:106-118 | exactly the keys whose current deadline has passed, once each, in deadline order, despite stale and duplicate entries |
| `Scheduler.Scheduler.NextDueIn` | src/brain_sync/sync/scheduler.py:128-137 | the true minimum over the plan, none exactly when the plan is empty |
| `PromptPlanner.PackFormattedFileParts` | src/brain_sync/regen/prompt_planner.py:431-524 | within the remaining tokens; included and omitted names split the input; an omission has its reason and what was left for it, or 0 after an eviction; eviction from the largest part down and only while needed; with nothing included, the first of the plain and the two collapsed renderings that fits, or nothing when none does |
| `PromptPlanner.DeferOversized` | src/brain_sync/regen/prompt_planner.py:451-472 | the greedy pass takes exactly the greedy set; a part it defers did not fit, and its decision records what the parts taken before it left |
| `PromptPlanner.GreedyTakesWhatFits` | src/brain_sync/regen/prompt_planner.py:451-472 | a part is taken exactly when it costs nothing or fits into what the taken ones before it leave |
| `PromptPlanner.LargestFirst` | src/brain_sync/regen/prompt_planner.py:455-455 | the pass goes from the largest part to the smallest, equal sizes from the last name to the first |
| `PromptPlanner.EvictUntilFits` | src/brain_sync/regen/prompt_planner.py:493-510 | stops with a text that fits or with nothing included; everything left is smaller than everything evicted, and before each eviction the text did not fit |
| `PromptPlanner.EvictionIsDetermined` | src/brain_sync/regen/prompt_planner.py:493-510 | that leaves only one outcome for given parts and budget |
| `PromptPlanner.NothingDeferredExactlyWhen` | src/brain_sync/regen/prompt_planner.py:431-524 | nothing is deferred exactly when the complete rendering fits |
| `PromptPlanner.IncludedVerbatim` | src/brain_sync/regen/prompt_planner.py:474-491 | every included part is in the rendered text, character for character |
| `PromptPlanner.OmittedAreNamed` | src/brain_sync/regen/prompt_planner.py:474-491 | every omitted part is named in the text by its placeholder, or counted when they are collapsed |
| `PromptPlanner.BinariesAreNamed` | src/brain_sync/regen/prompt_planner.py:161-179 | every binary file is named in the text, or they are counted when collapsed |
| `PromptPlanner.CollapsedInOrder` | src/brain_sync/regen/prompt_planner.py:512-517 | the omitted files are collapsed first and then the binaries |
| `PromptPlanner.PlainRendering` | src/brain_sync/regen/prompt_planner.py:161-179 | with everything inlined and no binaries the text is the header and the parts, one blank line apart |
| `PromptPlanner.KeptOrderIsKept` | src/brain_sync/regen/prompt_planner.py:518-524 | the included names keep the order of the parts |
| `PromptPlanner.OmittedOrderIsKept` | src/brain_sync/regen/prompt_planner.py:518-524 | so do the omitted ones |
| `PromptBudget.PackChildSummaries` | src/brain_sync/regen/prompt_planner.py:376-428 | within the remaining tokens; the loaded summaries are given ones, in name order: the longest front part of the greedy choice whose exact text fits; every other child is reported as omitted; nothing omitted exactly when the complete rendering fits |
| `PromptBudget.LoadedVerbatim` | src/brain_sync/regen/prompt_planner.py:408-413 | every loaded child summary is in the text, character for character |
| `PromptBudget.ChildrenAreCounted` | src/brain_sync/regen/prompt_planner.py:408-420 | the text tells how many children are loaded of how many, and how many are omitted |
| `PromptBudget.BuildWithinBudget` | src/brain_sync/regen/prompt_planner.py:703-767 | once the fixed scaffold fits, the final check can fail by exactly one token only; the prompt is the scaffold around the two packed sections |
| `PromptBudget.OverBudgetByAtMostOne` | src/brain_sync/regen/prompt_planner.py:703-767 | the final prompt exceeds the budget exactly when the two roundings add up |
| `PromptBudget.BudgetCanBeExceededByOne` | src/brain_sync/regen/prompt_planner.py:735-767 | for every budget of at least nine tokens there is a prompt whose final check fails by one token |
| `PromptBudget.EffectiveBudget` | src/brain_sync/regen/prompt_planner.py:349-373 | an overridden setting wins; otherwise the smaller of what the backend takes and the budget of its class |
| `PromptBudget.LargerWindowLargerBudget` | src/brain_sync/regen/prompt_planner.py:349-373 | a backend that takes more never gets a smaller budget |
| `MarkdownChunks.SplitMarkdownChunks` | src/brain_sync/regen/prompt_planner.py:603-659 | the text is cut only in front of headings and at blank lines, nothing but newlines is left out, in order, every chunk is within the target or has no blank line to split at, and the chunks are those of the recursive specification |
| `MarkdownChunks.MergeSections` | src/brain_sync/regen/prompt_planner.py:625-638 | loses nothing, joins sections only within the target, and no two neighbouring chunks would have fitted together |
| `MarkdownChunks.MergeParagraphs` | src/brain_sync/regen/prompt_planner.py:647-659 | loses only separators, and no two neighbouring chunks would have fitted together |
| `MarkdownChunks.SectionsStartAtHeadings` | src/brain_sync/regen/prompt_planner.py:620-624 | every section but the first begins with a heading of the level being split |
| `ChunkChoice.SectionsAreWhole` | src/brain_sync/regen/prompt_planner.py:620-624 | no section has another heading of the level inside |
| `ChunkChoice.CutsExactly` | src/brain_sync/regen/prompt_planner.py:620-624 | a text is cut exactly where a line starts with one to level number signs and a space |
| `ChunkChoice.FirstLevelIsTheFirst` | src/brain_sync/regen/prompt_planner.py:615-619 | the level is that of the first heading with a title, and 1 without any |
| `ChunkChoice.GatheredIsGreedy` | src/brain_sync/regen/prompt_planner.py:625-638 | sections are joined greedily from the left: each chunk holds as many as fit |
| `ChunkChoice.MergedIsGreedy` | src/brain_sync/regen/prompt_planner.py:647-659 | so are paragraphs, and only empty ones are left out |
| `ChunkChoice.GatheredThenSplit` | src/brain_sync/regen/prompt_planner.py:625-646 | a gathered chunk within the target stays as it is, a longer one is split one level deeper |
| `ChunkChoice.SectionsSurvive` | src/brain_sync/regen/prompt_planner.py:603-659 | with more than one section, every section within the target ends up whole in one chunk within the target |
| `ChunkChoice.ParagraphsSurvive` | src/brain_sync/regen/prompt_planner.py:647-659 | otherwise no paragraph is cut |
| `Journal.ParsePrint` | src/brain_sync/brain/repository.py:1176-1233 | splitting what was printed gives back the same preamble sections and blocks |
| `Journal.ParseIsGood` | src/brain_sync/brain/repository.py:1176-1200 | any text splits into sections without blank lines or headings and blocks with one heading, at the start |
| `Journal.MergeIsLossless` | src/brain_sync/brain/repository.py:1203-1233 | reading the merged text back gives every section and block of both texts exactly once, blocks by time |
| `Journal.MergeIsIdempotent` | src/brain_sync/brain/repository.py:1220-1233 | merging the same legacy text again returns the identical text |
| `Journal.MergeJournalDayText` | src/brain_sync/brain/repository.py:1220-1233 | the merge with its seen-set loops computes the specified text |
| `Journal.MergeUniqueSections` | src/brain_sync/brain/repository.py:1203-1212 | first occurrences over all groups, in order |
| `JournalContents.ParseLosesBlankLinesOnly` | src/brain_sync/brain/repository.py:1176-1200 | the sections and then the blocks of a day hold exactly the non-empty lines of its text, in order |
| `JournalContents.SectionsInOrder` | src/brain_sync/brain/repository.py:1203-1233 | the merged day has the first occurrences of the sections of both days, the legacy ones first, in their order |
| `JournalContents.BlocksByTime` | src/brain_sync/brain/repository.py:1215-1233 | in the merged day no block comes before an earlier one |
| `JournalContents.HeadingExactly` | src/brain_sync/brain/repository.py:1176-1193 | a heading line is the mark, two digits, a colon, two digits and trailing white space |
| `Journal.JournalStore.HealLegacyJournalLayout` | src/brain_sync/brain/repository.py:1031-1065 | every legacy day is merged into its current day or starts it, other days are untouched, the legacy tree is gone |
| `Journal.HealingAgain` | src/brain_sync/brain/repository.py:1041-1064 | healing again after an interruption keeps a merged day; a day without target keeps its pieces, and its text exactly when the legacy text was in merged form |
| `JournalContents.HealedTells` | src/brain_sync/brain/repository.py:1031-1065 | a legacy day is merged into the day of the same date, or starts one with its sections and blocks, and no other day is touched |
| `PortableUndo.UndoIsExact` | src/brain_sync/brain/repository.py:729-779 | undoing staged writes in reverse restores every file, repeated paths included |
| `PortableUndo.ForwardUndoIsNotExact` | src/brain_sync/brain/repository.py:757-779 | undoing forward leaves the first of two writes to one path |
| `PortableUndo.PortableFiles.StageAttachments` | src/brain_sync/sync/lifecycle.py:626-652 | all attachments are written, or none |
| `PortableUndo.PortableFiles.RemoveDuplicates` | src/brain_sync/brain/repository.py:431-451 | the loop removes the removable duplicates up to the first one that cannot be removed, passes over those held open, and reports that fault |
| `PortableUndo.PortableFiles.MaterializeMarkdown` | src/brain_sync/brain/repository.py:409-479 | it commits, raises denied or raises undone exactly as the first failing operation is none, a permission error or another error; success replaces the target and removes exactly the removable duplicates; any error but a permission error restores everything; a permission error leaves the write and the removals before it |
| `PortableUndo.FirstFaultTells` | src/brain_sync/brain/repository.py:409-479 | a commit fails as its first failing operation does: the write, then the first duplicate whose removal is refused or breaks, then the manifest |
| `PortableUndo.PortableFiles.CommitPrepared` | src/brain_sync/sync/lifecycle.py:626-669 | it commits exactly when no attachment and no step of the markdown commit fails; attachments and markdown are undone together; only after a permission error of the markdown commit can its part stay |
| `PortableUndo.DeniedIsCleanExactlyWhen` | src/brain_sync/brain/repository.py:470-471 | a permission error leaves the files as they were exactly when it hit the write, or when the target already had the content and no duplicate before the first one that stops the loop could be removed |
| `PortableUndo.DeniedLeavesChanges` | src/brain_sync/brain/repository.py:446-471 | a commit denied at its second duplicate: the target stays rewritten and the first duplicate stays deleted |
| `AreaIndex.AreaIndex.Build` | src/brain_sync/query/area_index.py:76-124 | the recursive walk builds the entries and the snapshot of one state |
| `AreaIndex.AreaIndex.IsStale` | src/brain_sync/query/area_index.py:163-165 | stale when marked, or when a capture now would differ |
| `AreaIndex.AreaIndex.Search` | src/brain_sync/query/area_index.py:167-207 | the loop computes the specified results |
| `AreaSearch.BestComeFirst` | src/brain_sync/query/area_index.py:167-207 | at most the requested number and at most ten results; each shows an entry that matches, with its own path, preview and children; scores never rise along the list and ties are in path order |
| `AreaSearch.OnlyTheWorstAreCut` | src/brain_sync/query/area_index.py:194-207 | an entry that matches and is not shown ranks no higher than anything shown, and the list is full |
| `AreaSearch.ScoreCounts` | src/brain_sync/query/area_index.py:174-192 | three for every matching path segment, two for the summary, one for every matching heading |
| `AreaSearch.AreasExactly` | src/brain_sync/query/area_index.py:86-120 | the index covers exactly the directories below the root without a core directory on their path |
| `AreaSearch.EntryTells` | src/brain_sync/query/area_index.py:86-120 | what an entry holds of its area: segments, sorted children, the front of its summary, preview and headings |
| `AreaIndex.AreasAgree` | src/brain_sync/query/area_index.py:86-120 | the two walks, in directory order and in name order, find the same areas, each once |
| `AreaIndex.SearchIgnoresEntryOrder` | src/brain_sync/query/area_index.py:167-207 | search results do not depend on the order of the entries |
| `AreaIndex.FreshEnoughIsFresh` | src/brain_sync/query/area_index.py:163-207 | while the snapshot still matches, every search on the cached index returns what a fresh build would return |
| `TreeScan.DeepestUntrackedPaths` | src/brain_sync/sync/reconcile.py:38-44 | exactly the paths without a proper descendant in the set, each once, covering the whole set |
| `TreeScan.DeepestIsAntichain` | src/brain_sync/sync/reconcile.py:38-44 | no two of them are in an ancestor relation |
| `TreeScan.ScanKnowledgeTree` | src/brain_sync/sync/reconcile.py:54-104 | orphans dropped from every table, candidates and enqueued areas exactly as the set algebra says |
| `TreeScan.UntrackedAreasAreScheduled` | src/brain_sync/sync/reconcile.py:82-89 | enqueuing the deepest untracked areas puts every untracked area into the scheduled closure |
| `Manifests.SyncValidatesExactlyWhen` | src/brain_sync/brain/repository.py:377-407 | repairing a path fails validation exactly when it revives a source without hashes |
| `Manifests.UpdatesStaySound` | src/brain_sync/brain/manifest.py:307-356 | every other manifest update keeps a valid manifest valid |
| `Manifests.RepairedIsDirect` | src/brain_sync/brain/repository.py:344-407 | after a repair the file is found directly and a second repair changes nothing |
| `Manifests.MaterializationStores` | src/brain_sync/brain/manifest.py:337-356 | a materialization stores the fetched hash and fingerprint, each in its place, and the time of the check when the file or its path changed or no time was stored |
| `Manifests.OthersKeepHashes` | src/brain_sync/brain/manifest.py:307-336 | no other update touches the hashes and the time |
| `Manifests.ValidExactly` | src/brain_sync/brain/manifest.py:117-141 | a valid manifest has a path; nothing is stored before the first sync, both hashes and the time afterwards, and anything while it is missing |
| `Manifests.FoundAndMissing` | src/brain_sync/brain/repository.py:377-407 | a missing source stays where it was; a found one is at its file, stale exactly when it was missing or settled elsewhere |
| `Manifests.RelocationsTell` | src/brain_sync/brain/repository.py:655-715 | a relocation makes a settled source stale and keeps the file name, a folder move its place in the folder: moving back restores the path |
| `Manifests.ResolvedInOrder` | src/brain_sync/brain/repository.py:344-375 | the recorded path first, then the identity, then the name prefix |
| `Lifecycle.CommandKeepsInvariant` | src/brain_sync/sync/lifecycle.py:369-1054 | every command keeps manifests valid and polling rows to registered sources that are not missing |
| `Lifecycle.RunKeepsInvariant` | src/brain_sync/sync/lifecycle.py:369-1327 | so does every sequence of commands |
| `Lifecycle.RegistrationEndsExactlyWhen` | src/brain_sync/sync/lifecycle.py:308-329 | a registration disappears exactly by a granted removal, or by finalizing a missing source whose file cannot be resolved |
| `Lifecycle.FinalizedExactlyWhen` | src/brain_sync/sync/finalization.py:85-197 | when finalization finalizes, when it raises, and what it keeps |
| `Lifecycle.MoveRaisesExactlyWhen` | src/brain_sync/sync/lifecycle.py:898-1054 | a move raises exactly when a file is in the way or it would revive a source without hashes |
| `Lifecycle.MoveArrives` | src/brain_sync/sync/lifecycle.py:898-1000 | a move that succeeds ends in the requested area |
| `Lifecycle.RemovalErases` | src/brain_sync/sync/lifecycle.py:432-491 | a removal leaves no trace of the source in any table |
| `Lifecycle.SyncMaterializes` | src/brain_sync/sync/lifecycle.py:774-855 | a sync that fetched settles the source where the file was written with the fetched hash and fingerprint, each in its place, and the time of the check or the old one; it stays polled and gives the lease back |
| `Lifecycle.SyncWithoutFetch` | src/brain_sync/sync/lifecycle.py:774-895 | a sync that fetched nothing leaves every manifest alone, but for a source gone at its origin, which becomes missing and is no longer polled; the lease is given back |
| `Lifecycle.AddRegisters` | src/brain_sync/sync/lifecycle.py:369-431 | a new source waits for its first sync at the given path and is polled; a registered one is left as it is |
| `Lifecycle.MoveTells` | src/brain_sync/sync/lifecycle.py:898-1000 | a move finds a missing source again only at a file, makes a settled one stale exactly when its path changed, and keeps the hashes and every other source |
| `Lifecycle.ConflictChangesNothing` | src/brain_sync/sync/lifecycle.py:432-470 | a lease conflict is reported exactly when another lease is unexpired, and changes nothing |
| `Lifecycle.UnknownSourceIsRefused` | src/brain_sync/sync/lifecycle.py:432-1000 | a command on an unregistered source says so and changes nothing, a missing source is not synced, and a granted command reports what it did |
| `Lifecycle.ReconcileRaisesExactlyWhen` | src/brain_sync/sync/lifecycle.py:1172-1327 | reconciling raises exactly when some unleased source is back without its hashes |
| `Lifecycle.FolderMoveIsPointwise` | src/brain_sync/sync/lifecycle.py:1112-1145 | a folder move rewrites exactly the unleased manifests below the folder, independently of each other |
| `SourceInvariant.SyncManifestRaisesExactlyWhen` | src/brain_sync/brain/repository.py:377-407 | with valid manifests, as they are at every point of every interleaving, writing a repaired path raises exactly when it would revive a source without hashes |
| `SourceInvariant.AwaitingSourceCannotReturn` | src/brain_sync/brain/repository.py:396-405 | a source reported missing before its first sync raises when its file turns up |
| `SourceStore.Store.AcquireLease` | src/brain_sync/runtime/repository.py:1764-1826 | granted unless another owner's lease has an expiry that is not past |
| `SourceStore.Store.RenewLease` | src/brain_sync/runtime/repository.py:1829-1882 | only for whom the row names |
| `SourceLeases.AcquireWrites` | src/brain_sync/runtime/repository.py:1764-1826 | a granted lease names the owner until the given time and keeps the observation times; a refused one changes nothing |
| `SourceLeases.LeaseUpdatesWrite` | src/brain_sync/runtime/repository.py:1829-1882 | clearing and renewing touch the lease only, and only for whom the row names |
| `SourceLeases.ObservationWrites` | src/brain_sync/sync/lifecycle.py:555-598 | an observation marks the source missing, keeps the first time, sets the latest and ends the polling, unless a lease is active |
| `SourceLeases.NothingToRepair` | src/brain_sync/sync/lifecycle.py:1201-1311 | neither repair does anything to an unregistered or leased source, or to one whose file is not found |
| `SourceLeases.RepairsWrite` | src/brain_sync/sync/lifecycle.py:1201-1311 | a missing source that is back is synced, polled and forgets its observations; any other found one is only synced |
| `SourceStore.Store.CommitMaterialization` | src/brain_sync/sync/lifecycle.py:612-677 | commits only while the row names the owner; manifest, polling row and lease end as specified |
| `SourceStore.Store.ObserveMissingSource` | src/brain_sync/sync/lifecycle.py:555-598 | refused under an active lease; otherwise marked missing, confirmed, no longer polled |
| `SourceStore.Store.SyncManifestToFoundPath` | src/brain_sync/brain/repository.py:377-407 | writes only a change, and only one that validates |
| `SourceStore.Store.RemoveOneSource` | src/brain_sync/sync/lifecycle.py:432-491 | lease, files, polling row, runtime row, registration, in this order |
| `SourceStore.Store.SyncActiveSourceOnce` | src/brain_sync/sync/lifecycle.py:774-895 | one sync around the lease bracket of process_source, for each answer of the remote side |
| `SourceStore.Store.MoveOneSource` | src/brain_sync/sync/lifecycle.py:898-1054 | the lease renewals and the three manifest writes of a move, and the undo of the file move |
| `SourceStore.Store.ApplyFolderMove` | src/brain_sync/sync/lifecycle.py:1130-1145 | the loop over the manifests of a moved folder |
| `SourceStore.Store.FinalizeMissingSource` | src/brain_sync/sync/finalization.py:85-197 | the branches of finalize_missing with their rows and lease |
| `SourceStore.Store.RevalidateRuntimeRows` | src/brain_sync/sync/lifecycle.py:332-354 | active rows kept, inactive ones stripped for missing sources and deleted otherwise |
| `SourceStore.Store.ReconcileAllSources` | src/brain_sync/sync/lifecycle.py:1172-1327 | the whole pass with its fences and result lists |
| `Reconcile.PassFollowsFates` | src/brain_sync/sync/lifecycle.py:1190-1327 | a pass raises exactly when an unleased source is back without hashes; otherwise every manifest meets the fate its start state determines |
| `Reconcile.EveryManifestAccountedFor` | src/brain_sync/sync/lifecycle.py:1180-1327 | updated, unchanged, not found and reappeared add up to the number of manifests, and newly missing ones are among the not found |
| `Reconcile.SecondPassChangesNothing` | src/brain_sync/sync/lifecycle.py:1201-1311 | with the same files, no active lease and hashes where needed, a second pass changes no manifest and reports nothing updated, reappeared or newly missing |
| `ReconcileRows.RevalidationTells` | src/brain_sync/sync/lifecycle.py:332-354 | an unexpired lease keeps its row; otherwise a row stays only for a missing source, without its lease and with its observation times |
| `ReconcileRows.RowsFollowFates` | src/brain_sync/sync/lifecycle.py:1190-1327 | after a pass a source that is back is polled and has no row; one that is not there is not polled and was observed now, its first time kept; any other has both as before; nothing unregistered is polled |
| `ReconcileRows.UnregisteredRowsGo` | src/brain_sync/sync/lifecycle.py:1313-1327 | a polling row of an unregistered source is gone after a pass, unless the pass raised |
| `LifecycleRuns.FencedStepsRespectLeases` | src/brain_sync/runtime/repository.py:275-405 | no fenced step of anybody else changes a source whose unexpired lease names somebody, nor the lease |
| `LifecycleRuns.HoldLostExactlyWhen` | src/brain_sync/runtime/repository.py:1764-1882 | while an unexpired lease names somebody, a step of anybody else takes it away exactly when it deletes or strips the row |
| `LifecycleRuns.ManifestChangesExactlyWhen` | src/brain_sync/sync/lifecycle.py:308-329 | and changes the source's path, state or registration exactly when it is an unfenced write with something different to write, a registration or a deregistration |
| `LifecycleRuns.TakenOverCommitIsRefused` | src/brain_sync/runtime/repository.py:311-328 | once the row names somebody else, the old owner's commit is refused over every interleaving until it acquires again |
| `LifecycleRuns.BackedOverRuns` | src/brain_sync/runtime/repository.py:1764-1882 | every unexpired hold is what the row says, at every point of an interleaving, exactly when no move deletes or strips a row that somebody else holds |
| `LifecycleRuns.ExclusionOverRuns` | src/brain_sync/runtime/repository.py:1764-1882 | over every interleaving, two actors hold one source at once only if a row was deleted or stripped under somebody else's unexpired lease |
| `LifecycleRuns.HeldSourceOverRuns` | src/brain_sync/runtime/repository.py:1764-1882 | along such a run the next move of anybody else changes a held source's path, state or registration exactly when it is an unfenced write with something different to write |
| `LifecycleRuns.HoldersWriteAlone` | src/brain_sync/runtime/repository.py:1764-1882 | where the unfenced writes come from holders only, nobody else changes a held source |
| `LifecycleRuns.HolderCameSince` | src/brain_sync/sync/lifecycle.py:325-328 | once a row is deleted, somebody holds the source when its registration goes only if the lease was granted to them in between |
| `LifecycleRuns.SoundOverRuns` | src/brain_sync/brain/manifest.py:117-141 | every manifest stays valid over every interleaving, whatever happens to the leases |
| `LifecycleRuns.PollingOverRuns` | src/brain_sync/sync/lifecycle.py:369-1327 | polling rows belong to registered sources that are not missing, at every point of an interleaving, exactly when every step met its guard: a commit a registration, a progress save a live one, a deregistration no polling row, a settings write no missing state over one |
| `LifecycleRuns.LeaseWithoutExpiryIsTakeable` | src/brain_sync/runtime/repository.py:1345-1356 | a lease without expiry blocks every fence and yet can be taken |
| `LifecycleRuns.DeregistrationWindow` | src/brain_sync/sync/lifecycle.py:325-328 | a run in which a registration is deleted under another process's fresh lease |
| `LifecycleRuns.StaleRowDeletion` | src/brain_sync/sync/lifecycle.py:332-354 | a run in which reconcile deletes a row acquired after it looked, and two processes hold one source |
| `LifecycleRuns.OrphanPollingRow` | src/brain_sync/runtime/repository.py:1546-1555 | a run, with every lease respected, that leaves a polling row for a removed source |
| `LifecycleRuns.SettingsBringBackRegistration` | src/brain_sync/brain/repository.py:276-289 | a settings update that read the manifest before a removal brings the registration back |
| `LifecycleRuns.RemoveIsItsSteps` | src/brain_sync/sync/lifecycle.py:308-329 | uninterrupted, the steps of a removal are the command |
| `LifecycleRuns.SyncIsItsSteps` | src/brain_sync/sync/pipeline.py:371-465 | uninterrupted, the steps of a materializing sync are the command |
| `LifecycleRuns.MoveIsItsSteps` | src/brain_sync/sync/lifecycle.py:898-1054 | uninterrupted, the steps of a move, its lease renewals included, are the command |
| `LifecycleRuns.FinalizeIsItsSteps` | src/brain_sync/sync/finalization.py:156-180 | uninterrupted, the steps of a finalization are the command |

## Left out

- Source adapters, HTTP, OAuth, document conversion, the model subprocess and its output parsing: foreign calls, represented by their possible results.
- SQLite, schema migrations, processes, logging, configuration, telemetry and event records: a transaction is one step on maps, and records have no effect on state.
- Real file systems (long paths, fsync, case folding, symlinks), YAML and JSON encodings, regular expression engines beyond the patterns written out here.
- Paths are taken as already normalised; normalisation itself, and a trailing separator in a knowledge path, are not modelled.
- RegenEngine: one clock reading stands for all readings of a folder's call, the call runs without other sessions in between, and error texts are one opaque reason per call.
- RegenEngine: what is in a prompt does not enter the regeneration model; chunked invocation of oversized files is part of the model's answer.
- RegenEngine: the in-place repair of legacy journals before an append is only in `Journal`.
- RegenLocks.NoSharedPath: folder renames are not among the interleaved steps.
- RegenQueue: entries are kept in a map, so the order of the list of ready paths is not modelled; the code uses it only as a set and for its single element.
- RegenQueue: an enqueue while a batch is running is part of the traces of `QueueTiming`, not of a single method call of the class.
- Scheduler.Scheduler.Reschedule: the jitter is any value within 20%, not a random draw.
- PromptBudget.BuildWithinBudget: the instructions, templates, global context and existing summary are the text before and after the two packed sections; the diagnostics record is left out.
- PromptPlanner.PackFormattedFileParts: image placeholders and the other content preprocessing happen before packing and are left out.
- MarkdownChunks.SplitMarkdownChunks: white space and digits are the ASCII ones.
- Journal: headings use ASCII digits; appending an entry is `RegenEngine.Appended`, which keeps the entries as a list.
- PortableUndo: the migration of legacy attachment directories, whose moves are not exactly reversible, and directory creation are left out.
- AreaIndex: lower-casing, the paragraph split and heading extraction are arbitrary functions of the text; unreadable summaries are left out.
- KnowledgeTree.FindAllContentPaths: which files count as readable is decided by the tree given to it.
- Manifests: the fields outside the state contract (URL, type, attachment setting) are left out; file lookups by identity and by name prefix are given as maps, restricted to markdown files.
- Lifecycle.MoveArrives: the fallback file name is the source id with a suffix, and the moves of attachment directories are left out.
- Lifecycle.CommandKeepsInvariant: a sync without an owner id, which skips the lease check, is left out, and child discovery adds nothing beyond `Add`.
- SourceStore.Store.MoveOneSource: the moves of attachment directories and their undo are left out.
- LifecycleRuns: a manifest write of a repaired path or a new area reads and writes in one step; only the settings update has its read and its write apart.
- Circuit breakers, the table of polling intervals, doctor findings, placement scoring, tree rendering, area listing and the command line: presentation around the core.

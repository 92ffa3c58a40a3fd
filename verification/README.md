# pi-undo: a verified model

pi-undo takes a coding agent's workspace back and forth between snapshots, across crashes, without losing what other
programs wrote. This project models the parts of it that have to be right for that to be true, and proves them right
for every input, every interleaving and every point at which a process can stop.

- **Plan and passes** (`Trees`, `RestorePlan`, `ScopedRestore`, `RestoreOutcome`, `RestoreManifests`, `RestoreEngine`).
  Two trees with directories, files and symlinks are diffed into deletes and writes. Cut short anywhere, forward or
  backward, any number of times, a restore or its rollback still meets every check it makes, and the attempt that is not
  cut short lands exactly on its tree. Limited to some paths, on any workspace whatever, a restore that goes through has
  done what was planned, and it goes through exactly when what it would leave is a tree; what a manifest lists as
  ignored is spared in either direction. The batched passes do on any workspace what the plan does path by path.
- **One mutation** (`FileSystem`, `Quarantine`, `QuarantineBatch`). A file system of names, inodes and leaves; a
  workspace object whose methods make one system call or journal append at a time, each preceded by a turn of the
  world, which may stop the process or let another program change a name. `Recoverable` and `Forwardable` are the exact
  conditions under which rolling back and rolling forward finish, `Untouched` the one under which a replacement does; a
  run is `Stopped` only by a stop that it used up.
- **The log** (`Mutations`, `JournalLog`, `MutationJournal`, `PackedJournal`). The write-ahead log as text with a hash
  chain; appends torn at any character; a cache that never differs from a fresh read. What the reader accepts and what
  each writer does are said of the log itself: the intent and the state of every ordinal.
- **The native batch** (`NativeBatch`, `PackedRecovery`, `DurablePack`). Many entries in phases, their system calls
  interleaved by parallel workers and stopped anywhere; the rollback from the pack; the pack file itself.
- **The transaction** (`Saga`, `CursorMarkers`, `Compensation`, `History`). The controller's saga, its compensation and
  recovery as a step relation, with what every run keeps and where an operation, a compensation or a recovery ends when
  at most one turn goes wrong; the cursor marker that decides; the undo and redo stacks over whole trees.
- **The lock** (`WorkspaceLock`). Any number of processes, one file-system step at a time, dying at any point.
- **Fast forms** (`PathSearch`, `TreeScope`, `DirectoryScan`, `DirectoryReach`, `CanonicalJson`). Each is compared with
  the slow form it replaces, and the scan with what names lead to in the tree.

What the proofs turned up:

- The README of pi-undo (line 270) says a rollback puts the old content back. `Quarantine.KeepsTarget` is exactly the
  case in which it keeps the new content: the record is TARGET_VERIFIED and cleanup has already dropped the source
  artifact. `StoppedAfterDroppingSource` reaches it, and `RollbackKeepsTheTarget` ends with the new content. The same
  line's promise about an externally replaced file holds as far as its content goes (`ForeignTarget`); in that one case
  the record is closed all the same.
- Rolling back is refused over a half-written target artifact (`TornTargetIsRefused`), and for a registered delete of a
  leaf that was already absent, where `restoreMutation` unlinks a path that is not there (`AbsentDeleteIsRefused`).
  `Recoverable` excludes exactly these, and `RestoreMutation` finishes exactly from the configurations it admits.
- A packed rollback stopped while it writes the source bytes under a path is refused when run again
  (`HalfWrittenIsRefused`), and so is one whose last append was torn after a delete became CLEANED
  (`CleanedDeleteIsRefused`).
- The rollback of a restore takes the ignored files of the target for files that are there. Where the restore has
  removed a directory of such a name, the rollback does not make it again and raises; a restore that went through can
  be rolled back if and only if there is no such directory (`RollBackACompleteRestore`, with an example in
  `RollbackCanFail`).
- An undo into an edited workspace goes through if and only if the old entries at its paths, what else is there, and the
  directories that it cannot empty make up a tree (`GoesThroughIffATree`); it then ends there. A file put where one of
  their directories was makes it fail, and a new file in a directory that should go keeps that directory.
- `canTransition` alone lets an aborting or locked transaction start again (`CanTransitionGoesBack`); what the callers
  do never goes back (`PhasesNeverGoBack`).
- The fingerprint chains of a log can close although the workspace has changed: exactly when the last record of a path
  was rolled back (`IdentityMeansNoNetEffectUnlessRolledBack`, with an accepted log in `RolledBackRecordsMislead`).
- A lock holder that dies between writing its renewed record and renaming it leaves a directory that nobody ever
  reclaims (`StuckIsReachable`, `NobodyHoldsAStuckLock`). A dead owner can be replaced if and only if it did not die
  there (`ReplaceableIffNotStuck`), and, while no further process dies, only if its death can be confirmed
  (`ReplaceableWithoutDeathsIffConfirmable`).
- A compacted tree scope asks for too much exactly when a scope path lies below a leaf of the tree
  (`TreeScope.Compact`); the filter in `readTreeEntries` takes it out again (`ReadTreeEntries`).
- The directory cache is sound when stamps lag less than two seconds (`EventKeepsSound`); with any longer lag a
  repository can stay unseen (`LongerLagsAreTooMuch`).
- The TypeScript and the Rust encoder write different canonical JSON exactly when two keys of an object first differ in
  a character beyond the first Unicode plane against one behind the surrogates (`EncodersAgreeUnlessKeysClash`).

## Model

| member | source | states |
|---|---|---|
| RestoreManifests.ComputePlan | src/restore-engine.ts:241-319 | The planning loops list exactly the paths to delete, deepest first, but for those the target proves ignored or keeps above ignored files, and exactly the paths to write, directories before what they contain, within the scope |
| RestoreManifests.SortByDepthOrders | src/path-safety.ts:108-127 | Sorting by depth orders the paths in the chosen direction; with the function's own contract it is a permutation |
| RestorePlan.ShadowedMeans | src/restore-engine.ts:2048-2060 | The walk up the ancestors answers exactly whether the nearest ancestor that the tree holds as a leaf is present with that very content |
| RestorePlan.DeleteStepSucceeds | src/restore-engine.ts:1497-1538 | In any mixture of the two trees a planned delete passes every check and leaves a mixture of the two trees |
| RestorePlan.BeyondSymlinkIsShadowed | src/restore-engine.ts:1468-1476 | A planned path that is reached through a symlink is always recognised as shadowed, so no lookup fails on it |
| RestorePlan.DeletesClear | src/restore-engine.ts:1439-1495 | All deletes in their order leave a tree in which every remaining entry is the target's or will be overwritten in its own kind: every directory removed was empty |
| RestorePlan.WriteStepSucceeds | src/restore-engine.ts:1540-1619 | After the deletes every planned write whose parent is there passes every check, whatever part of the writes was done before |
| RestorePlan.WritesComplete | src/restore-engine.ts:1778-1835 | Directories first and then leaves, each write finds its parent, and the result is the target exactly |
| RestorePlan.PlanConverges | src/restore-engine.ts:1439-1495 | From any mixture of two trees, executing the plan from one to the other ends at the target tree exactly |
| RestorePlan.PlanTurnsCurrentIntoTarget | src/restore-engine.ts:241-319 | Executed in order, the plan turns the current tree into the target, kind changes included |
| RestorePlan.RollbackPlanReturns | src/restore-engine.ts:1621-1656 | From any state an interrupted restore can leave, the rollback plan returns to exactly the current tree |
| RestorePlan.PlanPathsAreTheDifference | src/restore-engine.ts:273-303 | A plan names a path if and only if the two trees differ there |
| RestorePlan.PlanPathsAreSymmetric | src/restore-engine.ts:273-303 | The plan there and the plan back name the same set of paths |
| RestorePlan.StepsTouchOnlyKnownContent | src/restore-engine.ts:1877-1903 | A step that changes a path found one of the two known entries there, or nothing where nothing is known |
| RestorePlan.StepsRefuseTheUnknown | src/restore-engine.ts:1497-1619 | On any workspace a step goes through if and only if it finds known content: a delete also over a symlink that is the target's own, a write only with its directory there and nothing vanished |
| ScopedRestore.ScopeReachesTheTargetIffItCoversTheDifference | src/restore-engine.ts:241-319 | A scoped plan between two trees reaches the target if and only if the scope holds every path at which they differ |
| ScopedRestore.ScopedRestoreSucceedsIffItFits | src/restore-engine.ts:1004-1012 | Restoring some paths of a workspace that may have changed anywhere else ends with the target's entries at those paths and the workspace's own elsewhere if and only if the two fit together in one tree |
| ScopedRestore.RunOnlyChangesTheScope | src/restore-engine.ts:1439-1495 | Whatever the workspace holds, a scoped restore that goes through leaves a tree and changes nothing outside its scope |
| RestoreOutcome.DoneMeansDone | src/restore-engine.ts:1540-1619 | On any workspace, a plan in depth order that goes through has written the target's entry at every path to write; every path to delete that the target does not list is gone, or a directory that still has a child; nothing else has changed |
| RestoreOutcome.GoesThroughIffATree | src/restore-engine.ts:1439-1619 | In any workspace that shows the source within the scope, a scoped restore goes through if and only if the target's entries in scope, the workspace's own elsewhere and the directories that cannot be emptied make up a tree, and then it ends at exactly that tree |
| ScopedRestore.InterruptedScopedRestoreSettles | src/restore-engine.ts:1621-1656 | Cut short after any step of any pass, a scoped restore of what fits has not failed; carrying on ends at the mixture, and the scoped rollback plan ends at the workspace as it was |
| ScopedRestore.SafetyBringsBack | src/controller.ts:948-985 | Restoring the safety snapshot brings the workspace back exactly, whatever the restore in between made of the scope |
| ScopedRestore.ChangedPathsScopeTheirOwnUndo | src/pi-runtime.ts:281-286 | The undo of a checkpoint, scoped to the changed paths its forward plan recorded, puts the old entries back in any workspace in which they fit and nowhere else; in the workspace the checkpoint left it restores the old tree exactly |
| RestoreEngine.RestoreRun.DeletePlannedPaths | src/restore-engine.ts:1439-1495 | On any workspace the batched delete pass has the result of deleting one path after another, though its checks run ahead of its effects: it is complete exactly when that goes through, raises only when that fails, and is interrupted only when the process stops |
| RestoreEngine.RestoreRun.WritePass | src/restore-engine.ts:1778-1835 | On any workspace the batched write pass has the result of writing one path after another, paths of ignored files being compared only; it raises only when that fails |
| RestoreEngine.RestoreRun.ApplyPlan | src/restore-engine.ts:1004-1012 | A whole attempt of a plan, scoped or not, on any workspace: complete, it has done what the plan does one path after another; raised, that fails; it is interrupted only when the process stops, having touched planned paths only |
| RestoreEngine.RunGoesThroughIffATree | src/restore-engine.ts:1439-1619 | On any workspace that shows the source within reach, an attempt that nothing interrupts goes through if and only if no directory is missing that it takes for an ignored file and what it would leave is a tree, at which it then ends |
| RestoreEngine.RunReachesTheGoal | src/restore-engine.ts:1004-1012 | Where the goal is a tree, an attempt from wherever earlier ones were cut short ends at the goal, or raises exactly when a directory is missing that it takes for an ignored file |
| RestoreEngine.TouchesStaysBetween | src/restore-engine.ts:1621-1656 | What an interrupted attempt has touched leaves the workspace between the two trees, so that the next attempt or the rollback can go on |
| RestoreEngine.RestoreRun.SettleAfterInterruptions | src/restore-engine.ts:1621-1656 | After any sequence of interrupted attempts in either direction, of a whole or a scoped restore, one that is not interrupted lands exactly on its tree: the target within what the restore may change, or the workspace as it was |
| RestoreEngine.RestoreRun.RollBackACompleteRestore | src/restore-engine.ts:1634-1665 | A restore that went through is rolled back to the workspace as it was if and only if no directory it removed lies where the target lists an ignored file; otherwise the rollback raises |
| RestoreEngine.RollbackCanFail | src/restore-engine.ts:1811-1815 | A workspace with the directory b, and a target that had the ignored file b: the restore fits, and its rollback has a directory it will not make |
| RestoreEngine.PlanWithinReach | src/restore-engine.ts:281-287 | Without the paths their ignored files spare, the plan of two manifests is the scoped plan within what the restore may change |
| RestoreEngine.SparedStays | src/restore-engine.ts:1811-1815 | At every moment of a restore that fits, a path spared for ignored files holds what the manifests say there |
| FileSystem.LinkCall | src/quarantine.ts:707-718 | The system's side of every install: it succeeds only under a free name, which then shares the inode, and changes nothing else; so no install overwrites |
| FileSystem.RenameCall | native/pi-undo-fs/src/file_batch.rs:285-325 | The same for the rename without replacement |
| Quarantine.Workspace.RestoreMutation | src/quarantine.ts:464-558 | Without other writers it is stopped only by a stop of the script, and otherwise finishes if and only if the configuration is recoverable, then the path holds the promised leaf, no artifact is left and the record is CLEANED; stopped at any step it leaves a recoverable configuration with the same promise; nothing else is touched; a file that someone put at the path with the target's very content, while the target artifact exists, stays, and the record stays active unless the target is kept anyway; with other writers it removes only the registered source or target from the path; over any other content at the path it is refused and changes nothing |
| Quarantine.Workspace.RestoreAbsentSource | src/quarantine.ts:487-502 | The same for a mutation that created its path |
| Quarantine.Workspace.RestorePresentSource | src/quarantine.ts:503-514 | The same for a mutation with a source to put back |
| Quarantine.Workspace.RestoreOverTarget | src/quarantine.ts:515-533 | The same when the path no longer shows the source |
| Quarantine.Workspace.PutSourceBack | src/quarantine.ts:534-558 | From a free path and a quarantined source, the reinstallation and its cleanup keep or fulfil the promise at every step |
| Quarantine.RollbackContinues | src/quarantine.ts:464-558 | A rollback may go on from any configuration that promises the same |
| Quarantine.Workspace.RemoveInstalledTarget | src/quarantine.ts:803-822 | The path is freed exactly when it shows the target and, while a target artifact exists, is that very inode |
| Quarantine.Workspace.CleanupRollbackTarget | src/quarantine.ts:734-742 | The target artifact goes if it holds the target; any other content stays and is refused |
| Quarantine.Workspace.RestoreUntilDone | src/quarantine.ts:464-558 | Rollbacks repeated until one is not stopped: with more attempts than stops one is not; from a recoverable configuration none is refused and the last leaves what the first could promise, over a half-written target artifact none finishes |
| Quarantine.Workspace.ReplaceFile | src/quarantine.ts:106-151 | Without other writers, unless a stop ends it, it completes if and only if path and artifact names hold what the plan says and the bytes are the announced ones; otherwise the path and the source artifact stay as they were. Stopped it leaves something a rollback can undo, and a record beyond INTENT has its target at the path; with other writers it removes only the registered source or target from the path |
| Quarantine.Workspace.ReplaceSymlinkOrDelete | src/quarantine.ts:355-412 | The same without a target artifact, for a symlink or a delete, of a leaf that is absent already too: it completes if and only if the path shows the source, its artifact name is free and the target is of the right kind |
| Quarantine.Workspace.Perform | src/quarantine.ts:130-148 | With the target ready, and unless a stop ends it, it completes if and only if the path shows the source and its artifact name is free; otherwise nothing changes, and whenever the record is beyond INTENT the target is installed |
| Quarantine.Workspace.QuarantineSource | src/quarantine.ts:689-732 | Unless a stop ends it, it completes if and only if the path shows the source and its artifact name is free; then the source is under the artifact name with the path free, or the stop in between can be rolled back |
| Quarantine.Workspace.InstallTarget | src/quarantine.ts:131-143 | Once the source is quarantined the target appears under the path, by a link that fails on an existing name |
| Quarantine.Workspace.CleanupMutation | src/quarantine.ts:639-667 | It completes, unless a stop ends it, if and only if the path holds the target and each artifact is gone or what the record says; stopped anywhere it keeps the path, and a rollback after it brings back the source exactly while the source artifact is still there; a record that is neither verified nor cleaned is refused untouched |
| Quarantine.Workspace.RollForwardMutation | src/quarantine.ts:560-637 | Unless a stop ends it, it finishes if and only if the configuration is forwardable, leaving the target at the path; stopped at any step it stays forwardable |
| Quarantine.UntouchedNamesFrame | src/quarantine.ts:464-558 | What a mutation promises depends on its own names only |
| QuarantineBatch.RestorePending | src/restore-engine.ts:2033-2046 | Rolling back all pending mutations, newest first, finishes, unless a stop ends it, if and only if every one of them is recoverable; stopped anywhere it keeps every promise, and when it finishes all are fulfilled |
| QuarantineBatch.OthersStayPending | src/restore-engine.ts:2033-2046 | Rolling back one mutation leaves the promises of all others alone |
| QuarantineBatch.Replace | src/quarantine.ts:106-151 | A replacement with its cleanup completes, unless stopped, if and only if path and artifact names hold what the plan says and the bytes are the announced ones, and otherwise leaves the path alone; stopped anywhere, nothing has changed, or the target artifact is half written, or a rollback brings back the old leaf, or the new one exactly when cleanup had dropped the quarantined source; not stopped, the new leaf is there and no artifact |
| QuarantineBatch.InterruptedReplacement | src/quarantine.ts:106-151 | A replacement stopped anywhere, then rolled back as often as it takes: with as many attempts as stops the rollback is not stopped, it finishes with the old or the new leaf at the path and no artifact, and it is refused only over a half-written target artifact, which is still there |
| QuarantineBatch.StoppedAfterDroppingSource | src/quarantine.ts:479-486 | The cleanup of a complete replacement, stopped after its first step, leaves the case in which a rollback keeps the target |
| QuarantineBatch.RollbackKeepsTheTarget | src/quarantine.ts:479-486 | Rolled back from there, the path keeps the new leaf and the record is CLEANED |
| QuarantineBatch.TornTargetIsRefused | src/quarantine.ts:464-558 | A replacement that dies while it writes the target artifact is refused its rollback |
| QuarantineBatch.AbsentDeleteIsRefused | src/quarantine.ts:464-558 | The delete of a leaf that is absent already completes, and its rollback is refused |
| JournalLog.FoldIsIndexed | src/mutation-journal.ts:230-289 | An accepted log indexes its records by ordinal and ends in its tail |
| JournalLog.ValidMeans | src/mutation-journal.ts:257-279 | A log is accepted if and only if each record is sealed, of this operation and chained to the one before, and begins the next ordinal at INTENT or takes the last record of its ordinal one state on, or to CLEANED, with the same intent; the reader then knows the last record of every ordinal |
| JournalLog.ReadsExactlyLogs | src/mutation-journal.ts:251-289 | Whatever the file holds, the reader takes it if and only if its complete lines decode to the records of an accepted log |
| JournalLog.CutsAreTheText | src/mutation-journal.ts:251-253 | The complete lines and the torn end put together are the text, and none of them holds a newline |
| JournalLog.BeginningAppends | src/mutation-journal.ts:81-107 | Intents are recorded if and only if every file write names its target artifact; the log then says what it said, followed by the intents in order at INTENT |
| JournalLog.AdvancingClimbs | src/mutation-journal.ts:146-183 | A batch of states is taken if and only if it asks known ordinals to go on strictly, state after state; each ordinal is then as many states on as were asked of it, with its intent |
| JournalLog.RollbackCleans | src/mutation-journal.ts:125-132 | A record can be closed if and only if it is there and not CLEANED; it then is CLEANED with its intent, and every other ordinal is as it was |
| JournalLog.TailChecksumPinsTheLog | src/mutation-journal.ts:257-262 | Two accepted logs with the same last checksum are the same log |
| JournalLog.AdvancedRecordsAreAccepted | src/mutation-journal.ts:146-183 | Whatever states a batch advances, a fresh reader accepts the records and folds them to the writer's own view |
| JournalLog.BegunRecordsAreAccepted | src/mutation-journal.ts:81-107 | The same for new intents, which extend the latest records in order |
| JournalLog.RollbackCleanedIsAccepted | src/mutation-journal.ts:125-132 | The reader accepts the one jump over states that a rollback makes |
| JournalLog.TornWrite | src/mutation-journal.ts:291-304 | A write torn after any number of characters is whole records and a rest without a newline |
| JournalLog.ReaderSeesTheWholeRecords | src/mutation-journal.ts:249-289 | The reader accepts a torn log and returns the fold of exactly its whole records, with the durable end where they end |
| MutationJournal.ValidFileReads | src/mutation-journal.ts:230-289 | Whatever writers and torn appends did, a fresh read succeeds and returns the fold of the complete records |
| MutationJournal.MutationJournal.ReadRecords | src/mutation-journal.ts:230-289 | The result is that of a fresh read, errors included, whether it came from the cache or not |
| MutationJournal.MutationJournal.Append | src/mutation-journal.ts:291-325 | Stopped at any point, the file holds the earlier records and a prefix of the new ones; completed, the torn end is gone, all are there, and the cache agrees with a fresh read |
| MutationJournal.MutationJournal.BeginMany | src/mutation-journal.ts:81-107 | It completes if and only if there are intents, every file write names its target artifact and no fault comes; then the log says what it said followed by the intents at INTENT. Stopped, a prefix of these is there; a refused call changes nothing |
| MutationJournal.MutationJournal.AdvanceBatch | src/mutation-journal.ts:146-183 | It completes if and only if every advance asks something of a known ordinal, what is asked of an ordinal are the states right after its own, and no fault comes; then every ordinal is as many states on as were asked of it, with its intent. Stopped, a prefix of the steps is there; a refused call changes nothing |
| MutationJournal.MutationJournal.MarkRollbackCleaned | src/mutation-journal.ts:125-132 | It completes if and only if the ordinal exists, is not CLEANED and no fault comes; then the log says CLEANED there, with the old intent, and what it said everywhere else; a refused call changes nothing |
| MutationJournal.OtherWritersOnlyOutdateTheCache | src/mutation-journal.ts:230-235 | Another writer can only outdate the cache, never make it wrong |
| PackedJournal.RecordsOnlyMoveForward | src/mutation-journal.ts:264-276 | Over every accepted log records never disappear, change their intent or go back |
| PackedJournal.EnsureIntents | src/packed-recovery.ts:137-154 | A log that does not follow the pack is refused untouched; otherwise the missing intents are added in pack order, a stop leaves a log that still follows the pack |
| PackedJournal.AllReachTheTarget | src/packed-recovery.ts:26-33 | The states still missing are strict steps that take every record to TARGET_VERIFIED at least |
| PackedJournal.Materialize | src/packed-recovery.ts:22-33 | Run from whatever an interrupted attempt left, it completes the intents and verifies every record; run again it appends nothing |
| NativeBatch.NextCall | native/pi-undo-fs/src/file_batch.rs:336-407 | On any workspace each system call takes an entry that holds what the plan says one stage on; one that does not is turned down at its third call at the latest, with nothing of it moved; a call touches only the entry's own names |
| NativeBatch.OthersKeepTheirCourse | native/pi-undo-fs/src/main.rs:965-1006 | A worker's call on one entry leaves every other entry on its course |
| NativeBatch.RunPhase | native/pi-undo-fs/src/main.rs:958-1006 | In any interleaving of the workers, on any workspace and stopped anywhere, every entry is on its course: at a stage of its own, or kept because it does not hold what the plan says; without a stop all reach the phase's end unless one of these turns it down |
| NativeBatch.RunRestore | native/pi-undo-fs/src/main.rs:299-330 | Batch after batch and phase after phase: finished batches are finished, later ones untouched; without a stop it is done if and only if every entry holds what the plan says |
| NativeBatch.ReserveNames | native/pi-undo-fs/src/main.rs:200-289 | The checks pass if and only if no two entries share a path or an artifact name and none of these names lies below another |
| NativeBatch.CutBatches | native/pi-undo-fs/src/main.rs:269-283 | It passes if and only if no path has more than 128 directories above it; each batch then needs at most 128 directory handles, and none could have taken the first entry of the next |
| NativeBatch.OpenParents | native/pi-undo-fs/src/file_batch.rs:64-96 | Opening the directories above a batch, each once, runs out of handles if and only if there are more than 128 of them |
| NativeBatch.RunRequest | native/pi-undo-fs/src/main.rs:172-330 | Entries that overlap, lie below one another or too deep, or are of a kind or with artifact names the batch does not support, are turned down before anything changes. All others, on any workspace and unless a stop ends it, are done if and only if each holds what the plan says, and then all are installed; an entry that does not keeps its path and source artifact; the entries under way are those of one batch within the limit of handles |
| PackedRecovery.StagesAreReversible | native/pi-undo-fs/src/file_batch.rs:336-387 | At every stage an entry with differing leaves can be rolled back, if and only if its target artifact is not half written |
| PackedRecovery.RollbackStep | src/packed-recovery.ts:189-263 | One step of rolling back a record: it is refused exactly over what is not reversible, and each step leaves what the next one expects, or bytes half written under the path |
| PackedRecovery.Normalize | src/packed-recovery.ts:189-263 | Unless a stop ends it, rolling back one record finishes exactly from the reversible configurations and leaves the source and no artifact; refused, it has changed nothing; stopped, it stays reversible or has bytes half written under the path |
| PackedRecovery.RollBackAll | src/packed-recovery.ts:341-362 | The workers' steps over all records in any order: after a failure no record is begun and those begun are finished; stopped anywhere, every record is at a step of its own |
| PackedRecovery.RestoredIsReversible | src/packed-recovery.ts:47-52 | A record rolled back once can be rolled back again, unless it is a delete marked CLEANED |
| PackedRecovery.RecoverPacked | src/packed-recovery.ts:35-86 | Whatever the order of its workers, and unless a stop ends it, the rollback is clean if and only if every record is reversible, and then every path holds its source, no artifact remains and all are CLEANED; refused, it has left each record as it was or rolled back, and one of those not reversible as it was; stopped before its append it can be run again |
| PackedRecovery.InterruptedBatch | native/pi-undo-fs/src/main.rs:299-330 | A batch turned down, finished, or stopped anywhere in any interleaving, and then undone from the pack: the workspace is as before the batch unless a further stop ends the rollback, or the batch was stopped and a target artifact was left half made, and still is |
| PackedRecovery.HalfWrittenIsRefused | src/packed-recovery.ts:189-263 | A rollback that dies while it writes the source under a free path is refused when run again |
| PackedRecovery.CleanedDeleteIsRefused | src/packed-recovery.ts:47-52 | The rollback of a delete whose last append stopped with all its records on disk is refused when run again |
| DurablePack.FileHandle.Writev | src/durable-pack.ts:633-656 | The operating system's side: it writes as much as it reports, and is never asked for more than the batch limits |
| DurablePack.Flush | src/durable-pack.ts:633-656 | It raises if and only if one of its calls reports nothing or more than it was given, having written a prefix of the batch; otherwise it has written the batch |
| DurablePack.WriteAll | src/durable-pack.ts:629-671 | Whatever short writes happen, exactly the concatenated buffers are written within the batch limits; it raises if and only if a call reports nothing or more than it was given, and then a prefix is written |
| DurablePack.VariantLoads | src/durable-pack.ts:296-318 | A variant is read from behind what comes before it if and only if its bytes are there |
| DurablePack.LoadPack | src/durable-pack.ts:265-332 | Whatever the file holds, contents that load have the fingerprints they are found under; a file with the front of a pack loads if and only if the whole payload follows, and then as what its creator kept in memory; cut short anywhere, a pack does not load |
| DurablePack.ResidentAnswers | src/durable-pack.ts:130-155 | A pack answers for each of its entries, and for no other path, with that entry's artifacts, fingerprints and variants |
| DurablePack.SourceAndTargetAreThere | src/durable-pack.ts:527-530 | The source of every entry, and its target if it has one, can be looked up and has that very fingerprint |
| DurablePack.CreatePack | src/durable-pack.ts:176-262 | It succeeds if and only if fingerprints and variants fit, the header is within its limit and every write makes progress; then one pass has written header and payload in the format the reader expects, and the pack is returned without reading it back |
| DurablePack.CreateThenLoad | src/durable-pack.ts:176-332 | Written through any short writes and loaded again, a pack is the one that was kept; entries that fit are written and loaded whenever every write makes progress |
| DurablePack.U32RoundTrip | src/durable-pack.ts:214-216 | The four big-endian bytes of the header length give it back |
| Saga.CanTransitionGoesBack | src/journal.ts:341-350 | The transition check lets exactly ABORTING and RECOVERY_REQUIRED go back to PREPARED, and lets CURSOR_COMMITTED be aborted |
| Saga.StepKeepsInv | src/controller.ts:909-1068 | Every step of operation, compensation, recovery and crash keeps what is known at each place |
| Saga.ForwardKeepsInv | src/controller.ts:987-1017 | The steps up to the verified files keep it, every kind of failure included |
| Saga.CursorKeepsInv | src/controller.ts:1018-1041 | The append of the cursor and the commit keep it, whether or not a raising write reached the disk |
| Saga.CompensateKeepsInv | src/controller.ts:1298-1326 | The compensation keeps it |
| Saga.RecoverKeepsInv | src/recovery.ts:59-150 | Recovery keeps it |
| Saga.DecideKeepsInv | src/recovery.ts:81-103 | The compensated shortcut and the decision by the marker keep it |
| Saga.CrashKeepsInv | src/controller.ts:1043-1054 | A crash at any step keeps it |
| Saga.TransactionsAreHonest | src/recovery.ts:59-150 | Over every run COMMITTED implies a cursor on disk and ABORTED none; a reported success, a safe failure and a recovery each leave session and scoped files on one and the same side |
| Saga.PhasesNeverGoBack | src/journal.ts:87-110 | Over every run a transaction's phase only advances, terminal phases are final, and a committed cursor can only become COMMITTED |
| Saga.UndisturbedOperationSucceeds | src/controller.ts:909-1068 | From idle and unlocked, an operation that nothing disturbs ends Succeeded with COMMITTED, the cursor, the leaf and the files on the target side, and the next one can begin |
| Saga.SmoothForward | src/controller.ts:987-1041 | So it does from any place on its way |
| Saga.OneDisturbance | src/controller.ts:987-1068 | Disturbed in any one turn, whatever it is, an operation succeeds, fails safely with ABORTED, or locks the history, each exactly under its condition on the place and the turn; a session at another leaf, or a cursor that cannot be told, is locked with RECOVERY_REQUIRED on disk |
| Saga.DeclinedMoveChangesNothing | src/controller.ts:990-998 | A user who declines the move of the session is left where he was after two writes of the journal |
| Saga.SmoothCompensation | src/controller.ts:1298-1326 | A compensation that nothing disturbs ends FailedSafe with ABORTED, leaf and files back |
| Saga.DisturbedCompensationLocks | src/controller.ts:1298-1326 | One that fails at any point locks the history, with RECOVERY_REQUIRED on disk unless the journal was never prepared or ABORTED had landed |
| Saga.SmoothRecovery | src/recovery.ts:59-150 | A recovery that nothing disturbs, with the leaf on the side the marker decides, ends Recovered on that side |
| Saga.RecoveryDecides | src/recovery.ts:59-150 | Whatever a crash left, a recovery whose turns go well ends exactly as assessment, marker and leaf say: skipped, recovered forward or back, or locked |
| CursorMarkers.Inspect | src/journal.ts:254-299 | Absent, match or conflict exactly according to whether the transaction is mentioned and all mentions are one fitting cursor, in whatever order and among whatever broken lines; a missing newline is reported exactly |
| Compensation.FoldsToIdentity | src/journal.ts:447-463 | On any records it answers exactly whether all are CLEANED, each record of a path starts from the target of the one before, and the last ends where the first started |
| Compensation.IdentityMeansNoNetEffectUnlessRolledBack | src/journal.ts:447-463 | Where the chains close, the workspace is as it was if and only if no path's last record was rolled back with its source differing from its target |
| Compensation.ExactWhenNothingWasRolledBack | src/journal.ts:447-463 | While no record was rolled back the chains always hold, and they close exactly when the workspace is as it was |
| Compensation.RolledBackRecordsMislead | src/journal.ts:447-463 | An accepted log of two mutations, the second rolled back: the fold answers that nothing changed, and the workspace has changed |
| History.Controller.PerformOperation | src/controller.ts:940-1041 | An undo or redo succeeds exactly when the stack is not empty and the scoped restore goes through; then workspace, stacks and cursor move together and the old tree, or the redo target, is there at every changed path, but for directories that are not empty; otherwise nothing changes |
| History.PerformedAtEveryPath | src/controller.ts:940-1041 | After an operation that succeeded every changed path holds what the tree it went to says, or is a directory that this tree does not list and that still has something in it; every other path is as it was |
| History.UndoRestoresTheChangedPaths | src/controller.ts:940-1041 | In a workspace edited anywhere an undo ends with the old entries at the changed paths and everything else untouched if and only if that is a tree |
| History.RedoUndoesUndo | src/controller.ts:940-1041 | After an undo that went through the redo goes through, and restores workspace and both stacks exactly, whatever was edited before the undo |
| History.UndosThenRedosRestore | src/controller.ts:940-1041 | So do k redos after k undos that went through, for every k |
| History.UndoKeepsInv | src/controller.ts:1392-1413 | After an undo each redo entry is still found by its prefix, and the cursor describes both stacks |
| History.HistoryKeepsInv | src/controller.ts:1392-1413 | Over every history of runs, edits, undos, redos and tree navigation |
| History.RebuildRedo | src/pi-runtime.ts:407-416 | After any history that ends in an undo or a redo, the rebuilt redo stack is the one in memory and the cursor's undo head is the top of the undo stack |
| WorkspaceLock.HolderSeesItself | src/workspace-lock.ts:177-198 | A running holder that looks for its owner file always finds it alone, so it is never told that it lost the lock |
| WorkspaceLock.PublishKeepsInv | src/workspace-lock.ts:113-133 | Publication by rename takes only a missing or empty directory, and then nobody holds the lock |
| WorkspaceLock.UnlinkKeepsInv | src/workspace-lock.ts:223-236 | The unlink of a reclaim hits the owner file of a dead task only |
| WorkspaceLock.StepKeepsInv | src/workspace-lock.ts:96-236 | Every step of every task, and every birth and death of a process, keeps the invariant |
| WorkspaceLock.MutualExclusion | src/workspace-lock.ts:96-236 | In every run of any number of processes at most one running task relies on the lock, and its owner file is there |
| WorkspaceLock.FinishedLeavesNothing | src/workspace-lock.ts:295-308 | While its process runs, a task that has finished has left no candidate, owner file or renewed record, and a holder has only its owner file |
| WorkspaceLock.ReleaseFreesTheLock | src/workspace-lock.ts:295-308 | A holder that releases, undisturbed, finishes with the lock directory gone, and a new attempt can then hold the lock |
| WorkspaceLock.TakesTheLock | src/workspace-lock.ts:104-133 | An attempt on a missing or empty lock directory ends holding it, with its own record and a lease from now |
| WorkspaceLock.AttemptInVain | src/workspace-lock.ts:104-142 | An attempt while another task holds the lock ends without it and leaves the directory as it was |
| WorkspaceLock.RenewalRenews | src/workspace-lock.ts:177-198 | An undisturbed renewal leaves the owner's record alone in the directory, with a lease from now |
| WorkspaceLock.RenewalExtendsTheLease | src/workspace-lock.ts:177-198 | Over every run that lease ends no earlier than the one before |
| WorkspaceLock.LeaseIsHonoured | src/workspace-lock.ts:200-236 | Over every run an owner's record stays until its lease has run out, even when the owner is dead, unless an attempt had read an earlier end of it |
| WorkspaceLock.YoungDirectoryStays | src/workspace-lock.ts:205-214 | An empty lock directory is removed only when it is older than a lease |
| WorkspaceLock.OthersLeaveTheHolderAlone | src/workspace-lock.ts:200-236 | No step of another task removes a running holder's owner file, even after its lease expired |
| WorkspaceLock.NobodyHoldsAStuckLock | src/workspace-lock.ts:177-198 | After a holder died in the middle of a renewal no task ever holds the lock again |
| WorkspaceLock.StuckIsReachable | src/workspace-lock.ts:177-198 | From any start a process can take the lock, begin a renewal and die so that the lock is stuck |
| WorkspaceLock.ReplaceableIffNotStuck | src/workspace-lock.ts:200-236 | In the directory of a dead owner some run lets a new attempt come to hold the lock if and only if the owner left no renewed record behind |
| WorkspaceLock.ReplaceableWithoutDeathsIffConfirmable | src/workspace-lock.ts:200-236 | Among the runs in which no further process dies, if and only if besides no running process has the owner's pid, or a task has confirmed the death before |
| PathSearch.LowerBound | src/path-safety.ts:152-164 | Everything before the index is smaller than the target, nothing from it on is |
| PathSearch.LowerBoundFindsThePrefix | src/path-safety.ts:101-103 | In a sorted list the lower bound of a prefix has that prefix if and only if some member has it |
| PathSearch.PathSetsOverlap | src/path-safety.ts:91-106 | Unsafe paths are refused; otherwise the answer is whether some pair is equal or one lies below the other |
| PathSearch.CandidatesLeadWhereTheySay | src/path-safety.ts:129-146 | A path counts as safe if and only if, besides its characters, resolving its parts one by one from the root goes along exactly these parts, so that it stays inside and has one spelling |
| PathSearch.IgnoredProofIndex.IsProtected | src/restore-engine.ts:2393-2420 | The same answer as a linear scan of the whole set |
| TreeScope.Contains | src/snapshot-store.ts:2852-2858 | Whether the scope holds the path, an ancestor of it, or everything |
| TreeScope.CommonAncestor | src/snapshot-store.ts:1900-1905 | The probed directory lies above every path of the scope, and every directory that does lies above it or is it |
| TreeScope.CompactedIsExactUnlessUndercut | src/snapshot-store.ts:1936-1955 | The compacted scope covers what the scope covers, and the leaves above a scope path that the scope leaves out, and no others |
| TreeScope.Compact | src/snapshot-store.ts:1894-1955 | The compacted query lists at least the scope's leaves, and exactly those if and only if no scope path lies below an uncovered leaf under the scope's deepest common ancestor |
| TreeScope.UndercutExample | src/snapshot-store.ts:1936-1955 | A tree and a scope for which the compacted query asks for one leaf too many |
| TreeScope.ReadTreeEntries | src/snapshot-store.ts:1845-1870 | The entries are exactly the leaves the scope covers, compacted or not, probe failed or not |
| DirectoryScan.Scan | native/pi-undo-fs/src/scan_directories.rs:140-246 | A quiescent scan answers what its cache makes it answer; with any sound cache that is what a scan without a cache answers, and the cache it leaves is sound |
| DirectoryScan.SoundScans | native/pi-undo-fs/src/scan_directories.rs:140-246 | The scan through a sound cache and the scan without one are the same: count, repositories in order, and depth failures |
| DirectoryReach.ScanFindsTheRepositories | native/pi-undo-fs/src/scan_directories.rs:140-246 | A scan goes through if and only if no path of subdirectories is deeper than the limit; it then counts every directory that names lead to, once, and lists exactly those below the root that hold a .git in any letter case |
| DirectoryReach.FailsIffTooDeep | native/pi-undo-fs/src/scan_directories.rs:147-152 | The scan of any directory at any depth fails if and only if something below it is too deep |
| DirectoryScan.EventKeepsSound | native/pi-undo-fs/src/scan_directories.rs:287-313 | A change stamped less than two seconds behind the clock cannot make a cached directory look valid |
| DirectoryScan.CachesStaySound | native/pi-undo-fs/src/scan_directories.rs:267-313 | Over any sequence of changes a cache stays sound |
| DirectoryScan.ScanTwice | native/pi-undo-fs/src/scan_directories.rs:140-246 | After any changes a scan reusing an earlier scan's cache equals a scan with none: count, repositories and depth failures |
| DirectoryScan.LongerLagsAreTooMuch | native/pi-undo-fs/src/scan_directories.rs:296-313 | With any longer lag a sound cache with an entry for the root can miss a new repository: the cached scan answers none, the scan without a cache finds it |
| CanonicalJson.ParseUndoesEncode | src/encoding.ts:235-306 | A decoder gives back every value from its encoding in either key order |
| CanonicalJson.EncodeIsInjective | src/encoding.ts:235-306 | Different values never share an encoding, in either key order |
| CanonicalJson.EncodeHasNoNewline | src/encoding.ts:235-306 | An encoding is a single line |
| CanonicalJson.OneAscendingList | src/encoding.ts:297-302 | The ascending list of an object's keys is unique in either order, so the order of insertion does not matter |
| CanonicalJson.EncodeJson | src/encoding.ts:235-306 | The program that sorts keys found in any order, by UTF-16 code units as in TypeScript or by bytes as in Rust, computes the one encoding of that key order |
| CanonicalJson.UnescapeUndoesEscape | src/encoding.ts:243-244 | Every escaped character is read back, with whatever follows it |
| CanonicalJson.EscapeIsShortest | src/encoding.ts:243-244 | No text that reads back as a string is shorter than its escaped form |
| CanonicalJson.CodesCompare | src/encoding.ts:297-302 | The units of two characters, in UTF-16 or UTF-8, compare as the characters do, except that UTF-16 puts those beyond the first plane before its last ones |
| CanonicalJson.OrdersAgreeUnlessClash | native/pi-undo-fs/src/main.rs:1024-1026 | The two key orders differ on two strings if and only if these first differ in such a pair of characters |
| CanonicalJson.EncodersAgreeUnlessKeysClash | native/pi-undo-fs/src/main.rs:1008-1038 | The Rust encoder writes what the TypeScript encoder writes if and only if no two keys of one object are such a pair, anywhere in the value |
| CanonicalJson.AsciiKeysAgree | native/pi-undo-fs/src/main.rs:1008-1038 | For ASCII keys, such as those of a pack's header, the two encoders always agree |
| CanonicalJson.EncodersCanDiffer | native/pi-undo-fs/src/main.rs:1024-1026 | An object on which they do not |

## Left out

- Git, SHA-256 and JSON records: trees and blobs are given values; fingerprints and checksums stand for the values they
  hash; the log's record codec is a parameter that must be faithful, as `CanonicalJson` shows canonical JSON to be.
- fsync and the reordering of writes by a power loss: a crash keeps every completed step; only the last append or file
  write may be torn.
- Directories in `FileSystem`: the quarantine and the native batch are modelled on leaves; directories are planned,
  made and removed in `RestorePlan`, which the log does not record either.
- Nested repository roots, topology checks, the enumeration of visible paths and target verification around a restore;
  the order of equal depths in a plan is any order, batches are cut by root name and size as given functions.
- RestoreEngine.RestoreRun.ApplyPlan: checks of the whole workspace before and after the passes are not part of it. The
  index that answers for ignored paths is `PathSearch.IgnoredProofIndex`.
- ScopedRestore.ScopedRestoreSucceedsIffItFits: a capture lists every directory in reach of its scope, while a manifest
  lists a directory only as the parent of a leaf; so empty directories are not modelled as the source treats them. When
  the result is no tree the source may also find out by its last enumeration of visible paths.
- QuarantineBatch.RestorePending: the pending mutations have no name in common, because an operation cleans up each
  mutation, or each batch, before it begins the next on the same path.
- `replaceFiles`, `deleteFiles`: their phases over many files are those of the native batch; they are not modelled a
  second time.
- Artifact nonces are parameters, taken to be fresh as `artifactPaths` makes them; other programs keep off artifact
  names and act between a check and the system call it guards in the steps listed, not inside one.
- PackedRecovery.RecoverPacked: the decision to roll back is given; roll-forward from the pack and
  `cleanupPackedMutations` are not modelled.
- NativeBatch.RunRequest: that the directories above an entry exist and stay what they are is taken for granted; the
  form of paths beyond their names, and the mode that only verifies, are not modelled.
- MutationJournal.MutationJournal.ReadRecords: that the journal file's stamp changes with its content, and never comes
  back, is an assumption; it is what the source's cache rests on.
- DurablePack.CreatePack: sorting the entries and checking the form of paths, artifact names and digests are not
  modelled; the entries come in pack order. The temporary file and its rename are not modelled.
- The saga models one session: foreign sessions' transactions and the tree navigation's own saga are left out. It
  assumes that appending a cursor raises no cancellation after the marker is on disk, and that only the controller
  moves the session leaf while an operation or a recovery runs.
- Compensation.IdentityMeansNoNetEffectUnlessRolledBack: whether a record was rolled back is given with the run; the
  latest records alone do not show it.
- History.RebuildRedo: the undo stack that `checkpointFrontierById` rebuilds is not claimed to be the one in memory; it
  can be shorter.
- History.Controller.PerformOperation: a restore that fails is taken as taken back; how it is, or is not, is the subject
  of `Saga` and of the rollback plans.
- The lock's in-process queue, legacy `owner.json`, waiting and timeouts; whether an empty directory is older than a
  lease is left open at each step.
- PathSearch.LowerBound: strings compare character by character, where JavaScript compares UTF-16 code units; sorting
  and searching use one and the same order in either case.
- DirectoryScan.Scan: an unchanged directory is taken to list its entries in the same order again; the resident scan
  service with its event stream is not modelled, because its cache ignores the racy flag.
- CanonicalJson.EncodeJson: numbers are integers and characters are Unicode scalar values, so lone surrogates do not
  occur; cyclic and sparse inputs, which the source refuses, do not exist among the model's values.
- Timing, diagnostics, deferred prompts, garbage collection and field-by-field validators.

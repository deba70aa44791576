# LevelDB: a verified model of the storage engine

This project models the log-structured merge engine of LevelDB 1.18 in Dafny and proves
what its parts promise one another: that compaction, level-by-level lookup and crash
recovery all agree with one simple reading of the database; that the iterators are
cursors over sorted sequences under any mix of calls; that the byte formats can be read
back; and that the concurrent and pointer structures keep their invariants at every step.

The specification of a read is short: the value of a key at a snapshot is that of the
entry with the greatest sequence number not above the snapshot, and a deletion means
absent (`InternalKeys.Read`).

Verify everything with `dafny verify dfyconfig.toml`.

## Layers

**Engine as a state machine.** `InternalKeys`, `Version`, `Compaction`, `CompactionInputs`,
`FlushLevel`, `LsmEdits`, `CleanCuts`, `Lsm`, `LsmInvariant` and `LsmReads` cover group
writes, memtable switches, flushes, trivial moves and two-phase compactions over seven
levels. The main results are `LsmInvariant.NextKeepsInv`, `LsmReads.SnapshotIsStable`,
`LsmReads.LatestIsLastWritten` and `LsmReads.Get`. `CleanCutLimits` shows what goes wrong
outside the preconditions below, `NestedFlush` settles flushes inside a compaction, and
`CompactionOutputs` leads from the compaction loop to the files it installs. `Recovery`, `RecoveryRuns` and `RecoveryReplay` add logs,
manifest, file deletion, crashes and reopening (`RecoveryRuns.DurableIffLogged`,
`RecoveryRuns.RecoveryRebuilds`). `Engine`, `EngineInvariant`, `EngineReopen` and
`EngineRuns` run both machines on the same entries: `EngineRuns.EveryRunReadsItsHistory`
says what a read returns in every run with crashes. `Manifest`, `ManifestReplay` and
`ManifestBytes` hold the version builder (`ManifestReplay.ReplayEqualsSteps`); `WriteQueue` the group commit (`WriteQueue.GroupCommit`,
`WriteQueue.LogBeforeMemtable`).

**Iterators.** `DbIter`, `MergingIter` and `TwoLevelIter` (with `Ranges`) are bidirectional cursors as
classes with the source's direction flag; each call's contract gives the new position in
one sorted sequence.

**Byte formats.** `Coding`, `Crc32c`, `LogFormat`, `LogWriter`, `LogReader`, `LogCorruption`, `WriteBatch`,
`EditFormat`, `BlockFormat`, `BlockBuilder`, `BlockIter`, `BlockRead`, `Comparator`, `Bloom`,
`FilterBlock`, `Table`, `TableBuilder`, `TableBytes` and `TableWriter`. The checksum is CRC32C, section 12.1 of RFC 3720.

**Concurrent and pointer structures.** `SkipList` takes an insertion one pointer store at
a time with a reader, forward or backward, interleaved anywhere (`SkipList.InsertInserts`, `SkipList.SearchNeverMisses`); `HandleTable` and `LruCache` keep hash chains
and a circular list explicit as maps from address to address; `SnapshotList` shares the
list lemmas of `Links`.

## Preconditions the code relies on without checking

- **Clean cut.** For levels from 1 the inputs of a compaction are chosen by user-key range
  and not extended to an adjacent file that continues the user key they end on, although
  the compaction loop may split a user key across files. The engine model requires a clean
  cut of both levels. `CleanCuts.CleanCutIffNoSplit` gives the condition in terms of file
  bounds; `CleanCutLimits.MoveKeepsVersionIff` shows that a trivial move needs exactly
  this, `CleanCutLimits.CompactionKeepsVersionIff` what a merging compaction needs;
  `CleanCutLimits.SplitMoveHidesNewest` and `CleanCutLimits.DroppedDeletionResurfaces`
  are versions where the engine's own choice breaks a read.
- **Flush inside a compaction.** The level picked for a memtable is checked against
  individual files only. The model requires a file that lands in the output level of a
  running compaction to miss the hull of its inputs. `NestedFlush.MissesAllIff` shows that
  this is exactly what keeps it apart from every possible output,
  `NestedFlush.NestedInstallIff` what the actual outputs must do, and
  `NestedFlush.NestedFlushOverlaps` a flush that passes the code's check and does not.
- **Manifest edits.** A file number fixes its metadata, and an edit adds no number that the
  level still holds; `Manifest.SavedStrictIff` gives the exact consequence.
- Sequence numbers stay below the 56-bit maximum, internal keys are unique, stored keys
  parse, and input and output succeed except for crashes.

Where code and comments disagree the model follows the code. One case: recovery marks the
manifest's log number as used and then resets the file counter from the manifest, so the
marking has no effect; what keeps later numbers safe is that the log number in a manifest
is always below its next file number, which is part of the recovery invariant.

User keys of the engine layer are reals: the engine only compares user keys, and every
countable total order embeds in the reals. The format layers use byte strings and the
bytewise comparator.

## Model

| member | source | states |
|---|---|---|
| `InternalKeys.BeforeIsStrictTotalOrder` | LevelDB/db/dbformat.cc:50-66 | the internal-key comparator is a strict total order on (user key, tag) |
| `InternalKeys.NewestExists` | LevelDB/db/db_impl.cc:1077-1122 | for every set of entries, key and snapshot there is either no visible entry or a newest one, so the read specification is total |
| `InternalKeys.SearchRunFindsNewest` | LevelDB/db/memtable.cc:108-143 | seeking (key, snapshot) in a sorted run and checking the user key finds exactly the newest visible entry of the run, or shows that there is none |
| `Version.FindFile` | LevelDB/db/version_set.cc:77-96 | the binary search returns the first file whose largest key is not before the target |
| `Version.SomeFileOverlapsRange` | LevelDB/db/version_set.cc:112-141 | the binary search over a disjoint level answers exactly like a scan of all files, for open and closed ends |
| `Version.SortNewestFirst` | LevelDB/db/version_set.cc:274-276 | the overlapping level-0 files come out in decreasing file-number order, the same files |
| `Version.SearchLevel0` | LevelDB/db/version_set.cc:349-365 | probing the overlapping level-0 files newest first and stopping at the first hit finds the newest visible entry of the whole level |
| `Version.SearchDeeperLevel` | LevelDB/db/version_set.cc:366-384 | one binary-searched file answers for a whole sorted level |
| `Version.Get` | LevelDB/db/version_set.cc:323-420 | stopping at the first level that knows the key returns the entry with the greatest sequence number not above the snapshot over all files, or none exists |
| `Version.FirstHitIsNewest` | LevelDB/db/version_set.cc:337-420 | recency between levels makes the first hit the newest of the union |
| `Compaction.CompactionPreservesReadsIff` | LevelDB/db/db_impl.cc:906-947 | reads of every key at every snapshot from the floor on are the same before and after the dropping rules if and only if no dropped deletion covers a live value outside the inputs |
| `Compaction.PreservedAt` | LevelDB/db/db_impl.cc:906-947 | the same for one key and snapshot, with the entries outside the inputs arbitrary |
| `Compaction.ReadAfterDroppedMarker` | LevelDB/db/db_impl.cc:923-942 | what a reader sees once a visible deletion has been dropped: the rest of the database at the floor |
| `Compaction.DropsIsNotSurvives` | LevelDB/db/db_impl.cc:906-947 | comparing only with the previous entry of the merge finds every entry hidden by a newer one at or below the floor, and every obsolete deletion |
| `Compaction.KeptAreSurvivors` | LevelDB/db/db_impl.cc:895-976 | the entries kept by the loop are exactly the survivors of the dropping rules, in order |
| `Compaction.Compaction.IsBaseLevelForKey` | LevelDB/db/version_set.cc:1434-1453 | on non-decreasing keys the advancing per-level pointers answer exactly like a stateless scan of all files two or more levels down |
| `Compaction.ShouldDrop` | LevelDB/db/db_impl.cc:906-947 | the drop decision made from the running state equals the stateless one |
| `Compaction.DoCompactionWork` | LevelDB/db/db_impl.cc:868-976 | the outputs, concatenated, are the surviving entries in order, none is empty, and a file ends exactly where it was big enough after its last entry or the overlap test fired before the next one kept |
| `Compaction.RunsFlatten` | LevelDB/db/db_impl.cc:895-976 | cutting the kept entries into files loses, adds and reorders nothing and leaves no file empty, for all cut decisions |
| `CompactionOutputs.RunsSorted` | LevelDB/db/db_impl.cc:895-976 | runs cut from the sorted kept entries are sorted and follow one another |
| `CompactionOutputs.LoopOutputsInstall` | LevelDB/db/db_impl.cc:782-832 | files built from the loop's runs, for any cut points, are well formed, sorted and disjoint, made of the inputs' entries, and hold exactly the survivors of the dropping rules: the guards of the install step |
| `CompactionOutputs.MakeFiles` | LevelDB/db/db_impl.cc:782-832 | each run becomes a file with its first and last key, under distinct numbers |
| `CompactionOutputs.Compact` | LevelDB/db/db_impl.cc:855-976 | a compaction from its merged input to its output files gives what the install step requires |
| `CompactionInputs.GetOverlappingInputs` | LevelDB/db/version_set.cc:522-563 | at level 0 the restarts end, and the result is exactly the files meeting the least range that contains the request and is closed under overlap; deeper, the files meeting the request |
| `CompactionInputs.WideningLowersOutside` | LevelDB/db/version_set.cc:546-559 | each restart leaves strictly fewer file ends outside the range: the termination argument |
| `CompactionInputs.GetRange` | LevelDB/db/version_set.cc:1176-1198 | the bounds are those of some inputs and no input lies outside them |
| `CompactionInputs.SetupOtherInputs` | LevelDB/db/version_set.cc:1297-1340 | the inputs of the next level are those overlapping the chosen files, and the chosen files are expanded if and only if that adds files, stays within the size limit and takes in as many files of the next level, which are then the same ones |
| `CompactionInputs.GoodExpansion` | LevelDB/db/version_set.cc:1313-1340 | an expansion that takes in as many files of the next level takes in the same ones, and at level 0 leaves out no overlapping file |
| `FlushLevel.PickLevelForMemTableOutput` | LevelDB/db/version_set.cc:493-519 | the level picked is at most 2, the file's range is clear of every file from level 0 down to it, every level passed has at most the allowed overlap two levels down, and the search stops no earlier than the rules make it |
| `LsmEdits.AddFlushedFile` | LevelDB/db/db_impl.cc:457-501 | adding a flushed memtable at an allowed level keeps the levels sorted, disjoint and ordered by age |
| `LsmEdits.InstallKeepsVersion` | LevelDB/db/db_impl.cc:834-853 | replacing compaction inputs by outputs keeps levels sorted and disjoint and shallower levels newer, key by key |
| `LsmEdits.ApartAndSortedIsSortedDisjoint` | LevelDB/db/version_set.cc:725-744 | files that pairwise miss each other, listed by smallest key, never trip the overlap assertions |
| `CleanCuts.CleanCutIffNoSplit` | LevelDB/db/version_set.cc:538-562 | whether a choice of files is a clean cut can be read off the file bounds: exactly when no chosen file ends on a user key that an unchosen one continues |
| `CleanCuts.ClosedChoiceIsCleanCut` | LevelDB/db/version_set.cc:546-559 | the level-0 closure always yields a clean cut |
| `CleanCuts.GoodInputsGiveJob` | LevelDB/db/version_set.cc:1297-1340 | with clean cuts, every file left out either holds newer entries for the inputs' keys or lies two or more levels down |
| `CleanCuts.JobHasNoResurrection` | LevelDB/db/db_impl.cc:931-942 | under those promises no dropped deletion uncovers an older value, whatever the memtables hold |
| `CleanCutLimits.MoveKeepsVersionIff` | LevelDB/db/db_impl.cc:684-697 | moving a single file down keeps the version searchable if and only if the cut is clean |
| `CleanCutLimits.InstallKeepsVersionIff` | LevelDB/db/version_set.cc:702-763 | for any inputs, installing outputs made of their entries keeps the version searchable if and only if the outputs miss the files that stay at their level and those that stay a level above are newer |
| `CleanCutLimits.CompactionKeepsVersionIff` | LevelDB/db/db_impl.cc:834-853 | for inputs the engine chooses only the second condition is left; the cut of the output level matters for dropped deletions only |
| `CleanCutLimits.SplitMoveHidesNewest` | LevelDB/db/db_impl.cc:684-697 | a valid version where the move the engine makes puts the newest value below an older one and the level-by-level lookup returns the older |
| `CleanCutLimits.DroppedDeletionResurfaces` | LevelDB/db/db_impl.cc:931-942 | a version where the inputs the engine picks drop a deletion while an older value of the key stays in the neighbouring file, and a deleted key reads as present |
| `NestedFlush.MissesAllIff` | LevelDB/db/db_impl.cc:886-895 | a flushed file that misses every input misses every possible output of the compaction if and only if it lies before all inputs or after all of them |
| `NestedFlush.EveryCuttingIff` | LevelDB/db/db_impl.cc:966-972 | it misses the outputs of every cutting of the kept entries if and only if it lies before all of them or after all of them |
| `NestedFlush.CutApart` | LevelDB/db/db_impl.cc:966-972 | for one cutting: an output misses it if and only if its entries are on one side |
| `NestedFlush.FlushOnlyAdds` | LevelDB/db/version_set.cc:493-519 | what a flush at the picked level adds, seen from a compaction that is running |
| `NestedFlush.NestedInstallIff` | LevelDB/db/db_impl.cc:834-853 | with memtables flushed since the inputs were chosen, the install keeps the version searchable if and only if no output has entries on both sides of a file flushed to its level |
| `NestedFlush.NestedFlushOverlaps` | LevelDB/db/db_impl.cc:886-895 | a witness: a flush that passes the level check and lies inside the range of the compaction's output, so the level cannot be disjoint |
| `LsmInvariant.WriteKeepsInv` | LevelDB/db/db_impl.cc:1162-1233 | a group write keeps the invariant |
| `LsmInvariant.FlushKeepsInv` | LevelDB/db/db_impl.cc:503-534 | a flush, also one inside a compaction that misses the hull of its inputs, keeps the invariant and every entry |
| `LsmInvariant.MoveKeepsInv` | LevelDB/db/db_impl.cc:684-697 | a trivial move with a clean cut keeps the invariant and every entry |
| `LsmInvariant.StartKeepsInv` | LevelDB/db/db_impl.cc:855-880 | a compaction starts in a state that keeps its promises until it is installed |
| `LsmInvariant.FinishKeepsInv` | LevelDB/db/db_impl.cc:834-853 | installing the results keeps the invariant |
| `LsmInvariant.NextKeepsInv` | LevelDB/db/version_set.cc:702-763 | every step keeps: levels from 1 sorted and disjoint; shallower levels, and higher-numbered level-0 files, strictly newer for each user key; memtables newer than all files; internal keys unique |
| `LsmReads.NextKeepsViews` | LevelDB/db/snapshot.h:38-57 | no step changes what a live snapshot, or the latest view until the next write, reads for any key |
| `LsmReads.ReachableInv` | LevelDB/db/db_impl.cc:655-738 | the invariant holds in every state of every run |
| `LsmReads.SnapshotIsStable` | LevelDB/db/db_impl.cc:1143-1151 | over whole runs of writes, flushes, moves and compactions a snapshot reads the same from the moment it is taken until it is released |
| `LsmReads.JobIsKept` | LevelDB/db/db_impl.cc:868-872 | a compaction works to its end with the version and the oldest snapshot of the moment it began |
| `LsmReads.CompactionKeepsOneOldEntry` | LevelDB/db/db_impl.cc:868-942 | in every run a compaction writes at most one entry of a user key at or below every snapshot live when it began, and that one is a deletion only if a file two or more levels down covers the key |
| `LsmReads.WriteUpdatesLatest` | LevelDB/db/db_impl.cc:1162-1233 | after a write the latest view is the old one with the batch applied in order |
| `LsmReads.LatestIsLastWritten` | LevelDB/db/db_impl.cc:1162-1233 | in every run the latest view is the map obtained by applying all written operations in order |
| `LsmReads.Get` | LevelDB/db/db_impl.cc:1077-1122 | the lookup through memtable, immutable memtable and levels returns the specified read of the union |
| `WriteQueue.BuildBatchGroup` | LevelDB/db/db_impl.cc:1237-1283 | the group is a prefix of the queue within the size limit, a non-sync leader absorbs no sync writer, its operations are the members' in order, and it stops only where a rule says so |
| `WriteQueue.NextKeepsInv` | LevelDB/db/db_impl.cc:1162-1233 | every enqueue, group start, log append, sync, memtable insertion and completion keeps the queue invariant |
| `WriteQueue.RunInv` | LevelDB/db/db_impl.cc:1162-1233 | the queue invariant holds in every interleaving |
| `WriteQueue.GroupCommit` | LevelDB/db/db_impl.cc:1162-1282 | in every interleaving: first come first served, the memtable holds exactly the operations of the groups that succeeded, once and in order, ranges of groups never overlap, and a sync writer never rides with a non-sync leader |
| `WriteQueue.LogBeforeMemtable` | LevelDB/db/db_impl.cc:1187-1212 | in every state of every interleaving: the log is the records of the appends that succeeded, once each, in service order and with their numbers; the memtable is a subsequence of it; after a failed sync nothing more is logged |
| `WriteQueue.LogIsAppends` | LevelDB/db/db_impl.cc:1192-1192 | the log read off the steps of the run alone |
| `WriteQueue.InsertedAfterLogged` | LevelDB/db/db_impl.cc:1192-1203 | a record enters the memtable only when it is already the last of the log, for a sync leader only when the whole log is on disk |
| `WriteQueue.AcknowledgedIsLogged` | LevelDB/db/db_impl.cc:1187-1226 | a group told that it succeeded has its record in the log, numbered from its start, and on disk if any of its writers asked for sync |
| `WriteQueue.FrontCanStep` | LevelDB/db/db_impl.cc:1162-1233 | while a writer is queued, the front writer or its leader has a step to take |
| `WriteQueue.WriterSlot` | LevelDB/db/write_batch.cc:111-145 | each writer of a group gets one contiguous run of sequence numbers, right after the writers queued before it |
| `WriteBatch.TakeOpRoundTrip` | LevelDB/db/write_batch.cc:98-109 | an encoded operation followed by anything decodes to that operation and the rest |
| `WriteBatch.BatchRoundTrip` | LevelDB/db/write_batch.cc:42-80 | decoding any sequence of encoded operations gives it back |
| `WriteBatch.EncodeConcat` | LevelDB/db/write_batch.cc:141-145 | concatenating encodings encodes the concatenation |
| `WriteBatch.HeaderReads` | LevelDB/db/write_batch.cc:82-96 | count and sequence read from the header are the number of operations and the batch's sequence number |
| `WriteBatch.Batch.constructor` | LevelDB/db/write_batch.cc:29-40 | a cleared batch holds no operation |
| `WriteBatch.Batch.SetSequence` | LevelDB/db/write_batch.cc:94-96 | patching the sequence number leaves the operations alone |
| `WriteBatch.Batch.Put` | LevelDB/db/write_batch.cc:98-103 | appends exactly one put and keeps the count right |
| `WriteBatch.Batch.Delete` | LevelDB/db/write_batch.cc:105-109 | appends exactly one deletion and keeps the count right |
| `WriteBatch.Batch.Append` | LevelDB/db/write_batch.cc:141-145 | the operations become those of this batch followed by those of the other |
| `WriteBatch.Iterate` | LevelDB/db/write_batch.cc:42-80 | on any bytes: delivers the operations before the first malformed one with consecutive sequence numbers, and reports exactly the error the format has |
| `WriteBatch.Batch.InsertInto` | LevelDB/db/write_batch.cc:111-134 | a batch built by Put, Delete and Append is delivered whole, in order, numbered from its sequence number, without error |
| `SnapshotList.SnapshotList.constructor` | LevelDB/db/snapshot.h:32-35 | a new list is empty |
| `SnapshotList.SnapshotList.Empty` | LevelDB/db/snapshot.h:37-37 | tells whether any snapshot is live |
| `SnapshotList.SnapshotList.Oldest` | LevelDB/db/snapshot.h:38-38 | no live snapshot has a smaller sequence number than the one returned |
| `SnapshotList.SnapshotList.New` | LevelDB/db/snapshot.h:41-50 | the circular list gains the snapshot at its newest end and stays ordered |
| `SnapshotList.SnapshotList.Delete` | LevelDB/db/snapshot.h:52-57 | the circular list loses exactly that snapshot and keeps its order |
| `Recovery.NextKeepsInv` | LevelDB/db/db_impl.cc:503-534 | every step of a running or recovering database keeps: older needed logs hold exactly the immutable memtable, the current log the memtable and the record in flight, and counters are above all in use |
| `Recovery.InstallFlushKeepsInv` | LevelDB/db/db_impl.cc:503-534 | moving the manifest's log number together with the new table keeps the invariant, also with counters read before the manifest write |
| `Recovery.InstallCompactionKeepsInv` | LevelDB/db/db_impl.cc:834-853 | installing compaction results keeps the invariant |
| `Recovery.DeleteKeepsInv` | LevelDB/db/db_impl.cc:218-272 | deleting obsolete files keeps the invariant |
| `Recovery.ReopenKeepsInv` | LevelDB/db/db_impl.cc:1445-1477 | reopening establishes the running invariant |
| `Recovery.FlushWrittenKeepsInv` | LevelDB/db/db_impl.cc:480-480 | a flushed table leaves the pending outputs before the manifest is written; nothing deletes it in between |
| `Recovery.SwitchKeepsInv` | LevelDB/db/db_impl.cc:1323-1343 | switching to a new log and memtable keeps the invariant |
| `RecoveryRuns.DurableIsPresent` | LevelDB/db/db_impl.cc:1162-1233 | in a running database, what recovery would rebuild is what the database holds plus at most the one record appended and not yet acknowledged |
| `RecoveryRuns.ReopenRebuilds` | LevelDB/db/db_impl.cc:274-357 | reopening holds exactly what was durable, and its last sequence number is at least every entry's |
| `RecoveryRuns.NextKeepsDurable` | LevelDB/db/db_impl.cc:218-272 | only an append adds a durable entry and only a compaction removes one: no flush, deletion, crash or unfinished recovery does |
| `RecoveryRuns.RunInv` | LevelDB/db/db_impl.cc:1445-1477 | the recovery invariant holds in every run from a new database |
| `RecoveryRuns.DurableIffLogged` | LevelDB/db/db_impl.cc:304-357 | at every point of every run, with any number of crashes and reopenings, the durable entries are exactly those appended and not dropped by a later compaction |
| `RecoveryRuns.RecoveryRebuilds` | LevelDB/db/db_impl.cc:274-357 | from a crash to the next successful open, however often recovery is cut short, the contents are those before the crash plus at most the record in flight |
| `RecoveryRuns.NextKeepsFiles` | LevelDB/db/db_impl.cc:218-272 | no step removes or rewrites a table that is live, pinned, pending or waiting for its install, nor a log that recovery needs |
| `RecoveryRuns.DeleteLeavesNoGarbage` | LevelDB/db/db_impl.cc:218-272 | after a deletion in any run the tables are those listed by the manifest, pinned or being produced, no log older than the manifest's is left, and what stays is unchanged |
| `RecoveryRuns.PinnedTablesStay` | LevelDB/db/version_set.cc:1137-1148 | a version pinned by a reader keeps all its tables, unchanged, as long as it is pinned |
| `RecoveryReplay.NextKeepsOrder` | LevelDB/db/db_impl.cc:1162-1233 | every step keeps sequence numbers increasing along each log and from log to log, with live tables older than every needed log |
| `RecoveryReplay.RunOrdered` | LevelDB/db/db_impl.cc:320-345 | so it is in every run |
| `RecoveryReplay.WriteLevel0Table` | LevelDB/db/db_impl.cc:457-501 | the memtable becomes the newest table under the next number; an empty one adds no table but uses the number |
| `RecoveryReplay.RecoverLogFile` | LevelDB/db/db_impl.cc:409-450 | replaying a log, split into memtables at any points, puts exactly its entries into new tables, newer ones under higher numbers, and finds the greatest sequence number |
| `RecoveryReplay.Recover` | LevelDB/db/db_impl.cc:304-357 | replaying the needed logs in order gives tables holding exactly their entries, a file counter past every log, and a last sequence number not below any entry |
| `RecoveryReplay.Open` | LevelDB/db/db_impl.cc:1445-1477 | from every state a crash can leave, opening performs the reopening step: contents are the durable entries, recovered tables are ordered by age and newer than the old ones |
| `EngineInvariant.LeftIsDurable` | LevelDB/db/db_impl.cc:1162-1233 | a crash leaves on disk exactly what memtables and levels held and the record in flight |
| `EngineInvariant.InstallFlushKeeps` | LevelDB/db/db_impl.cc:503-534 | the flush as one step on levels and files keeps both in agreement |
| `EngineInvariant.InstallCompactionKeeps` | LevelDB/db/db_impl.cc:834-853 | the same for the install of a compaction: the manifest's live tables stay those of the levels |
| `EngineInvariant.CrashKeeps` | LevelDB/db/db_impl.cc:274-357 | a crash at any moment leaves a disk from which the invariant can be restored |
| `EngineReopen.ReopenVersionOk` | LevelDB/db/db_impl.cc:1445-1477 | the reopened version is searchable: recovered level-0 files are newer than all others, and newer ones have higher numbers |
| `EngineReopen.ReopenEntries` | LevelDB/db/db_impl.cc:304-357 | the reopened database holds exactly what the process left, and its last sequence number is not below any of it |
| `EngineReopen.OpenMakesFiles` | LevelDB/db/db_impl.cc:409-450 | the tables that replaying makes meet what the reopening step requires |
| `EngineRuns.ActKeepsInv` | LevelDB/db/db_impl.cc:1445-1477 | every act of the whole engine, running or down, keeps memory, levels, logs and manifest in agreement |
| `EngineRuns.ActLatest` | LevelDB/db/db_impl.cc:1162-1233 | each act applies what it gains to the latest view and changes nothing else: a commit its operations, a crash those already in the log |
| `EngineRuns.RunInv` | LevelDB/db/db_impl.cc:1445-1477 | the invariant holds in every state of every run from a new database |
| `EngineRuns.EveryRunReadsItsHistory` | LevelDB/db/db_impl.cc:1445-1477 | in every run of writes, flushes, moves, compactions, file deletions, crashes, interrupted recoveries and reopenings, the open database is searchable and every key reads as the last operation written for it, over all acknowledged operations and those a crash found in the log |
| `EngineRuns.GetInRun` | LevelDB/db/db_impl.cc:1077-1122 | so does the lookup of the source, in every open state of every run |
| `Manifest.LastWordWins` | LevelDB/db/version_set.cc:930-973 | replaying edits from nothing leaves exactly the files whose last mention is an addition |
| `Manifest.ListingUnique` | LevelDB/db/version_set.cc:593-606 | a set of files has one listing in the builder's order |
| `Manifest.Insert` | LevelDB/db/version_set.cc:694-697 | inserting into the ordered set adds the file unless one with the same smallest key and number is there |
| `Manifest.SaveLevel` | LevelDB/db/version_set.cc:706-733 | merging base and added files yields both, without deleted ones, in the builder's order |
| `Manifest.SavedStrictIff` | LevelDB/db/version_set.cc:750-763 | the saved level is strictly ordered if and only if no surviving file is both in the base and added: re-adding a file the base still holds lists it twice |
| `Manifest.Builder.constructor` | LevelDB/db/version_set.cc:624-633 | a builder starts with nothing deleted or added |
| `Manifest.Builder.Apply` | LevelDB/db/version_set.cc:656-699 | deletions first, then additions that undo deletions of the same number |
| `Manifest.Builder.SaveTo` | LevelDB/db/version_set.cc:702-748 | each level is the merge of base and added files without the deleted |
| `ManifestReplay.LogAndApply` | LevelDB/db/version_set.cc:811-833 | a fresh builder turns a version into the files left by the edit, if the edit reuses no number of the level |
| `ManifestReplay.Recover` | LevelDB/db/version_set.cc:930-1006 | one builder over all edits gives the replayed levels; counters are those last set; a foreign comparator or a missing counter is an error |
| `ManifestReplay.WriteSnapshot` | LevelDB/db/version_set.cc:1054-1082 | the snapshot edit adds exactly the files of the version |
| `ManifestReplay.ReplayFollowsHistory` | LevelDB/db/version_set.cc:896-1006 | replaying a snapshot record and later edits follows the version history level by level |
| `ManifestReplay.ReplayEqualsSteps` | LevelDB/db/version_set.cc:896-1006 | one builder over a snapshot record and all later edits recovers exactly the version that separate builders left, file by file and in the same order |
| `ManifestReplay.MakesIsInstalled` | LevelDB/db/version_set.cc:702-763 | the builder's result is the installation that the state machine's steps use |
| `ManifestBytes.MeaningSays` | LevelDB/db/version_edit.cc:41-86 | the decoded edit deletes and adds exactly the files it lists |
| `ManifestBytes.DecodedLevels` | LevelDB/db/version_edit.cc:98-107 | whatever the bytes, a decoded edit names only existing levels |
| `ManifestBytes.RecoverRecords` | LevelDB/db/version_set.cc:896-1006 | recovery from the records of the manifest: the first corrupt record or foreign comparator fails it, otherwise the levels are those of replaying the decoded edits |
| `EditFormat.DecodeItem` | LevelDB/db/version_edit.cc:109-206 | decoding an encoded field, with anything after it, performs its update and continues after it |
| `EditFormat.EncodeTo` | LevelDB/db/version_edit.cc:41-86 | the bytes decode, into a fresh edit, to exactly this edit, in whatever order the deleted files come |
| `EditFormat.DecodeFrom` | LevelDB/db/version_edit.cc:109-210 | the loop computes the decoding function on every input, with the same errors |
| `DbIter.ShowsIsRead` | LevelDB/db/db_iter.cc:42-45 | an entry is shown exactly as the read specification says for its key |
| `DbIter.ReadIsShown` | LevelDB/db/db_iter.cc:42-45 | every key with a visible value is shown by one entry |
| `DbIter.DBIter.FindNextUserEntry` | LevelDB/db/db_iter.cc:173-203 | forward scan over hidden, deleted and overwritten entries to the next visible key |
| `DbIter.DBIter.FindPrevUserEntry` | LevelDB/db/db_iter.cc:232-272 | backward scan that keeps the newest visible value of the previous visible key |
| `DbIter.DBIter.Seek` | LevelDB/db/db_iter.cc:274-286 | stands on the first visible key not below the target, or is not valid if there is none |
| `DbIter.DBIter.SeekToFirst` | LevelDB/db/db_iter.cc:288-297 | stands on the first visible key |
| `DbIter.DBIter.SeekToLast` | LevelDB/db/db_iter.cc:299-304 | stands on the last visible key |
| `DbIter.DBIter.Next` | LevelDB/db/db_iter.cc:146-171 | moves to the next visible key, in either direction state |
| `DbIter.DBIter.Prev` | LevelDB/db/db_iter.cc:205-230 | moves to the previous visible key, in either direction state |
| `MergingIter.StepsThroughMerge` | LevelDB/table/merger.cc:59-112 | the key after the current one in the sorted merge is the least child key above it, and likewise backward |
| `MergingIter.MergingIterator.FindSmallest` | LevelDB/table/merger.cc:155-168 | current is the child with the least key |
| `MergingIter.MergingIterator.FindLargest` | LevelDB/table/merger.cc:170-183 | current is the child with the greatest key |
| `MergingIter.MergingIterator.SeekToFirst` | LevelDB/table/merger.cc:35-41 | stands on the first key of the merge |
| `MergingIter.MergingIterator.SeekToLast` | LevelDB/table/merger.cc:43-49 | stands on the last key of the merge |
| `MergingIter.MergingIterator.Seek` | LevelDB/table/merger.cc:51-57 | stands on the first key of the merge not before the target |
| `MergingIter.MergingIterator.Next` | LevelDB/table/merger.cc:59-83 | moves to the successor in the merge, repositioning the other children after a change of direction |
| `MergingIter.MergingIterator.Prev` | LevelDB/table/merger.cc:85-112 | moves to the predecessor in the merge, repositioning the other children after a change of direction |
| `TwoLevelIter.SeekThroughIndex` | LevelDB/table/two_level_iterator.cc:91-96 | the block chosen by the index key and the seek within it give the first entry of the concatenation not before the target |
| `TwoLevelIter.TwoLevelIterator.InitDataBlock` | LevelDB/table/two_level_iterator.cc:156-170 | the data iterator belongs to the block the index iterator stands on |
| `TwoLevelIter.TwoLevelIterator.SkipEmptyDataBlocksForward` | LevelDB/table/two_level_iterator.cc:125-136 | passes over empty and exhausted blocks without skipping an entry |
| `TwoLevelIter.TwoLevelIterator.SkipEmptyDataBlocksBackward` | LevelDB/table/two_level_iterator.cc:138-149 | the same backward |
| `TwoLevelIter.TwoLevelIterator.Seek` | LevelDB/table/two_level_iterator.cc:91-96 | stands on the first entry of the concatenation not before the target |
| `TwoLevelIter.TwoLevelIterator.SeekToFirst` | LevelDB/table/two_level_iterator.cc:98-103 | stands on the first entry of the concatenation |
| `TwoLevelIter.TwoLevelIterator.SeekToLast` | LevelDB/table/two_level_iterator.cc:105-110 | stands on the last entry of the concatenation |
| `TwoLevelIter.TwoLevelIterator.Next` | LevelDB/table/two_level_iterator.cc:112-116 | moves to the next entry of the concatenation, across empty blocks |
| `TwoLevelIter.TwoLevelIterator.Prev` | LevelDB/table/two_level_iterator.cc:118-123 | moves to the previous entry of the concatenation, across empty blocks |
| `Crc32c.Table0Basis` | LevelDB/util/crc32c.cc:16-81 | the generated table 0 has the source's constants at the powers of two |
| `Crc32c.Table1Basis` | LevelDB/util/crc32c.cc:82-147 | the same for table 1 |
| `Crc32c.Table2Basis` | LevelDB/util/crc32c.cc:148-213 | the same for table 2 |
| `Crc32c.Table3Basis` | LevelDB/util/crc32c.cc:214-279 | the same for table 3 |
| `Crc32c.TablesLinear` | LevelDB/util/crc32c.cc:16-279 | every entry is the exclusive or of the entries of its bits, so those at powers of two determine all |
| `Crc32c.TableStep` | LevelDB/util/crc32c.cc:286-329 | one table lookup advances the register by eight polynomial shifts |
| `Crc32c.FourSteps` | LevelDB/util/crc32c.cc:296-304 | one four-table step equals four byte steps |
| `Crc32c.Extend` | LevelDB/util/crc32c.cc:286-329 | for every buffer, start alignment and initial value, the aligned 16-, 4- and 1-byte loops compute the byte-at-a-time fold |
| `Crc32c.CrcConcat` | LevelDB/util/crc32c.h:15-22 | extending by a and then by b equals extending by their concatenation |
| `Crc32c.OneByteChangesCrc` | LevelDB/util/crc32c.cc:286-329 | changing one byte of a buffer always changes its checksum: the polynomial division is injective |
| `Crc32c.ZerosVector` | LevelDB/util/crc32c_test.cc:14-18 | 32 zero bytes have the checksum of appendix B.4 of RFC 3720 |
| `Crc32c.UnmaskMask` | LevelDB/util/crc32c.h:31-40 | unmasking undoes masking |
| `Crc32c.MaskUnmask` | LevelDB/util/crc32c.h:31-40 | masking undoes unmasking |
| `Crc32c.MaskValues` | LevelDB/util/crc32c.h:24-34 | the mask at three bit patterns: the constant added and the distance of the rotation |
| `LogFormat.ChecksumMatches` | LevelDB/db/log_writer.cc:75-100 | the checksum stored in a header is the one the reader computes over type and payload |
| `LogWriter.Writer.AddRecord` | LevelDB/db/log_writer.cc:27-73 | the file gains exactly the fragments of the record, with block trailers filled with zeros |
| `LogWriter.Writer.EmitPhysicalRecord` | LevelDB/db/log_writer.cc:75-100 | appends one header and payload and advances the block offset |
| `LogReader.Reader.ReadPhysicalRecord` | LevelDB/db/log_reader.cc:181-263 | block-buffered reading equals reading the physical record at the current file position |
| `LogReader.Reader.ReadRecord` | LevelDB/db/log_reader.cc:59-164 | assembling fragments from the buffered file equals the record function of the file position, including what it reports |
| `LogReader.EmitRead` | LevelDB/db/log_reader.cc:59-164 | the reader gives back a record written at any block offset |
| `LogReader.CutLogReadsBack` | LevelDB/db/log_reader.cc:181-263 | a log cut at any byte reads back as exactly the records written in full, in order, with no corruption reported |
| `LogReader.LogRoundTrip` | LevelDB/db/log_reader.cc:59-164 | an uncut log reads back as all its records, with no corruption reported |
| `LogCorruption.ByteIsThere` | LevelDB/db/log_writer.cc:29-73 | every payload byte of every record lies where the position function says |
| `LogCorruption.ChangedByteIsReported` | LevelDB/db/log_reader.cc:236-248 | change any one payload byte of any log: the reader reports a corruption and returns exactly the records before the one changed and those beginning after the block of the byte, never the altered record |
| `LogCorruption.AlteredFragments` | LevelDB/db/log_reader.cc:148-155 | a record with one byte changed is dropped with a report, wherever its fragments lie, and reading goes on at the next block |
| `LogCorruption.Resync` | LevelDB/db/log_reader.cc:111-134 | from a block boundary on, fragments without their beginning are passed over and reading resumes with the first record that begins there |
| `LogCorruption.ReportStays` | LevelDB/db/log_reader.cc:59-164 | an earlier report changes nothing of what is read later |
| `Coding.Fixed32RoundTrip` | LevelDB/util/coding.cc:9-18 | decoding undoes encoding of 32-bit words, with anything after them |
| `Coding.Fixed64RoundTrip` | LevelDB/util/coding.cc:20-33 | decoding undoes encoding of 64-bit words |
| `Coding.Varint32RoundTrip` | LevelDB/util/coding.cc:112-141 | every 32-bit value survives encoding and decoding, and the rest of the input is left |
| `Coding.Varint64RoundTrip` | LevelDB/util/coding.cc:143-170 | the same for 64-bit values |
| `Coding.EncodeVarint32` | LevelDB/util/coding.cc:47-73 | the five unrolled cases produce the base-128 digits of the value |
| `Coding.EncodeVarint64` | LevelDB/util/coding.cc:81-90 | the loop produces the base-128 digits of the value |
| `Coding.GetVarint32Ptr` | LevelDB/util/coding.cc:112-129 | the shift loop computes the decoding function on every input, truncating to 32 bits and giving up after five bytes or at the limit |
| `Coding.SliceRoundTrip` | LevelDB/util/coding.cc:182-192 | a length-prefixed string is read back, with the rest of the input left |
| `BlockFormat.FastPathAgrees` | LevelDB/table/block.cc:57-69 | the one-byte fast path reads the same three lengths as the varint path |
| `BlockFormat.EntryRoundTrip` | LevelDB/table/block.cc:53-74 | an encoded entry, with anything after it, decodes to its lengths, suffix and value |
| `BlockFormat.ReadEntry` | LevelDB/table/block.cc:226-248 | decoding at the offset of an entry gives its suffix and value and ends where the next entry starts |
| `BlockBuilder.Builder.SharedPrefix` | LevelDB/table/block_builder.cc:79-85 | finds the longest common prefix with the last key |
| `BlockBuilder.AddBuilt` | LevelDB/table/block_builder.cc:73-107 | adding a key extends the layout by one entry, with a restart point exactly after every `interval` entries and the longest shared prefix left out of every other key |
| `BlockBuilder.BuiltSize` | LevelDB/table/block_builder.cc:55-61 | the restart points are as many as the interval asks for, and the entries take at most their keys and values and 15 bytes each |
| `BlockBuilder.Builder.constructor` | LevelDB/table/block_builder.cc:39-46 | a new builder holds no entry and one restart point |
| `BlockBuilder.Builder.Add` | LevelDB/table/block_builder.cc:73-107 | the builder holds one more pair, laid out as the format requires |
| `BlockBuilder.Builder.Finish` | LevelDB/table/block_builder.cc:63-71 | the block is the entries, the restart offsets and their number, for exactly the pairs added |
| `BlockIter.OpensBuilt` | LevelDB/table/block.cc:23-38 | the restart array of a finished block is found where it is |
| `BlockIter.RestartPointIs` | LevelDB/table/block.cc:99-102 | restart point i is the offset of its entry |
| `BlockIter.Iter.ParseNextKey` | LevelDB/table/block.cc:226-253 | reconstructs key and value of the next pair and its restart region, without reporting corruption |
| `BlockIter.Iter.SeekToFirst` | LevelDB/table/block.cc:205-208 | stands on the first pair |
| `BlockIter.Iter.SeekToLast` | LevelDB/table/block.cc:210-215 | stands on the last pair |
| `BlockIter.Iter.Next` | LevelDB/table/block.cc:139-142 | moves from pair i to pair i + 1 |
| `BlockIter.Iter.Prev` | LevelDB/table/block.cc:144-163 | moves from pair i to pair i - 1, so it undoes Next; before the first pair it is not valid |
| `BlockIter.Iter.Seek` | LevelDB/table/block.cc:165-203 | restart-point binary search and linear scan stop at the first key not before the target, for every transitive order under which the keys increase |
| `BlockIter.Iter.Read` | LevelDB/table/block.cc:128-137 | validity, key and value are those of the pair the iterator stands on |
| `BlockIter.ReadAll` | LevelDB/table/block.cc:205-253 | iterating a finished block returns exactly the pairs added, in order |
| `Comparator.FindShortestSeparator` | LevelDB/util/comparator.cc:29-51 | the result is start or lies strictly between start and limit; it is cut after the first differing byte, raised by one, exactly when that byte is below 0xff and its successor below the limit's |
| `Comparator.FindShortSuccessor` | LevelDB/util/comparator.cc:53-65 | the result is not before the key; it is cut after the first byte that is not 0xff, raised by one, and is the key itself only if there is none |
| `Comparator.LessTotal` | LevelDB/util/comparator.cc:25-27 | bytewise comparison is total |
| `Comparator.KeyRoundTrip` | LevelDB/db/dbformat.cc:18-21 | splitting an encoded internal key gives back user key and tag |
| `Comparator.BeforeTotal` | LevelDB/db/dbformat.cc:50-66 | the internal-key order is total and asymmetric |
| `Comparator.FindShortestInternalSeparator` | LevelDB/db/dbformat.cc:68-85 | the index key is not before start, before limit, and either start itself or strictly between the two user keys, with the seek tag exactly when it is shorter |
| `Comparator.FindShortInternalSuccessor` | LevelDB/db/dbformat.cc:87-99 | the last index key is not before the last key, and shortened with the seek tag wherever that is shorter |
| `Bloom.CreateFilter` | LevelDB/util/bloom.cc:35-61 | a bit of the filter is set if and only if some key probes it, the array has the size of the policy, and the number of probes follows, for every hash function |
| `Bloom.FilterMatches` | LevelDB/util/bloom.cc:35-87 | a filter matches a key if and only if the keys put in set all its probes |
| `Bloom.KeyIsProbed` | LevelDB/util/bloom.cc:47-59 | a key put in has all its probes set |
| `Bloom.KeyMayMatch` | LevelDB/util/bloom.cc:63-87 | the probe loop decides exactly whether all probed bits are set, with the special cases for short filters and unknown encodings |
| `FilterBlock.Builder.GenerateFilter` | LevelDB/table/filter_block.cc:52-76 | closes the current filter as the one of exactly its keys; no keys leave an empty filter |
| `FilterBlock.Builder.StartBlock` | LevelDB/table/filter_block.cc:22-28 | closes filters up to the one for the block's 2 KB range without moving a key to another range |
| `FilterBlock.Builder.AddKey` | LevelDB/table/filter_block.cc:30-34 | the key joins the filter of the current range |
| `FilterBlock.Builder.Finish` | LevelDB/table/filter_block.cc:36-50 | filters, offsets, start of the offsets and base, with every filter the one of its keys |
| `FilterBlock.OpensFinished` | LevelDB/table/filter_block.cc:78-93 | the reader finds the offset array and the number of filters of a finished block |
| `FilterBlock.KeyMayMatch` | LevelDB/table/filter_block.cc:95-108 | decides by the filter of the block's range; malformed offsets count as matches |
| `FilterBlock.FilterIsExact` | LevelDB/table/filter_block.cc:22-108 | a key is ruled out for a block if and only if the keys added in the block's 2 KB range leave one of its probes unset |
| `FilterBlock.FilterNeverMisses` | LevelDB/table/filter_block.cc:22-108 | a key added while the builder was at a block's 2 KB range is never ruled out for a block at that offset |
| `Table.GapHoldsNoUser` | LevelDB/table/table_builder.cc:102-109 | between a block's last key and its shortened index key no later entry has the looked-up user key |
| `TableBuilder.Builder.constructor` | LevelDB/table/table_builder.cc:63-68 | a new table is empty and its filter builder stands at offset 0 |
| `TableBuilder.Builder.AddEntry` | LevelDB/table/table_builder.cc:92-116 | writes the pending index key once the next key is known, registers the key with the filter of its block, and keeps the table's invariant |
| `TableBuilder.Builder.Flush` | LevelDB/table/table_builder.cc:123-137 | writes the block out and leaves its index key pending |
| `TableBuilder.Builder.Finish` | LevelDB/table/table_builder.cc:199-241 | the finished table has sorted blocks, separating index keys and filters that rule out none of its keys, and holds exactly what was added |
| `TableBytes.HandleRoundTrip` | LevelDB/table/format.cc:15-30 | a block handle survives encoding and decoding |
| `BlockRead.WrittenReads` | LevelDB/table/format.cc:66-138 | a block written with its trailer is read back, with or without verifying its checksum |
| `BlockRead.ChangedByteIsReported` | LevelDB/table/format.cc:89-99 | change any one byte of a stored block, its type or its checksum: a verifying reader reports the mismatch |
| `TableBytes.DataBlockReads` | LevelDB/table/table.cc:226-255 | every data block of a table file passes its checksum and holds its entries |
| `TableBytes.IndexSorted` | LevelDB/table/table_builder.cc:101-109 | the shortened index keys increase strictly |
| `TableBytes.SeekBytes` | LevelDB/table/block.cc:165-203 | seeking in the bytes of a block under the internal-key order |
| `TableBytes.FindHandle` | LevelDB/table/table.cc:226-238 | the index block's bytes lead to the handle of the block to look in |
| `TableBytes.InternalGet` | LevelDB/table/table.cc:226-255 | on the bytes of a table, through shortened index keys and filters: an entry of the user key is reported if and only if it is the first entry of the whole table not before the lookup key |
| `TableWriter.EncodePairs` | LevelDB/table/block_builder.cc:63-107 | the bytes are the block of exactly the pairs, compressed and with restarts as the interval says; pairs whose keys and values, 15 bytes an entry, 4 a restart and 4 come to less than 2^32 are always encoded |
| `TableWriter.IndexBlockFits` | LevelDB/table/table_builder.cc:101-109 | shortened keys and handles of at most 20 bytes keep the index block within the weight of the entries |
| `TableWriter.Writer.constructor` | LevelDB/table/table_builder.cc:63-68 | an empty file for an empty table |
| `TableWriter.Writer.Add` | LevelDB/table/table_builder.cc:92-121 | one more entry, with the block written out when it is full |
| `TableWriter.Writer.Flush` | LevelDB/table/table_builder.cc:123-137 | the waiting block and its trailer are appended, and its handle finds it |
| `TableWriter.Writer.Finish` | LevelDB/table/table_builder.cc:199-241 | the file with its index and filter blocks meets what the lookup requires and holds exactly what was added; entries whose keys and values with 47 bytes each stay below 2^32 always make a table |
| `SkipList.LoadIsInitialised` | LevelDB/db/skiplist.h:261-281 | at every step of every interleaving, the link a reader is about to load has been initialised |
| `SkipList.NextKeepsInv` | LevelDB/db/skiplist.h:336-370 | each pointer store of an insertion, and each load of a reader, keeps every level sorted and contained in the level below |
| `SkipList.RunInv` | LevelDB/db/skiplist.h:336-370 | so it is in every interleaving |
| `SkipList.SearchNeverMisses` | LevelDB/db/skiplist.h:261-281 | a finished search, forward or backward, gives the right answer for the nodes linked at its last read; forward it never misses a key linked when it began, backward it returns nothing before a node it should have reached |
| `SkipList.InsertInserts` | LevelDB/db/skiplist.h:336-370 | in every interleaving, when the writer of an insertion is idle again one new node with the key is linked at every level below its height and at no other, and every other node is where it was |
| `SkipList.InsertedIsFound` | LevelDB/db/skiplist.h:261-370 | a forward search for the key that starts after the insertion returns that node |
| `SkipList.StoreCounts` | LevelDB/db/skiplist.h:336-370 | an insertion of height h ends after 2 h + 2 stores, whatever readers do |
| `SkipList.WriterCanStep` | LevelDB/db/skiplist.h:336-370 | an insertion under way always has a next store |
| `SkipList.LoadAdvances` | LevelDB/db/skiplist.h:261-281 | a load that does not end a search takes it to a later node of its level or down a level |
| `SkipList.FindGreaterOrEqual` | LevelDB/db/skiplist.h:261-281 | on a quiet list the search returns the first node not before the key and its predecessor at every level |
| `SkipList.FindLessThan` | LevelDB/db/skiplist.h:283-302 | on a quiet list the search returns the last node before the key |
| `HandleTable.MaskIsHome` | LevelDB/util/cache.cc:99-99 | masking a hash with a power of two less one takes the remainder |
| `HandleTable.Splice` | LevelDB/util/cache.cc:62-76 | redirecting one slot of a chain keeps the members before it and continues with the new tail |
| `HandleTable.KeysDistinct` | LevelDB/util/cache.cc:98-105 | two entries of the table never have the same hash and key |
| `HandleTable.Table.constructor` | LevelDB/util/cache.cc:55-55 | a new table has four empty buckets |
| `HandleTable.Table.FindPointer` | LevelDB/util/cache.cc:98-105 | returns the slot of the matching entry, or the trailing slot of its chain when there is none |
| `HandleTable.Table.Lookup` | LevelDB/util/cache.cc:58-60 | returns the entry with the key, or nothing if and only if none has it |
| `HandleTable.Table.Insert` | LevelDB/util/cache.cc:62-76 | the new entry takes the place of the one with its key, if any; nothing else changes, also when the table is resized, and there is never more than one entry to a bucket on average |
| `HandleTable.Table.Remove` | LevelDB/util/cache.cc:78-85 | takes out exactly the entry with the key, if any |
| `HandleTable.Resize` | LevelDB/util/cache.cc:107-131 | every entry is rehashed into its bucket, none is lost, and the number of buckets is a power of two not below the number of entries |
| `Links.RingRemove` | LevelDB/util/cache.cc:196-199 | unlinking a node leaves the circular list of the others, in both directions |
| `Links.RingAppend` | LevelDB/util/cache.cc:201-207 | linking a node before the head makes it the newest |
| `LruCache.UncacheAccounts` | LevelDB/util/cache.cc:186-194 | when the cache gives up an entry, references still count handles plus one if cached, and usage is the charge of all entries not freed |
| `LruCache.ReleaseAccounts` | LevelDB/util/cache.cc:186-194 | the same when a handle is released |
| `LruCache.AllocateAccounts` | LevelDB/util/cache.cc:230-240 | the same for a new entry with two references |
| `LruCache.LRUCache.constructor` | LevelDB/util/cache.cc:170-175 | an empty cache is valid |
| `LruCache.LRUCache.Unref` | LevelDB/util/cache.cc:186-194 | the deleter runs exactly when the last reference goes, and every entry ever made is alive or freed once |
| `LruCache.LRUCache.Lookup` | LevelDB/util/cache.cc:209-218 | a hit gains one handle and moves to the most recently used end, the others in their order; a miss means no cached entry has the key |
| `LruCache.LRUCache.Release` | LevelDB/util/cache.cc:220-223 | gives back one handle and frees the entry, with its charge, exactly if it was the last reference to an uncached entry |
| `LruCache.LRUCache.Insert` | LevelDB/util/cache.cc:225-256 | the entry is charged, comes last and displaces only the one with its key; then the fewest least recently used entries go that make the usage fit, none if it fits at once; no entry with a handle is freed |
| `LruCache.LRUCache.Evict` | LevelDB/util/cache.cc:248-253 | the entries left are the list less the shortest prefix whose unheld charges bring the usage within the capacity, and exactly the unheld of that prefix are freed |
| `LruCache.EvictsOnce` | LevelDB/util/cache.cc:248-253 | there is one such prefix, empty if the usage fits already |
| `LruCache.LRUCache.Erase` | LevelDB/util/cache.cc:258-265 | exactly the entry with the key leaves table and list, its charge with it if nobody holds it, and handles stay usable |

## Left out

- RecoveryReplay.RecoverLogFile: log records are decoded batches; records that are too small or malformed, paranoid checks and the legacy previous log number are not modelled.
- Recovery.NextKeepsInv: tables are sets of entries without levels, and a compaction may drop any entry; the levels and the dropping rules join in the Engine modules.
- Recovery.InstallFlushKeepsInv: says nothing of the level the table goes to; EngineInvariant.InstallFlushKeeps does.
- Recovery.InstallCompactionKeepsInv: leaves open which entries the outputs keep; EngineInvariant.InstallCompactionKeeps uses the survivors of the dropping rules.
- RecoveryReplay.Open: takes the sorted list of needed logs as a parameter instead of listing a directory; creating a new database is the initial state.
- Compaction.DoCompactionWork: speaks of runs of entries; the files made of them are the subject of CompactionOutputs.Compact.
- LsmInvariant.NextKeepsInv: one background thread, and the size decisions that start a switch, flush or compaction are left open, so the result holds for all of them.
- CompactionOutputs.Compact: the decisions to cut an output (size, overlap with grandparents) are arbitrary functions, the merged input is given, and corrupt keys are not modelled.
- LsmEdits.InstallKeepsVersion: a sufficient condition, used where the compaction's promises are known; the exact one is CleanCutLimits.InstallKeepsVersionIff.
- FlushLevel.PickLevelForMemTableOutput: the grandparent limit is modelled, but not that sizes are 64-bit.
- WriteQueue.GroupCommit: writers take steps between lock regions, an append that fails leaves no record, and inserting a batch into the memtable does not fail; spurious wake-ups of condition variables and the throttling sleep are not modelled.
- WriteBatch.Batch.Put: the operation count and each length stay below 2^32; beyond that the source wraps.
- SkipList.NextKeepsInv: sequential consistency; the writer's own search before its stores is one step, and the random height is a parameter.
- LogReader.CutLogReadsBack: initial offset 0 and checksums on; byte counts in corruption reports are not modelled.
- BlockIter.Iter.ParseNextKey: is stated for blocks made by the builder; the corruption branches for other bytes are not modelled.
- SkipList.FindLessThan: the search on a quiet list; the one with a writer at work is part of SkipList.SearchNeverMisses.
- TableBytes.InternalGet: the index and filter blocks are given apart from the file; the footer, the metaindex block and the block cache are not modelled.
- BlockRead.WrittenReads: blocks are stored without compression; uncompressing is not modelled.
- LogCorruption.ChangedByteIsReported: one changed byte of a payload; changed header bytes are not covered.
- TableWriter.Writer.Add: the decision that a block is full is a parameter; compression is not modelled.
- TableWriter.Writer.Finish: a bound on the whole table is enough for success; it is not needed when many blocks are small.
- Bloom.CreateFilter: the number of probes is a parameter between 1 and 30 instead of a product with 0.69, the hash is any function, and sizes do not overflow.
- FilterBlock.Builder.AddKey: pending keys are a list instead of one flattened string with offsets.
- LruCache.LRUCache.Insert: one shard; the choice of shard, the destructor and the value pointer are not modelled.
- ManifestBytes.RecoverRecords: records are those the log reader returns; compaction pointers, which only steer the choice of the next compaction, are not carried.
- EditFormat.EncodeTo: fields fit their widths, and decoding is into a fresh edit, since clearing an edit keeps its compaction pointers.
- Compaction scoring, seek statistics, read sampling, approximate sizes and properties: heuristics or reporting.
- Repair: places every table at level 0, where file numbers need not follow age.
- Snappy compression, the operating-system layer, arena, memory environment, file names, bindings, benchmarks and logging.
- Weak memory effects of atomic pointers.

# Percona Backup for MongoDB: a verified model

This project models the parts of Percona Backup for MongoDB whose correctness rests on an algorithm or
a protocol rather than on a driver call, and proves what they promise. Check it with
`dafny verify dfyconfig.toml` (Dafny 4.11).

| files | subject |
|---|---|
| `RestoreProtocol.dfy`, `RestoreProgress.dfy` | how the agents of a physical restore agree through status files, what each node is left with, and that they can always finish or leave |
| `Incremental.dfy`, `IncrementalRestore.dfy`, `PhysicalCopy.dfy`, `IncrementalRoundTrip.dfy` | incremental physical backups: planning and storing blocks, collecting them along the chain, copying them in parallel |
| `TxnReplay.dfy`, `TxnSpec.dfy`, `TxnEntries.dfy`, `BoundaryRepeats.dfy`, `DistTxn.dfy` | replay of the oplog, its transaction buffer, what the keys of an entry mean, and transactions that span shards |
| `OplogSlicing.dfy` | from the live oplog through chunk files to a replayed database |
| `Timelines.dfy` | ranges of saved oplog and their intersection over replica sets |
| `Backups.dfy`, `Lifecycle.dfy`, `Retention.dfy`, `Buckets.dfy`, `TargetOrder.dfy`, `Deletion.dfy` | the retention policy with its calendar, and what is left after its deletions |
| `PitrGuard.dfy`, `DeletionTurns.dfy` | the guard of the base that PITR needs, the report that must not propose what the guard refuses, and what it refuses all the same when the report is carried out |
| `Cleanup.dfy` | what may be deleted before a point in time |
| `Lock.dfy`, `LockClient.dfy` | the distributed lock, interleaved and as an object |
| `Archive.dfy`, `ArchiveStream.dfy` | packing documents into chunks, multiplexing collections into one stream and back |
| `Calendar.dfy`, `ChunkNames.dfy` | chunk file names and the calendar arithmetic in them |
| `Interleaving.dfy`, `Options.dfy`, `Timestamps.dfy` | shared notions |

How to read the models:

- **Shared state and concurrency.** The restore protocol, the lock and the exchange of commits between
  shards are state machines: one read or write of the storage or the database is one step, the steps of
  all agents interleave freely, and any agent may stop at any moment. Theorems about them speak of all
  runs. Parallel workers (uploads, copies, archive writers) are loops that pick the next piece of work
  arbitrarily.
- **Loops.** A loop of the program is a method with a loop, proved equal to a recursive specification;
  what the program promises is then proved about that specification.
- **The outside world.** Database commands, the storage, clocks and codecs are maps, sequences,
  parameters and pairs of inverse functions. What one oplog operation does to a database is a parameter
  of the replay, including that it may fail.
- **Numbers.** Timestamps are pairs of 32-bit numbers. Where a sum may exceed 32 bits (the stale check
  of the lock, the bound of the clean-up query, parsed ordinals) the wrap-around is written out.

## Where the program does less than one might expect

Each of these is a lemma with an example, or an exact condition.

- A backup list whose first entry is an unchanged file, with nothing to upload after it, loses that
  file from the meta, so a restore leaves it out (`Incremental.NoNameLost` gives the exact condition).
- A file that became empty, met by the next backup behind another file, is recorded as unchanged and gets
  its old bytes back at restore (`IncrementalRoundTrip.EmptiedFileComesBack`). Any file of the target comes
  back empty exactly if no backup of the chain recorded a block of it from when it had bytes
  (`IncrementalRoundTrip.RestoredEmptyExactly`).
- Whether all pieces of a transaction were seen is judged by the last piece alone. The verdict is right
  exactly if no operation of it lies before the replayed part (`DistTxn.WholeUnlessHeadMissing`); when the
  replay starts between two pieces the rest is taken for the whole (`DistTxn.MissingHeadGoesUnnoticed`).
- If a shard cannot publish its commits, which is only logged, shards that wait for it never finish,
  whatever happens later (`DistTxn.LostPublicationBlocks`); a waiting shard can still finish exactly if no
  shard it waits for has lost its publication (`DistTxn.ResolvesExactly`).
- The guard of the last PITR base looks at one timeline only. `PitrGuard.GuardAgreesExactly` says for any
  timelines when it is right. A gap between the base before and the last one lets the last one go, though
  the oplog goes on from it alone (`PitrGuard.GapLetsLastBaseGo`). While no chunk is saved nothing is guarded
  (`PitrGuard.NoChunksNoGuard`), nor, if another replica set has a gap, while the last one has no chunk
  (`PitrGuard.LastWithoutChunksNoGuard`).
- What a lifecycle report proposes is allowed when it is made, but checked again when its turn comes, oldest
  first. By then a chain can be refused, because an increment in its own middle counts as the base before it
  (`DeletionTurns.ChainRefusedAtItsTurn` is an example, `DeletionTurns.RefusedExactly` and
  `DeletionTurns.ChainRefusedExactly` are the exact conditions).
- The deletion of a chain follows the last done increment of each level. Increments of another one stay
  behind without their base (`Deletion.AnIncrementLeftBehind`, exact in `Deletion.FetchedIsWholeUnit`).
- A step of another session takes the lock of a live holder exactly if it carries out a deletion that names
  the holder's own header (`Lock.TakenExactlyBy`). Headers that differ rule that out
  (`Lock.DistinctHeadersAreCareful`), but PITR slicing has no operation id and can reuse its header:
  `Lock.ReusedHeaderIsNotSafe` is a run in which the late deletion of its old lock removes the new one.
- Timelines forget a second that a chunk holds exactly if, where some line ends, an earlier chunk goes on
  beyond the last one (`Timelines.NoSecondLostExactly`; `Timelines.OutOfOrderEndsLoseSeconds` is an example).
- A merge yields an inverted or empty range exactly if there is no gap and the earliest end does not lie
  behind the latest start (`Timelines.InvertedExactly`); the sets then share no second
  (`Timelines.InvertedMeansNothingShared`; `Timelines.NoGapResultMayBeInverted` is an example).
- The first chunk of an archive is empty exactly if the first document exceeds the limit
  (`Archive.EmptyChunkExactly`).
- A dump that ends right behind the length of a document counts as complete
  (`Archive.ReadsWhatWasWritten`).

Two comments in the program do not say what its code does; the models follow the code:

- `pbm/oplog/backup.go:138` announces that no-op entries are skipped. The value is compared in its
  extended JSON text, which has quotes, so the comparison never succeeds and no-ops are written. The
  replay skips them.
- `pbm/backup/physical.go:681` says "incremental, NOT base"; the caller at line 535 passes the flag for
  a base as well.

## Model

| member | source | states |
|---|---|---|
| RestoreProtocol.WaitFiles | pbm/restore/physical.go:947-1040 | For each object the first wake-up at which its files show anything decides: an error file, or a stale heartbeat without one, is a failure; the status file with a fresh heartbeat and no error file is a success, as is `partlyDone` while waiting for `done`. The wait succeeds with the status exactly if every object wrote it; for `done` it gives `partlyDone` exactly if some succeeded, not all are fully done, and failures occur only among nodes; a file that cannot be read ends it, and so does a failure unless it is for `done`; the order of the looks does not matter |
| RestoreProtocol.WaitTick | pbm/restore/physical.go:963-1025 | One wake-up looks at every object still waited for, in any order: it ends the wait exactly if some file cannot be read, or some object failed and the wait is not for `done`; otherwise exactly the objects whose files showed nothing are left, and failures and successes are noted as the files say |
| RestoreProtocol.LookMeans | pbm/restore/physical.go:965-1021 | What one look at an object tells, in its files: unreadable, failed, written, partly done or nothing, each exactly under its condition |
| RestoreProtocol.SightMeans | pbm/restore/physical.go:963-1025 | Over a series of wake-ups, what is noted of an object is what it showed first |
| RestoreProtocol.MaySeeIsLook | pbm/restore/physical.go:965-1021 | What an agent of the protocol may see while certain files exist is exactly what a look can give that finds only files that are there |
| RestoreProtocol.VerdictAnswers | pbm/restore/physical.go:1026-1036 | The verdict on an empty list of objects is the promised answer for every combination of failures, done and partly done |
| RestoreProtocol.VerdictBacked | pbm/restore/physical.go:815-863 | A status decided by a wait stands on the files of everything waited for: all wrote it, or, for `partlyDone`, one member of the replica set is done, or every replica set at least partly |
| RestoreProtocol.NodeStepKeeps | pbm/restore/physical.go:797-863 | Every step an agent can take, including failing, crashing and cleaning up, keeps the meaning of the files and of its own state |
| RestoreProtocol.RunsKeepInv | pbm/restore/physical.go:1182-1396 | The protocol invariant holds in every state of every run of any number of agents |
| RestoreProtocol.ClusterDoneMeansAllWrote | pbm/restore/physical.go:742-786 | A cluster status `done` implies that every non-arbiter member of every replica set wrote `done` |
| RestoreProtocol.NoHalfRestoredNode | pbm/restore/physical.go:248-382 | In every run a node that has closed holds the old data, the whole restored data or nothing, as its progress, its options and the cluster status it saw determine, and no fallback copy; having started and seen `done` it holds the restored data |
| RestoreProtocol.UnfinishedNeverSeesDone | pbm/restore/physical.go:1302-1360 | While some node has started and not finished, the cluster is never `done` |
| RestoreProtocol.FlushBarrier | pbm/restore/physical.go:1275-1316 | Once any node has flushed its data, every member of every replica set has written `starting` and `running` |
| RestoreProtocol.FinalStates | pbm/restore/physical.go:742-786 | `done` for the cluster means that every node wrote `done` and has its restore finished; `partlyDone` means that every replica set with members has such a node |
| RestoreProgress.SomeoneIsFree | pbm/restore/physical.go:818-863 | There is no deadlock: while nothing has failed and somebody has not left, somebody can go on, because among those who wait for the earliest status one has all it waits for |
| RestoreProgress.CanStillSucceed | pbm/restore/physical.go:824-863 | Every run without a failure, however the agents were interleaved so far, can go on until every node has left with the cluster `done`, the restored data and no fallback copy, and then no error and no partial success is reported anywhere |
| RestoreProgress.CanFailAndReport | pbm/restore/physical.go:3034-3062 | An agent can fail whatever it is doing and then still marks itself, its replica set if all members have failed, and from the leading replica set the cluster if some replica set has, and leaves with whole data or none |
| RestoreProgress.AllCanLeave | pbm/restore/physical.go:386-437 | From every state of every run, whatever failed and whoever died, all others can still leave, none with half of the data |
| RestoreProgress.ErrorsHaveAuthors | pbm/restore/physical.go:797-814 | In every run each error file was written by an agent in the position to: its own, one of its replica set after a failure of its own, or the one of the cluster by the leading replica set after a failure there, a marked replica set, or a fallback |
| Incremental.PlanUploads | pbm/backup/physical.go:684-722 | The loop computes the plan of the recursive specification for every file list |
| Incremental.PlanKeepsBytes | pbm/backup/physical.go:675-722 | The blocks uploaded cover exactly the bytes of the blocks reported: coalescing neither adds nor loses a byte |
| Incremental.NoNameLost | pbm/backup/physical.go:684-722 | Every reported file is in the plan if and only if the list does not start with an unchanged file after which nothing is uploaded and which is not mentioned again |
| Incremental.NothingInvented | pbm/backup/physical.go:684-722 | The plan mentions only reported files |
| Incremental.UnchangedAreMarked | pbm/backup/physical.go:693-704 | What is planned without an upload marks, in an increment, exactly the entries but the first that are unchanged or lie behind the end of the file, by offset and length -1 and with the size kept |
| Incremental.WholeFilesStayWhole | pbm/backup/physical.go:548-559 | Files reported whole, as journals are, are uploaded whole, also when neighbouring entries coalesce |
| IncrementalRestore.UploadFiles | pbm/backup/physical.go:726-805 | Whatever the order of the uploads, each result stands at the place of its item with the size on disk, each object holds the bytes of its block, objects of other backups are untouched, and what was stored before from the same files under the same name stays stored; it fails exactly if a file to upload is missing |
| IncrementalRestore.KeepsPlaced | pbm/backup/physical.go:807-859 | Two uploads with the same object path store the same bytes, so no upload can spoil another |
| PhysicalCopy.PhysRestore.PlanCopyFiles | pbm/restore/physical.go:1640-1678 | The jobs are the copy operations grouped by destination, no destination twice, each group in the order base to target |
| PhysicalCopy.PhysRestore.CopyFile | pbm/restore/physical.go:1756-1803 | One copy writes the object at the offset of its block, filling holes with zeros, and cuts the file to the recorded size; a missing object changes nothing |
| PhysicalCopy.PhysRestore.CopyFiles | pbm/restore/physical.go:1680-1753 | Any interleaving of the jobs that keeps the order within each leaves the files that copying everything in sequence leaves; it fails exactly if an object to copy is missing |
| PhysicalCopy.FileByFile | pbm/restore/physical.go:1637-1639 | What becomes of a file depends on the operations with that destination only, in their order |
| PhysicalCopy.OrderAcrossFilesIsFree | pbm/restore/physical.go:1637-1639 | Two orders of the operations that agree on every destination leave the same files |
| IncrementalRoundTrip.SetBcpFiles | pbm/restore/physical.go:2693-2818 | Walking the sources from the target gives one layer per backup with all its blocks of target files, fails exactly if a source is missing, and adds a layer of the directories of files without data |
| IncrementalRoundTrip.DirectoriesAreListed | pbm/restore/physical.go:2785-2816 | Every target file of which no backup of the chain has a block shares its directory with a file that the last layer lists, unless that is the data directory; and that layer lists nothing else |
| IncrementalRoundTrip.DirOfIs | pbm/restore/physical.go:2794-2808 | The directory of a file is what stands before the last slash of its name |
| IncrementalRoundTrip.DeliveredIsCovered | pbm/backup/physical.go:684-722 | Every reported byte is covered by a block in the backup meta |
| IncrementalRoundTrip.LayerBytes | pbm/restore/physical.go:1756-1803 | After the operations of one backup a file has its size at that backup, the covered bytes are from the backup, the others are as before |
| IncrementalRoundTrip.LayerRestores | pbm/restore/physical.go:1640-1678 | A file as at the source backup becomes the file at the increment |
| IncrementalRoundTrip.ChainRestores | pbm/restore/physical.go:2683-2690 | By induction over the chain, after the layers up to a backup every target file is as it was at that backup |
| IncrementalRoundTrip.RestoresTheTarget | pbm/restore/physical.go:2683-2690 | Restoring the chain base to target yields every file named by the target that was not empty with exactly the bytes and length of the target snapshot, whatever was empty on the way, and no file the target does not name |
| IncrementalRoundTrip.RestoredEmptyExactly | pbm/restore/physical.go:2719-2738 | A file of the target comes back empty exactly if no backup of the chain recorded a block of it from when it had bytes, and not at all exactly if none recorded a block of it |
| IncrementalRoundTrip.EmptiedFileComesBack | pbm/backup/physical.go:691-704 | Two backups, a storage and a restore, in which a file that is empty at the target comes back with bytes |
| IncrementalRoundTrip.BackupAndRestore | pbm/backup/physical.go:526-570 | Taking a whole chain of backups, data and journals of each under one name, and restoring its target, with uploads and copies in any order: it succeeds exactly if every file to upload was there, and then the directory holds the files of the target as above |
| IncrementalRoundTrip.TargetsAreListed | pbm/backup/physical.go:679-683 | The target names only listed files, and all of them unless the list loses its head |
| TxnReplay.CQueue.Push | pbm/oplog/restore.go:1262-1268 | A full queue drops its oldest commit |
| TxnReplay.OplogRestore.HandleTxnOp | pbm/oplog/restore.go:816-880 | The new buffer, queue and database of one transaction entry, also when an operation fails in the middle |
| TxnReplay.OplogRestore.HandleOp | pbm/oplog/restore.go:695-739 | One entry changes the state as the event it is taken for does, which `TxnEntries.EntryOfTxn` and `TxnEntries.EntryOfNoTxn` say in its keys: no-ops and filtered entries not at all, others are applied or buffered |
| TxnReplay.OplogRestore.ApplyTxn | pbm/oplog/restore.go:975-990 | The operations of a transaction are applied in order up to the first failure; the buffer entry goes only on success |
| TxnReplay.OplogRestore.Apply | pbm/oplog/restore.go:248-286 | Replaying a chunk handles exactly the entries inside the time frame, in order, up to the first failure, and returns the time of the last one |
| TxnReplay.OplogRestore.HandleUncommittedTxn | pbm/oplog/restore.go:998-1025 | In whatever order the leftovers come, exactly those committed elsewhere and not known to be cut short are applied, each as one block; the rest stays uncommitted, with the partial ones among it |
| TxnSpec.ReplayMeetsSpec | pbm/oplog/restore.go:816-880 | If no transaction has entries after its commit or abort: the operations applied are, in order, the plain ones and, at each commit, the whole transaction as one block; the buffer holds exactly the unresolved transactions; the queue holds the last 100 commits |
| TxnSpec.ReplayedDatabase | pbm/oplog/restore.go:248-286 | The database after the replay is the one the specified operations lead to, up to the first failure |
| TxnSpec.OnlyCommittedApplied | pbm/oplog/restore.go:845-853 | Removing all entries of aborted and undecided transactions from the log changes nothing that is applied |
| TxnSpec.PushedIsLastN | pbm/oplog/restore.go:1253-1276 | The queue is always the last min(n, capacity) of the commits pushed |
| TxnEntries.EntryOfTxn | vendor/github.com/mongodb/mongo-tools/common/txn/meta.go:54-114 | In the keys of an entry, for every state: with `abortTransaction` it applies nothing and ends the transaction; otherwise with `commitTransaction`, or with neither `prepare` nor `partialTxn`, it applies all that was buffered and its own operations as one block, unless it repeats the last commit, and a commit of its own is queued with its time; any other entry is only buffered |
| TxnEntries.EntryOfNoTxn | pbm/oplog/restore.go:695-739 | Entries of no transaction leave buffer and queue alone, and are applied unless they are no-ops or filtered |
| TxnEntries.LogReplayed | pbm/oplog/restore.go:816-880 | For a log of entries in which no transaction goes on after its end, in terms of operation, session and keys only: what is applied, in order and in which blocks, what stays open, and the last 100 commits with their times |
| BoundaryRepeats.CommitRepeated | pbm/oplog/restore.go:841-849 | A repeated commit of a distributed transaction applies nothing and leaves buffer and queue as they are, in every state |
| BoundaryRepeats.RepeatUnnoticed | pbm/oplog/restore.go:816-880 | If a block applied twice in a row equals applying it once, handling any entry a second time leaves the same database and a state no continuation can tell apart |
| BoundaryRepeats.RepeatsAreHarmless | pbm/oplog/restore.go:841-849 | The same for a whole log with any set of entries doubled |
| BoundaryRepeats.CommitWithDataWouldLinger | pbm/oplog/restore.go:819-849 | Why commit entries must carry no operations: with operations, a repeat would leave them in the buffer |
| DistTxn.TestSeesMissingTail | pbm/oplog/restore.go:819-830 | The test for all pieces finds out exactly whether pieces are missing after the replayed part |
| DistTxn.WholeUnlessHeadMissing | pbm/restore/restore.go:305-325 | When the test is positive, the buffered operations are the whole transaction if and only if none of its operations lies before the replayed part |
| DistTxn.MissingHeadGoesUnnoticed | pbm/oplog/restore.go:819-830 | A replay starting between two pieces takes the rest for the whole |
| DistTxn.AppliedExactly | pbm/restore/logical.go:1516-1580 | In every run of the exchange between shards a leftover is applied if and only if its last piece seen is whole and some shard has its commit among the last 100 |
| DistTxn.NothingUncommittedApplied | pbm/restore/restore.go:394-420 | What a shard applies after its replay was left open by its own log and committed by the log of some shard |
| DistTxn.PublishedAfterReplay | pbm/restore/restore.go:394-401 | In every run only a shard that has replayed its whole log publishes its commits |
| DistTxn.EachCanFail | pbm/restore/restore.go:394-402 | The replay, the wait and the writing of what is published can each fail at any time |
| DistTxn.FreeRunsFinish | pbm/restore/restore.go:394-401 | A run without failures is bounded by the number of shards, and when it can go no further every shard has published and finished |
| DistTxn.WorkFalls | pbm/restore/logical.go:1516-1580 | Every step but a failure brings the exchange nearer to its end |
| DistTxn.LostPublicationBlocks | pbm/restore/restore.go:397-402 | In every continuation a shard that waits for a lost publication still waits for it or has given up |
| DistTxn.ResolvesExactly | pbm/restore/logical.go:1516-1580 | A waiting shard can finish in some continuation if and only if no shard it still waits for has lost its publication |
| OplogSlicing.WriteTo | pbm/oplog/backup.go:67-151 | Writes exactly the entries from start to end, or nothing: when the span is unset, or when the oplog has entries and all of them are after the start |
| OplogSlicing.BetweenIsStretch | pbm/oplog/backup.go:89-139 | Of an ordered log these are the entries of one stretch: all that are neither before the start nor after the end |
| OplogSlicing.SufficientIsComplete | pbm/oplog/backup.go:110-132 | If an entry at or before the start is still there, no entry of the slice was dropped from the oplog |
| OplogSlicing.Chunks | pbm/restore/restore.go:244-287 | Of the index, in its order, exactly the chunks of the replica set (of any, if none is named) that end at or after the start and start at or before the target are taken, a zero bound not counting; they are accepted exactly if there are any, the last one reaches the target, none starts after the end of the one before, and all files exist; otherwise the error names the first chunk that is wrong |
| OplogSlicing.SliceIsSelection | pbm/oplog/chunk.go:84-104 | The same about the query alone: all chunks that concern the replica set and the two times, and no others, each once, in the order of the index |
| OplogSlicing.AcceptedCovers | pbm/restore/restore.go:241-243 | Every moment from the start of an accepted row to the target lies in one of its chunks |
| OplogSlicing.ViolationIsGap | pbm/restore/restore.go:267-275 | Between the two times of a reported violation no chunk holds anything, if later chunks neither start nor end earlier |
| OplogSlicing.ReplayChunks | pbm/restore/restore.go:365-388 | Replaying the chunk files one after the other handles what the time frame lets through of them, up to the first failure |
| OplogSlicing.OplogSlicer | pbm/backup/slicer.go:46-113 | Whatever each wake-up meets (no news, a read error, entries dropped from the oplog, a failed upload), the slices, the saved time and the pending failure are exactly those of the specification: one slice of the whole log for each usable wake-up, the rest left to the next one |
| OplogSlicing.FailsExactlyIfBehind | pbm/backup/slicer.go:46-113 | If the last writes never go back, a failure is pending after some wake-ups exactly if some last write that was read is later than what is saved |
| OplogSlicing.SlicesAreBackToBack | pbm/backup/slicer.go:100-101 | The slices of one run, saved as chunks, form a gapless row of exact chunks |
| OplogSlicing.SliceThenReplay | pbm/oplog/restore.go:248-286 | Replay of back-to-back chunks handles exactly the log from the start of the first chunk to the target, in order, each entry once, except that an entry on a chunk boundary comes twice in a row |
| OplogSlicing.ReplayIsFaithful | pbm/restore/restore.go:244-287 | For accepted chunks the database, the buffer and the queue are as if the log itself had been replayed once |
| Timelines.GetTimelines | pbm/oplog/chunk.go:247-268 | The loop computes the timelines of the recursive specification |
| Timelines.TimelinesAreSound | pbm/oplog/chunk.go:247-268 | No timeline reports a second that no chunk holds |
| Timelines.TimelinesAreExact | pbm/oplog/chunk.go:247-268 | For chunks whose starts and ends come in order the timelines report exactly the held seconds |
| Timelines.NoSecondLostExactly | pbm/oplog/chunk.go:247-268 | For chunks in start order every held second is reported if and only if, at every break of the row and at its end, no chunk ends later than the last one before the next line begins |
| Timelines.TimelinesConserveSize | pbm/oplog/chunk.go:247-268 | The sizes of the timelines add up to the sizes of the chunks, for every list |
| Timelines.LineIsChain | pbm/oplog/chunk.go:247-268 | Each timeline is an unbroken chain of consecutive chunks |
| Timelines.TimelinesAreWellFormed | pbm/oplog/chunk.go:282-284 | Timelines of chunks in start order are what the merge presumes |
| Timelines.CollectGaps | pbm/oplog/chunk.go:317-350 | The first loop finds the latest start, the earliest end and all gaps |
| Timelines.MergeTimelines | pbm/oplog/chunk.go:284-388 | The whole merge computes its specification |
| Timelines.MergeIsIntersection | pbm/oplog/chunk.go:296-315 | A second is covered by the merge if and only if every non-empty set covers it |
| Timelines.MergeIgnoresOrder | pbm/oplog/chunk.go:284-388 | For two or more sets the merged list is the same in any order of the sets |
| Timelines.InvertedExactly | pbm/oplog/chunk.go:353-356 | The merge of several sets has an inverted or empty line if and only if no set has a gap and the earliest end does not lie behind the latest start |
| Timelines.InvertedMeansNothingShared | pbm/oplog/chunk.go:353-356 | No second is covered by all sets then |
| Timelines.MergedLineInsideOne | pbm/oplog/chunk.go:284-388 | A merged line lies inside one single line of every set |
| Timelines.OneEachGivesMergedLine | pbm/oplog/chunk.go:284-388 | One line of each set over a common range gives one merged line over it |
| Timelines.HasSingleTimelineToCover | pbm/oplog/chunk.go:478-495 | True means that the own chunks of every replica set form an unbroken chain over the range; for a range of at least a second it is true exactly if each has one timeline over it, and for a single moment exactly if all timelines pass through it or meet at it |
| Backups.FindIncrementalBase | pbm/lifecycle/manager.go:179-198 | Following source links ends for all links, circular ones included, and finds the base they lead to, if any |
| Backups.IsCompleteIncrementalRestorePoint | pbm/lifecycle/manager.go:78-101 | True exactly if the backup and all ancestors down to a base are there and done; ends for circular links too |
| Backups.FindBaseExactly | pbm/lifecycle/manager.go:179-198 | The base found is exactly the one at the end of the line of sources that leads down from the backup, without a gap and without a circle |
| Backups.IsCompleteExactly | pbm/lifecycle/manager.go:78-101 | A backup is a complete restore point exactly if such a line of done backups leads from it to a base |
| Backups.ParentHasSameBase | pbm/lifecycle/manager.go:179-198 | A backup and its source have the same base |
| Lifecycle.Report.AddKeepReason | pbm/lifecycle/manager.go:48-53 | A reason is listed once and behind those there were, makes its backup kept, and changes the reasons of no other |
| Lifecycle.Report.CountKeptSuccessfulRestorePoints | pbm/lifecycle/manager.go:55-74 | The number of backups that are kept, done and not selective, and from which, if they are incremental, a line of done backups leads down to a base |
| Lifecycle.CountKeptIs | pbm/lifecycle/manager.go:55-74 | The same about the count of the first n backups, for every list and every set of kept names |
| Lifecycle.Report.ApplyIncrementalChainRules | pbm/lifecycle/manager.go:202-244 | Exactly the increments without a base and the members of chains with a kept or running member become kept, and chains are whole afterwards |
| Lifecycle.ChainRulesKeepChainsWhole | pbm/lifecycle/manager.go:200-244 | One application of the chain rules is enough: applying them again adds nothing |
| Lifecycle.ChainsShareFate | pbm/lifecycle/manager.go:200-202 | Members of one chain that are not running are all kept or all purged |
| Lifecycle.Report.BuildBackupLists | pbm/lifecycle/manager.go:493-514 | The three lists are the projections of the current decisions |
| Lifecycle.ListsHold | pbm/lifecycle/manager.go:491-514 | Every backup that is not running is in exactly one of kept and purged; targets are the purged bases and single backups |
| Lifecycle.Report.ProtectPITRAnchors | pbm/lifecycle/manager.go:344-354 | Kept afterwards is exactly what was kept, the anchors, and what the chain rules make of them; backups only ever move from purged to kept |
| Lifecycle.Report.FindPITRBaseCandidates | pbm/lifecycle/manager.go:356-440 | The candidates are exactly the newest purged snapshots, unless a newer snapshot survives, with the time of the newest older survivor; each error names a backup that justifies it |
| Lifecycle.ErrorsAreUnreachable | pbm/lifecycle/manager.go:412-430 | With settled lists neither error can occur: a purged backup has a target, and the target is listed |
| Lifecycle.Report.ApplyMinKeepGuard | pbm/lifecycle/manager.go:518-540 | Aborts and clears the targets exactly if the policy is enabled, wants to delete, and fewer restore points than a positive minimum would be kept |
| Retention.FindBestCandidate | pbm/lifecycle/manager.go:720-756 | The loop finds the best candidate of the specification, with and without a calendar |
| Retention.BestIsTop | pbm/lifecycle/manager.go:780-791 | The candidate found is preferred to every other one |
| Retention.BestIgnoresOrder | pbm/lifecycle/manager.go:719-756 | Which candidate is kept does not depend on the order of the backups |
| Retention.NewestIsKept | pbm/lifecycle/manager.go:719-791 | Of a bucket, the one kept is newer than all others: later last write, then later start, then smaller name; with a calendar, than all others as near to the wanted day, where none is nearer |
| Retention.EvaluateRetentionPolicy | pbm/lifecycle/manager.go:591-695 | The kept backups are those kept outright and the best of each weekly and monthly bucket, extended to whole chains; a disabled policy has no targets |
| Retention.KeptExactly | pbm/lifecycle/manager.go:621-689 | The policy itself keeps a backup exactly if it is kept outright or no backup of its week, or of its month, and kind is preferred to it |
| Retention.EveryBucketKeepsOne | pbm/lifecycle/manager.go:650-689 | No retained week or month with a candidate of a kind is left without a kept one |
| Buckets.DateOnIs | pbm/lifecycle/manager.go:709-717 | Every day, also before 1970, has a date, and it is the date of that day |
| Buckets.RollingBucketIs | pbm/lifecycle/manager.go:697-703 | Rolling bucket k holds exactly the ages from k widths up to k + 1 widths |
| Buckets.WeekBucketIs | pbm/lifecycle/manager.go:705-713 | Calendar bucket k is exactly the seven days from Monday on, k weeks before the current week |
| Buckets.MonthBucketIs | pbm/lifecycle/manager.go:715-717 | Two backups share a monthly bucket exactly if they started in the same month of the same year |
| Buckets.OlderIsHigher | pbm/lifecycle/manager.go:697-717 | An older backup never lies in a lower bucket, in every way of counting |
| Buckets.OneWeekTarget | pbm/lifecycle/manager.go:758-762 | All backups of a week are measured against the same day, the wanted weekday of that week |
| Buckets.OneMonthTarget | pbm/lifecycle/manager.go:764-768 | All backups of a month are measured against the same day, the wanted one or the last of a shorter month |
| Buckets.KeptIsNearest | pbm/lifecycle/manager.go:740-755 | With a calendar, the backup kept of a week is as near to the wanted day as any of its kind; one of the wanted day is passed over only for another of that day |
| Buckets.EveryWeekKeepsOne | pbm/lifecycle/manager.go:591-695 | The policy keeps every backup of the daily window that has not failed, and of each kind one from every retained week that has any, by age or by Mondays |
| Buckets.EveryMonthKeepsOne | pbm/lifecycle/manager.go:591-695 | And of each kind one from every retained month that has any, by age or by the calendar |
| Buckets.KeptInDates | pbm/lifecycle/manager.go:591-695 | In dates and fields, exactly which backups the policy itself keeps, and so which it gives up: idle ones that are selective, not from before the evaluation, failed and protected, inside the daily window, or the best of their kind in a retained week or month, by age or by the calendar |
| Deletion.FetchAllIncrements | pbm/backup/delete.go:203-246 | The walk down from a base ends although it keeps no record, gives exactly the levels below the base, each of the last done increment above it, and fetches only backups that lead up to that base |
| Deletion.FetchedOnce | pbm/backup/delete.go:203-246 | What is fetched is determined by the backups |
| Deletion.FetchedIsWholeUnit | pbm/backup/delete.go:228-242 | It is everything that leads up to the base if and only if no increment but the last done one of its level has increments |
| Deletion.AnIncrementLeftBehind | pbm/backup/delete.go:228-242 | With two done increments of one base, an increment of the first is not fetched |
| Deletion.DeleteBackup | pbm/backup/delete.go:59-126 | Gone is exactly the backup, or the chain from its end up to where a deletion fails; a running or refused one stays, and nothing outside the unit goes |
| Deletion.DeleteTargets | cmd/pbm-agent/delete.go:353-358 | Only units of targets lose backups, and every target that can go whole and meets no fault is gone with its whole unit, whatever became of the others |
| Deletion.UnitsAreDisjoint | pbm/backup/delete.go:94-126 | No backup belongs to the units of two bases |
| Deletion.CanStillGoWhole | pbm/backup/delete.go:203-246 | Deleting other units does not stand in the way of deleting one |
| Deletion.RestorePointSurvives | cmd/pbm-agent/delete.go:353-358 | A kept restore point and all its ancestors survive any execution of the targets |
| Deletion.CountSurvives | cmd/pbm-agent/delete.go:353-358 | At least as many restore points stay as the report counted, in whatever order and with whatever failures the targets are deleted |
| TargetOrder.SortDeleteTargets | pbm/lifecycle/manager.go:448-489 | The same targets, in the order of the newest time their units restore to, newest first, and with the greater name first among equals |
| TargetOrder.RestoreTimeIs | pbm/lifecycle/manager.go:465-481 | That time is the latest of any done backup that goes with the target, and zero only if there is none later |
| Deletion.CleanupLifecycle | cmd/pbm-agent/delete.go:326-359 | Unless nothing is deleted, at least minKeep done, non-selective restore points with complete ancestry stay; nothing is deleted when disabled or aborted, and otherwise all that was proposed and meets no fault is gone |
| PitrGuard.BaseBeforeIs | pbm/backup/query.go:380-416 | The restore time found is the newest of the bases before the time, other than the excluded one |
| PitrGuard.RequiredIs | pbm/backup/delete.go:285-321 | In fields: a base is required if and only if no finished, whole, not external backup of the main storage has a later last write, and the oplog since the newest such backup before it is one line that begins after that |
| PitrGuard.CanDeleteIncrementalChain | pbm/backup/delete.go:167-201 | The verdict on a chain, taken at the time of its last done increment |
| PitrGuard.GuardAgreesExactly | pbm/backup/delete.go:311-318 | With chunks in every replica set the guard is right about whether the oplog leads from the base before up to a time if and only if a merged line leads there, or the only merged line begins after that base |
| PitrGuard.MissingChunksReachNothing | pbm/oplog/chunk.go:247-268 | Without chunks in some replica set the oplog leads nowhere |
| PitrGuard.RequiredWithoutGaps | pbm/backup/delete.go:311-318 | With or without chunks, when no replica set has a gap the base is required if and only if some replica set has chunks and they begin after the base before |
| PitrGuard.ReachesByChain | pbm/backup/delete.go:313-318 | A timeline that leads on is an unbroken chain of chunks in every replica set |
| PitrGuard.NoChunksNoGuard | pbm/backup/delete.go:311-318 | Without chunks in the range no base is required, for any number of replica sets |
| PitrGuard.LastWithoutChunksNoGuard | pbm/oplog/chunk.go:317-388 | A last replica set without chunks leaves no merged line, and so turns the guard off, as soon as another one has a gap |
| PitrGuard.ApplyPITRDeleteChecks | pbm/lifecycle/manager.go:255-312 | None of its errors can occur; afterwards no target left would be refused, chains are whole and nothing kept is given up |
| PitrGuard.AnchorKeeps | pbm/lifecycle/manager.go:281-302 | Keeping the last done increment of a chain keeps its base, so the chain is no target |
| PitrGuard.ApplyPITRProtection | pbm/lifecycle/manager.go:315-342 | Its errors cannot occur; afterwards no purged base is the newest of all and required, seen from the newest older survivor |
| PitrGuard.BuildReport | pbm/lifecycle/manager.go:121-175 | The report keeps what the policy keeps, chains are whole, no target would be refused while PITR runs, and on the main storage no required newest base goes |
| DeletionTurns.ExecuteTargets | cmd/pbm-agent/delete.go:353-358 | From the last target to the first, each is checked against what is left by then, stays if it is refused, and otherwise goes as far as its deletion gets |
| DeletionTurns.GoneExactly | cmd/pbm-agent/delete.go:353-358 | Without failing deletions exactly the units have gone whose targets had their turn and were allowed |
| DeletionTurns.FetchedStays | pbm/backup/delete.go:203-246 | What has gone before changes nothing in what is fetched for a unit |
| DeletionTurns.RefusedIsNewest | pbm/backup/delete.go:297-306 | In any execution, with any failures, only a target that restores to the newest time of all is refused |
| DeletionTurns.RefusedExactly | pbm/backup/delete.go:285-321 | Whatever failed or was refused before, a proposed target is refused at its turn if and only if it restores to the newest time of all and the oplog up to then is one line that begins after the newest older base that the report keeps or that is left over |
| DeletionTurns.LeftOverExactly | cmd/pbm-agent/delete.go:353-358 | Without failing deletions, what is left over at a turn are the purged bases of its own unit, of the targets still to come and of those refused before |
| DeletionTurns.ChainRefusedExactly | pbm/lifecycle/manager.go:446-489 | If the report kept what it found required and no other target restores to the same time: if and only if the target is a chain with a middle increment that is newer than every older survivor and after which the oplog begins as one line |
| DeletionTurns.CleanUp | cmd/pbm-agent/delete.go:326-358 | On the main storage while PITR runs, what is executed is a report with those promises, in that order |
| Cleanup.RemoveAt | pbm/backup/delete.go:626-627 | The in-place copy removes one element and keeps the order of the others |
| Cleanup.ExtractIncrementalChain | pbm/backup/delete.go:614-635 | The in-place loop computes its specification |
| Cleanup.RemovesChain | pbm/backup/delete.go:613-635 | What is removed is the chain, and the order of the rest is kept |
| Cleanup.ChainIsLineage | pbm/backup/delete.go:613-635 | Every member of the chain leads down to the backup the search started with |
| Cleanup.LineageIsChain | pbm/backup/delete.go:613-635 | And every backup that leads down to it is a member |
| Cleanup.ExtractLastIncrementalChain | pbm/backup/delete.go:582-611 | The last done increment is found, and its chain is taken out if an increment that has not failed is based on it |
| Cleanup.ExtractLastIsClosed | pbm/backup/delete.go:578-611 | If each increment builds on the last one done, deleting the rest of the list leaves no done or running increment without its source |
| Cleanup.LastChainSparedExactly | pbm/backup/delete.go:248-266 | The last done increment of the list is spared if and only if a done or running increment is based on it; otherwise the list stays as it is |
| Cleanup.AncestorsStay | pbm/backup/delete.go:394-396 | No backup listed for deletion is an ancestor of a done or running increment that stays |
| Cleanup.KeepBaseForPITR | pbm/backup/delete.go:471-520 | The newest base and the chunks after it are kept exactly if the chunks lead on from it to the time in every replica set, also within the very second, or if PITR may need the base; what that means for a whole list is `Cleanup.NewestBaseDecided` |
| Cleanup.MakeCleanupInfo | pbm/backup/delete.go:396-530 | The in-place computation gives exactly the backups and chunks of the decision, for every list, on every path; and for a history, the newest base up to the time and the chunks after it stay or go as in `Cleanup.NewestBaseDecided` |
| Cleanup.CleanupIsSafe | pbm/backup/delete.go:394-530 | What is decided is closed under sources, holds only finished backups up to the time, spares a backup that restores to the time itself, and on the main storage spares the newest base and its chunks when they restore to that time |
| Cleanup.NewestBaseDecided | pbm/backup/delete.go:444-520 | Over the list and the flags: the newest base up to the time is spared exactly if it restores to the time itself, or on the main storage the chunks lead from it to the time, or PITR runs and no later base exists, or as part of the last chain; and exactly the chunks that start before the time go, without those that end after a base that stays for one of the first three reasons |
| Cleanup.PITRKeepsNewestBase | pbm/backup/delete.go:503-519 | On the main storage, while PITR runs and no later base exists, the newest base stays in any case, and every chunk that ends after it |
| Cleanup.NoBaseAllGoes | pbm/backup/delete.go:444-470 | Without a base up to the time everything finished before it goes, and the chunks up to it |
| Lock.MatchesIsEqual | pbm/lock/lock.go:20-28 | For the headers agents use, a filter matches its own document only |
| Lock.DeleteSparesOthers | pbm/lock/lock.go:116-122 | A deletion, however late, takes away no lock with another header |
| Lock.UpdateSparesOthers | pbm/lock/lock.go:195-207 | A beat, however late, renews no lock with another header |
| Lock.StaleIsDead | pbm/lock/lock.go:106-121 | If live heartbeats are at most H old and a peer is judged within D, with H + D at most 30 seconds, a lock judged stale has no live holder |
| Lock.TakenExactlyBy | pbm/lock/lock.go:109-151 | In any state, a step of another session can take the lock of a live holder if and only if that session is about to delete a lock with the holder's own header |
| Lock.RunsKeepInv | pbm/lock/lock.go:78-207 | The invariant of the lock holds in every timely run of any number of agents in which no header is taken again while a deletion that names it is pending |
| Lock.HoldersHaveTheirLock | pbm/lock/lock.go:78-122 | In every such run a live holder has its lock: a document with its own header, at the place of its replica set and, in the collection of concurrent operations, its kind |
| Lock.InsertsExactly | cmd/pbm-agent/setup.go:77-101 | A lock can be inserted if and only if no lock there has the same replica set and, in the collection of concurrent operations, the same kind |
| Lock.CanTake | pbm/lock/lock.go:78-151 | A session that has not begun can get the lock if no lock stands in its place and its operation is not logged yet |
| Lock.CanTakeOver | pbm/lock/lock.go:92-122 | A lock whose heartbeat has gone stale keeps nobody out: whoever comes for its place can see it, judge it, have it deleted and take the place |
| Lock.CanBeat | pbm/lock/lock.go:195-207 | A live holder can always renew the heartbeat of its lock, and changes nothing else by it |
| Lock.InsertMayFailLate | pbm/lock/lock.go:153-169 | An insert may report an error although the lock is there; nobody holds it then |
| Lock.MutualExclusion | cmd/pbm-agent/setup.go:77-101 | In every such run no two live holders have the same replica set, whatever their kinds; in the collection of concurrent operations no two have the same replica set and kind |
| Lock.DistinctHeadersAreCareful | pbm/lock/lock.go:20-28 | Every timely run of sessions with different headers is such a run |
| Lock.AcquiredOnce | pbm/lock/lock.go:124-141 | Without any assumption about time or headers, no two sessions acquire a logged operation with the same operation id for the same replica set |
| Lock.ReusedHeaderIsNotSafe | cmd/pbm-agent/pitr.go:323-328 | A timely run, with a header taken again in one single step while its deletion is pending, that ends with a live holder whose lock is gone |
| Lock.FreshLooksStaleAtTheEnd | pbm/lock/lock.go:106-107 | A heartbeat of the very moment looks stale exactly in the last 30 seconds of the 32-bit range |
| LockClient.LockObject.Acquire | pbm/lock/lock.go:78-122 | Got exactly if no lock has the same replica set (and kind, in the collection of concurrent operations) and no record the same operation id and replica set; then the lock is there with a fresh heartbeat and the operation logged; otherwise a lock of the replica set decides: a stale one is deleted but not taken, a living one is left, and everything else is as before |
| LockClient.LockObject.Release | pbm/lock/lock.go:144-151 | Every document with the own header is gone, all others are there unchanged |
| LockClient.LockObject.Beat | pbm/lock/lock.go:195-207 | The documents with the own header carry the current time, all others are unchanged |
| Archive.ReadAllIsWhole | pbm/archive/archive.go:177-205 | The documents read and what is left are the dump, and the reading ends as the next document would; after a good end nothing is left, or a length with nothing behind it |
| Archive.ReadsWhatWasWritten | pbm/archive/archive.go:177-205 | A dump of documents is read as those documents, also when it is cut right behind a further length |
| Archive.ReadsExactly | pbm/archive/archive.go:177-205 | What one reading gives, by the number in the first four bytes, least significant first: a negative one, a missing tail or a missing final zero is an error, nothing behind the four bytes counts as the end, and otherwise it is that many bytes |
| Archive.SplitChunks | pbm/archive/archive.go:150-174 | The chunks written are those of the packing of the documents read, also when the reading fails |
| Archive.ChunksKeepDocs | pbm/archive/archive.go:150-174 | The chunks hold whole documents, all of them, in order |
| Archive.GroupsAreBounded | pbm/archive/archive.go:130-131 | With documents within the limit no chunk exceeds it and none is empty |
| Archive.GroupsAreTight | pbm/archive/archive.go:154-164 | No chunk is closed before the next document would exceed the limit |
| Archive.EmptyChunkExactly | pbm/archive/archive.go:154-158 | For any non-empty documents some chunk is empty if and only if the first document exceeds the limit |
| ArchiveStream.TerminatorIsNoDocument | vendor/github.com/mongodb/mongo-tools/common/archive/parser.go:80-118 | The terminator is no length a document can have |
| ArchiveStream.TokenExactly | vendor/github.com/mongodb/mongo-tools/common/archive/parser.go:75-118 | By the number in the next four bytes: the terminator, a document of 5 bytes up to the maximum that is there and ends with a zero, or a corrupt stream |
| ArchiveStream.WriteAllNamespaces | pbm/archive/archive.go:101-148 | Whichever writer comes next each time, the stream is the encoding of an interleaving of what each writer writes; it succeeds exactly if every dump can be opened and is read to a good end, and a writer that fails leaves out its end marker and its last chunk |
| ArchiveStream.WriterEnds | pbm/archive/archive.go:113-145 | A writer ends well exactly if its collection is empty or its dump can be opened and holds documents, and then exactly these are delivered; it leaves an end marker exactly then, and nothing at all if the dump cannot be opened |
| ArchiveStream.ParsesBack | vendor/github.com/mongodb/mongo-tools/common/archive/parser.go:122-165 | The stream parses back into exactly the blocks written |
| ArchiveStream.WriterReceived | pbm/archive/archive.go:114-145 | The blocks of one writer amount to its documents in order and one end marker; for size 0 to the end marker alone |
| ArchiveStream.ReceivedExactly | vendor/github.com/mongodb/mongo-tools/common/archive/demultiplexer.go:132-256 | The blocks of one collection are taken if and only if nothing comes with or behind its end marker; then its documents are all of theirs, in order, and it is closed exactly by an end marker |
| ArchiveStream.StreamDelivers | pbm/archive/archive.go:101-148 | Under every interleaving of the writers, taking the stream apart gives each collection its documents in order, closed once at its end |
| ArchiveStream.BlocksAreBounded | pbm/archive/archive.go:130-135 | With documents within the maximum no data chunk exceeds twice the maximum |
| Calendar.DayReadsBack | pbm/oplog/chunk.go:395-404 | Counting years and months from 1970 inverts the closed formula for days |
| Calendar.DateReadsBack | pbm/oplog/chunk.go:458-464 | And the formula inverts the counting, for every date from 1970 on |
| Calendar.TimeReadsBack | pbm/backup/chunk.go:62-83 | Every 32-bit time reads back from its 14 digits |
| Calendar.TimeWritesBack | pbm/oplog/chunk.go:458-464 | And what parses to a 32-bit time is exactly how that time is written: no other text is read as it |
| ChunkNames.EachHasItsExtension | pbm/compress/compress.go:30-81 | Each of the five extensions belongs to one decoder, and no extension to plain text |
| ChunkNames.ExtensionNamesDecoder | pbm/compress/compress.go:30-81 | The extension names a compression with the same decoder, and no extension is rejected |
| ChunkNames.TSReadsBack | pbm/oplog/chunk.go:458-476 | Every timestamp reads back, for both readers |
| ChunkNames.ChunkNameReadsBack | pbm/backup/chunk.go:17-60 | Every backup chunk name parses back to its timestamps and decoder |
| ChunkNames.FilepathReadsBack | pbm/oplog/chunk.go:394-456 | Every PITR chunk name parses back to its timestamps, its decoder, and the replica set up to its first slash |
| ChunkNames.ReplsetReadsBackUnlessSlash | pbm/oplog/chunk.go:423-456 | The replica set reads back if and only if its name has no slash |

## Left out

- RestoreProtocol.NoHalfRestoredNode: flushing the old data and running a clean-up strategy are one step each that happens entirely; a flush or a clean-up that fails half way is not modelled, because progress is only recorded after the flush has returned.
- RestoreProtocol: external restores and `restore-finish`, restore logs, statistics and the JSON meta; a heartbeat may look stale at any moment instead of by its age.
- IncrementalRoundTrip.SetBcpFiles: source links that run in a circle, on which the walk of the program never ends; backups with absolute file names (the dbpath prefix that is cut off again), file modes, compression and size accounting.
- IncrementalRoundTrip.BackupAndRestore: the files on disk do not change while one backup is taken, the data directory is empty before the restore, and what the backup cursor promises about the blocks it reports is an assumption (`Faithful`).
- PhysicalCopy.PhysRestore.CopyFiles: creating directories and errors of the file system; a copy either happens or the object is missing.
- IncrementalRestore.UploadFiles: the trimming of the dbpath from names, sizes on the storage, and 64-bit overflow of offsets.
- TxnReplay.OplogRestore.HandleOp: the namespace, UUID, clone and command filters are one flag on the entry, and what an operation does is a parameter; entries that cannot be decoded are not modelled.
- DistTxn.AppliedExactly: the variant of the exchange that physical restores use, which skips shards already done; lost and failed shards are a step that may always happen.
- OplogSlicing.WriteTo: the oplog does not change between the first record and the check for the one before it.
- OplogSlicing.OplogSlicer: the timer and the choice of the read concern; a cancelled run is one that ends earlier.
- Buckets.ClockAt: durations are unbounded; the program's saturate after 292 years.
- PitrGuard.BuildReport: the selection of the backups by storage profile and the configuration are parameters.
- DeletionTurns.ExecuteTargets: the oplog, the setting of PITR and the backups taken by others do not change while the targets are carried out.
- DeletionTurns.RefusedExactly: incremental backups are taken to be of the whole database, never selective, as the program takes them.
- Deletion.DeleteTargets: deletions fail or are refused as the faults say; which ones PITR refuses is the subject of `DeletionTurns`.
- Cleanup.MakeCleanupInfo: one storage; whether PITR runs and whether a later base snapshot exists are parameters.
- Cleanup.NewestBaseDecided: the last second of the 32-bit range, where the bound of the query wraps around and nothing is listed.
- RestoreProgress.CanStillSucceed: that the run does go on needs agents that are scheduled and a storage that answers; what is proved is that it always can.
- Lock.MutualExclusion: nothing is promised once a header has been taken again while a deletion that names it was pending; `Lock.TakenExactlyBy` says what can happen then.
- Lock.AcquiredOnce: the log of operations is a capped collection; records dropped from it are not modelled.
- ArchiveStream.WriteAllNamespaces: a write to the stream that fails, after which the stream ends anywhere.
- ArchiveStream.StreamDelivers: checksums, the prelude, the renaming of time series collections, and how receivers are announced and opened.
- ChunkNames.FilepathReadsBack: the file name kept in the meta (a cleaned path) and fractional seconds, which the time parser would accept after the digits.
- Agent nomination, PITR monitors, priorities and the de-duplication of commands: timing and configuration with little to prove beyond the lock.
- `converged`, `reconcileStatus` and the running minima and maxima of `pbm/backup/backup.go`: polling loops that fold over the states of the replica sets.
- MongoDB commands, storage back ends, compression codecs, the command line, status printing and configuration parsing.

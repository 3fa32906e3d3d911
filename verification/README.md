# KairosFlux, modelled and proved

KairosFlux is an LSM key-value engine with a write-ahead log, a Raft implementation, a versioned
("temporal") store, a job reconciler, a delivery loop and a hash ring. This project models the parts
whose correctness is an argument rather than a reading, and proves the arguments in Dafny.

Code that changes state step by step is modelled as classes and methods with loops, each proved equal
to a function on values. What must hold over time is proved on state machines over those functions:
a run is a sequence of states linked by `Next`, and the main theorems speak about every state of every
run.

| part | modules |
|---|---|
| byte strings, sorted tables | `Bytes`, `Tables` |
| memtable, merge, SSTable bytes, Bloom filters | `SkipLists`, `Merge`, `SSTable`, `SSTableFile`, `Bloom`, `BloomFile` |
| files, levels, compaction, reload by file name | `Lsm`, `LsmRuns`, `FileNames` |
| engine, range scans, byte credit | `Store`, `Engines`, `Credit` |
| log, standalone server, crash recovery | `Wal`, `KvServer`, `KvRuns`, `ServerReads` |
| Raft elections and logs | `Raft`, `RaftLogs`, `RaftVotes`, `RaftReplies`, `RaftNode` |
| job reconciler | `Jobs`, `JobCuts`, `JobPace`, `JobLoop`, `JobStore` |
| versioned writes, replay, paging, wire format | `VersionKeys`, `Temporal`, `TemporalReads`, `Paging`, `Frames` |
| delivery, placement | `Delivery`, `Ring`, `HashRing` |

A value of `None` is the tombstone, a nil slice in the code. Integers are unbounded; 32-bit and 64-bit
length fields, wrap-around of signed times and the 64-bit Bloom probe are written out where they occur.
I/O results, clocks, coin flips of the skip list, hashes and the network are parameters.

## What the code promises and does not quite keep

Where a promise turned out false of the code, the code is modelled as it is, a lemma gives a family of
inputs or a run on which it fails, and another says exactly when it holds.

* A range scan lists what `Get` finds if and only if it reads every key of the range alike: no empty value in
  a memtable, and no memtable hidden by the empty key that holds another answer (`Store.ScanListsGetIff`,
  `Store.NothingHiddenIff`, `Store.EmptyKeyHidesMemtable`).
* A replay restores what was logged if and only if no key's last record has the empty value
  (`KvRuns.ReplayIsExactIff`). Two overlapping writes of one key, logged one way and inserted the other, read
  after a crash and replay as they read before it if and only if the write inserted last has the value that
  the replay makes of the one logged last (`KvRuns.OverlappingWritesAgreeIff`).
* The log is reopened without cutting off a torn record. One torn byte makes the next replay lose
  everything appended after it (`Wal.TornByteHidesLaterRecords`); `Wal.ReplayReadsExactlyIff` says exactly
  which bytes replay as which records.
* A merge changes no answer if and only if no surviving later file holds an older answer for a merged key
  (`LsmRuns.MergeIsInvisibleIff`); a stop between two levels of one compaction call, or a failed merge of
  level 1, is enough to break it later (`LsmRuns.StopBetweenLevelsLosesRecency`,
  `LsmRuns.FailedMergeLeavesTheSame`). A call with failed merges leaves the files ready for the next one if and
  only if none of them was above level 0 (`Lsm.CompactTryKeeps`).
* Retention leaves of a key the version of the last kept file that knows it (`LsmRuns.ReclaimAnswersIff`). So a
  deleted key comes back if and only if a kept file holds a value for it and every later file that knows the
  key is dropped (`LsmRuns.DeletedKeyComesBackIff`); at or above the bound nothing changes
  (`LsmRuns.ReclaimKeepsAnswers`).
* A writer that waits for credit waits for one flush. It gets its credit if and only if no table was left by a
  failed flush or the live table leaves room (`Engines.Engine.AcquireCredit`).
* A follower accepts the entries that fit its log, unless the index in front of them is 0, which is always
  refused; the leader steps back behind it on the refusal (`RaftReplies.AcceptedIff`,
  `RaftReplies.RequestAfterRefusal`).
* An event of the job ledger is two store writes. A stop between them leaves an event that recovery reads and
  the next event replaces. A run keeps every ledger whole if and only if it never logs a number that counts
  such an event or repeats an acknowledged one (`Jobs.LedgersAreWholeIff`); `Jobs.GoingOnIsSafeIff` says which
  calls do, before the call, and `JobCuts.SafeFromHereIff` from which states an undisturbed loop is safe. After
  a call that was cut short behind its event, going on is safe if and only if the event is not acknowledged,
  recovering first if and only if it is (`Jobs.AfterACut`). `JobCuts.RetryReplacesUnacknowledged` is a run whose
  ledger starts at attempt 2. Dependencies come first if and only if no unacknowledged success that a dependent
  relies on is replaced (`Jobs.DependenciesComeFirstIff`, `JobCuts.UnacknowledgedSuccessIsLost`). Runs in which
  no recovery reads an unacknowledged event are safe on both counts (`JobCuts.CarefulRunsAreExact`), and a replay
  of the store tells whether there is one (`JobStore.ReplayTells`).
* Pages add up to the listing for every page size if and only if no hit extends another's logical key by
  something that, with its own tail, sorts below the other's tail (`Paging.PagesAddUpIffNoneUndercuts`); a key
  extended by a byte below `:` is one case (`Paging.ShorterKeyIsLost`).
* Keys arriving in ascending order can still be missed by delivery, because the cursor may step behind the
  stored offset key. A list of arriving keys is delivered in every run if and only if none of them beyond the
  first, or beyond the second if every commit that took hold was heard of, sorts below the offset key
  (`Delivery.AscendingIsEnoughIff`, `Delivery.SecondKeyIsMissed`, `Delivery.ThirdKeyIsMissed`). A key that
  arrives below every cursor in play is missed for good (`Delivery.MissedForGood`).
* A failed sync makes the next send repeat lines, and a torn line loses a key, in each case unless there was
  nothing to write (`Delivery.FailedSyncRepeatsIff`, `Delivery.TornLineLosesAKeyIff`).
* After a write of a logical key ending in `:current`, the first version of the key in front of that suffix gets
  number 1 if and only if the payload does not decode as a pointer above zero (`Temporal.PointerSuffixSkipsIff`).

## Model

| member | source | states |
|---|---|---|
| `KvRuns.ReadsSeeTheLastWrite` | service/fsm.go:97-207 | in every run of logged and refused writes, flushes, compactions, checkpoints, crashes and replays, whenever the server serves, each key reads as its last write that took effect: an acknowledged one, one in flight at a crash whose record was kept, or what the log and files still said when a crash lost an unsynced survivor |
| `KvRuns.ReadsAreAcknowledgedOrInDoubt` | service/fsm.go:97-207 | however many crashes there were and however much of the log each kept, a key reads as its last acknowledged write or one logged after it and never acknowledged |
| `KvRuns.ServerSeesTheLastWrites` | service/fsm.go:302-341 | in every run with flushes, compactions, crashes and replays the server's `Get` answers as it would on the last writes that took effect; what that answer is, `ServerReads` says |
| `ServerReads.ReadsTheLastVersion` | service/fsm.go:302-341 | in every state of every run of versioned writes with stops and cold restarts, `Get` returns a key written outright as it is, any other key as the payload of its last acknowledged version, and a key with none as absent |
| `ServerReads.ServerReadsTheLastVersion` | service/fsm.go:302-341 | the same of a serving server, through log, memtables, files, crashes and replays |
| `KvRuns.StepKeepsInv` | service/fsm.go:138-207 | every step keeps: a crash now would recover the last effective write of each key, what memory holds is in the log, and reads agree |
| `KvRuns.CheckpointFine` | service/fsm.go:188-207 | rewriting the log to a snapshot of memory forgets flushed records and keeps every key readable and recoverable |
| `KvRuns.CheckpointLog` | storage/engine.go:238-272 | the rewritten log's last record of a key is what memory holds for it, tombstones included, and there is none for other keys |
| `KvRuns.CrashFine` | storage/wal.go:237-274 | a crash that keeps any number of unsynced records, those that survived an earlier crash among them, leaves exactly the settled writes and the kept in-flight ones recoverable |
| `KvRuns.RefuseFine` | storage/wal.go:155-168 | a write refused because its sync failed changes no read although its record stays in the log |
| `KvRuns.ReplayFine` | service/fsm.go:97-109 | replaying one more record keeps already replayed keys right and untouched keys at their file value, even if a flush or another crash falls in between |
| `KvRuns.InsertFine` | service/fsm.go:150-164 | inserting a synced record makes it the key's answer now and after a crash |
| `KvRuns.AppendFine` | service/fsm.go:150-164 | an appended but not inserted record changes neither reads nor what is settled |
| `KvRuns.FlushFine` | storage/engine.go:365-397 | a flush changes no read and nothing recoverable |
| `KvRuns.CompactFine` | storage/engine.go:491-519 | a compaction call changes no read and nothing recoverable |
| `KvRuns.ReplayedAnswers` | service/fsm.go:97-109 | replaying a log over any engine state gives each logged key its last record, with an empty value read as a delete, and leaves the rest |
| `KvRuns.ReplayIsExactIff` | storage/wal.go:260-266 | a replay restores every logged value if and only if no key's last record is the empty value |
| `KvRuns.OverlappingWritesAgreeIff` | service/fsm.go:138-164 | two overlapping writes of one key, logged one way and inserted the other, read the same before a crash and after its replay if and only if the one inserted last has the value the replay makes of the one logged last |
| `KvServer.KvServer.Write` | service/fsm.go:150-164 | the record is appended to the log and, once the credit is there, the engine answers the new value for that key and the old for all others |
| `KvServer.KvServer.Get` | service/fsm.go:302-341 | the value the engine holds under the key; failing that, whenever the engine holds the cells of a state of the versioned store, the payload of the key's last acknowledged version, or nothing if there is none |
| `KvServer.KvServer.Checkpoint` | service/fsm.go:188-207 | the log becomes the encoding of the merged memtables |
| `KvServer.KvServer.ReplayLog` | service/fsm.go:97-109 | the engine answers each key by the last record of the log that touches it, otherwise as before |
| `KvServer.ReplayOne` | service/fsm.go:98-105 | after a put the key reads as the value, after a delete as deleted; no other key changes, and any other opcode changes nothing |
| `KvServer.Rewritten` | service/fsm.go:194-206 | the file written for a snapshot is the encoding of its entries as put and delete records |
| `KvServer.OutcomeOfLog` | service/fsm.go:97-109 | what a replay of logged writes leaves for a key is its last write, an empty value excepted |
| `KvServer.AnyCutRecoversAPrefix` | storage/wal.go:237-274 | a log cut at any byte replays to the effect of a prefix of its writes, of all of them if nothing was cut |
| `KvServer.CheckpointedLogReplays` | service/fsm.go:188-207 | replaying a checkpointed log gives what memory held, and touches no other key |
| `Wal.ReplayOfAnyCut` | storage/wal.go:237-274 | any byte cut of an encoded log replays as the longest run of whole records |
| `Wal.ReplayRoundTrip` | storage/wal.go:209-274 | a whole log replays record by record; only empty values change, to none |
| `Wal.ReplayReadsExactlyIff` | storage/wal.go:237-274 | bytes replay as given records if and only if they start with their encoding and hold no further whole record |
| `Wal.TornByteHidesLaterRecords` | storage/wal.go:68-88 | behind one torn byte, every log under 16 MB that starts with a put or delete replays as nothing |
| `Wal.ParseEncodes` | storage/wal.go:237-274 | whatever is replayed was there byte for byte |
| `Wal.Replay` | storage/wal.go:237-274 | the reading loop returns the whole records up to the first one that does not fit |
| `Store.WriteIsMapUpdate` | storage/engine.go:275-344 | a write changes the answer of its key and of no other |
| `Store.SwapIsInvisible` | storage/engine.go:365-378 | swapping the memtables changes no answer |
| `Store.FlushIsInvisible` | storage/engine.go:382-395 | replacing the flushed table by a file changes no answer |
| `Store.CompactionIsInvisible` | storage/engine.go:491-519 | a whole compaction call changes no answer and keeps the file invariant |
| `Store.ScanAnswers` | storage/engine.go:155-212 | a scan lists, in ascending order, a key of the range exactly when `Get` finds it in what the empty key does not hide and memory does not hold it empty, with that value |
| `Store.ScanListsGetIff` | storage/engine.go:155-232 | a scan lists exactly what `Get` finds in the range if and only if it reads each key of the range alike: not empty-valued in memory, and no hidden memtable with another answer |
| `Store.NothingHiddenIff` | storage/engine.go:216-232 | with a start, or without the empty key in memory, a key is read alike if and only if memory does not hold it empty |
| `Store.EmptyKeyHidesMemtable` | storage/merge_iterator.go:65-81 | with the empty key in the live memtable of any state, a scan without a start misses every key only that table holds |
| `Engines.Engine.constructor` | storage/engine.go:61-87 | a new engine has empty memtables, the given files and unused credit |
| `Engines.Engine.Get` | storage/engine.go:101-139 | live table, flushing table, then files, answers as newest wins; a tombstone reads as absent |
| `Engines.GetFromFiles` | storage/engine.go:411-442 | newest-first search with least and greatest key pruning answers as the last file that holds the key |
| `Engines.Engine.Put` | storage/engine.go:275-344 | unless the credit never comes, the key answers the new value, all others as before, credit in use equals the bytes in memory again, and a live table above the size threshold asks for a flush |
| `Engines.Engine.AcquireCredit` | storage/engine.go:302-309 | a reservation succeeds at once if it fits; otherwise one flush is asked for, and it succeeds if and only if no table was left by a failed flush or the live table leaves room; no answer changes |
| `Engines.Engine.WorkerTurn` | storage/engine.go:399-408 | the worker flushes exactly when asked, and asks again exactly if the write failed |
| `Engines.Engine.Flush` | storage/engine.go:365-397 | the state becomes swapped and, if the file was written, flushed; a failed write keeps table and credit; credit moves with memory |
| `Engines.Engine.SnapshotLive` | storage/engine.go:238-272 | the two-pointer walk returns a copy of the merge of both memtables, the live one winning |
| `Engines.WalkBoth` | storage/engine.go:250-271 | the walk drains both tables in key order |
| `Engines.CollectRange` | storage/engine.go:216-232 | the nodes between the bounds, copied |
| `Engines.FileSources` | storage/engine.go:164-182 | leaving out files whose keys miss the range changes no answer of the merge |
| `Engines.Engine.ScanRange` | storage/engine.go:155-212 | the callback receives the scan's listing in order, up to and including the first entry it declines |
| `Engines.ListMerge` | storage/engine.go:193-211 | listing a merge without tombstones, stopping when told to, gives a prefix of the whole listing |
| `Engines.Engine.CompactLevel` | storage/engine.go:497-518 | one level at the threshold becomes one file of the next level and its sources are gone; other levels stay, and a failed merge changes nothing |
| `Engines.Engine.CompactSSTable` | storage/engine.go:491-519 | whichever merges fail, the whole loop changes no answer and keeps the order, and it leaves the file invariant if and only if no merge above level 0 failed |
| `Credit.CreditIsConservedInEveryRun` | internal/credit/credit.go:25-59 | in every interleaving of writers and the flusher, credit in use is bytes in memory plus what is reserved or owed, and at most the larger of budget and largest record |
| `Credit.ClampNeverFires` | internal/credit/credit.go:51-59 | no release asks for more than is in use |
| `Credit.QuietCreditIsMemory` | storage/engine.go:275-299 | with nobody under way, credit in use is the bytes of both memtables |
| `Credit.Pool.TryAcquire` | internal/credit/credit.go:30-38 | granted whenever the sum stays within the budget, without a budget, and to whoever finds the pool empty; refused otherwise and then nothing changes |
| `Credit.ReservesWhenThereIsRoom` | internal/credit/credit.go:25-38 | in every conserved state a writer may reserve if what memory holds, what is in transit and its record stay within the budget, or if nothing is held at all |
| `Credit.Pool.Release` | internal/credit/credit.go:51-59 | gives back, not going below zero |
| `Tables.UpsertIsMapUpdate` | storage/skiplist.go:94-135 | insertion into a sorted table is map update and keeps it sorted |
| `Tables.UpsertBytes` | storage/skiplist.go:94-135 | the byte total moves by the whole record on insert and by the value difference on overwrite |
| `Tables.TablesWithEqualAnswersAreEqual` | storage/merge_iterator.go:50-54 | a sorted table is determined by its answers |
| `SkipLists.SkipList.constructor` | storage/skiplist.go:33-39 | an empty list in shape |
| `SkipLists.SkipList.FindGTE` | storage/skiplist.go:60-71 | the descent stops in front of the first key not below the given one, as a linear scan would |
| `SkipLists.SkipList.Search` | storage/skiplist.go:79-91 | the answer of a linear scan of the bottom level |
| `SkipLists.SkipList.CollectAll` | storage/skiplist.go:169-181 | the bottom level in order |
| `SkipLists.SkipList.Insert` | storage/skiplist.go:94-135 | for any tower height, the bottom level becomes the map update, every level stays linked to the next tall enough tower, and size, byte size and the returned difference are exact |
| `SkipLists.LinkedInsert` | storage/skiplist.go:117-131 | once predecessors and new node are rewired, every link leads to the next tower high enough |
| `Merge.MergeIterator.Next` | storage/merge_iterator.go:115-136 | takes the least head with the value of the newest source holding it and drops that key everywhere, or reports an unsorted source |
| `Merge.MergeIterator.Advance` | storage/merge_iterator.go:84-112 | steps one source, failing exactly on a key that does not ascend |
| `Merge.DrainEnd` | storage/merge_iterator.go:50-54 | a drained merge is ascending, the union of the keys, each with its newest value |
| `Merge.MergeAll` | storage/merge_iterator.go:65-136 | terminates, fails exactly if some source does not strictly ascend, otherwise outputs the newest-wins union |
| `Lsm.MergedTableAnswers` | storage/sstable_write.go:168-312 | the merged table is sorted and answers each key as the newest source |
| `Lsm.CompactKeeps` | storage/engine.go:491-519 | a compaction call merges only levels above which all is empty, leaves levels 1 to 9 below the threshold, files in creation order with deeper first, and every answer as it was |
| `Lsm.CompactTryKeeps` | storage/engine.go:491-519 | a call in which any merges fail keeps order and answers, and levels 1 to 9 below the threshold if and only if no merge above level 0 failed |
| `Lsm.FlushKeeps` | storage/engine.go:382-395 | a flushed file wins for its keys and keeps the file invariant |
| `LsmRuns.NewestWinsInEveryRun` | storage/engine.go:411-442 | in every run of flushes, compactions, restarts and retention, the last file holding a key, at or above the retention floor, holds its newest flushed version |
| `LsmRuns.StepKeepsDiskInv` | storage/engine.go:413-422 | each step keeps the order, level and recency invariant |
| `LsmRuns.MergeIsInvisibleIff` | storage/engine.go:413-422 | merging a level changes no answer if and only if no later file of another level holds a merged key with a different answer |
| `LsmRuns.StopBetweenLevelsLosesRecency` | storage/engine.go:491-519 | a stop between two levels of one call lets the next call bury the newest version |
| `LsmRuns.FailedMergeLeavesTheSame` | storage/engine.go:506-511 | a failed merge of level 1 leaves the files as that stop does |
| `LsmRuns.ReclaimKeepsAnswers` | storage/engine.go:535-557 | dropping files that end below a bound changes no answer from the bound up |
| `LsmRuns.ReclaimAnswersIff` | storage/engine.go:535-557 | after retention a key has a version if and only if a kept file holds it and every later file that knows the key is dropped |
| `LsmRuns.DeletedKeyComesBackIff` | storage/engine.go:535-557 | a deleted key becomes readable again if and only if a kept file holds a value for it and every later file that knows the key, the tombstone's among them, is dropped |
| `LsmRuns.RetentionCanUncoverDeletedKeys` | storage/engine.go:535-557 | for every key below the bound there are files, in the order the engine keeps, on which that happens |
| `FileNames.ReloadRestoresFiles` | storage/sstable_meta.go:20-118 | parsing names in any directory order and sorting by creation time restores the file list |
| `FileNames.ParseLevelOfName` | storage/compaction_stats.go:13-28 | the level written into a file name is the level read from it |
| `FileNames.ParseCreatedOfName` | storage/compaction_stats.go:37-48 | the creation time written into a file name is the one read from it |
| `SSTable.WriteData` | storage/sstable_write.go:36-76 | the written data region and block index are those of the table, 64 entries a block |
| `SSTable.ReadWrittenRecord` | storage/iterator.go:146-188 | a written record in front of any bytes reads back, tombstone or value |
| `Bytes.BigEndianAscends` | storage/sstable_write.go:36-76 | big-endian numbers of one width sort as the numbers do, so the first byte is the most significant |
| `SSTable.FindBlock` | storage/sstable_read.go:324-334 | the binary search finds the first block whose last key is not below the key, or the last |
| `SSTable.ScanBlock` | storage/sstable_read.go:360-397 | scanning a block answers like the block's entries |
| `SSTable.SearchBlock` | storage/sstable_read.go:324-397 | index search and block scan answer like linear lookup |
| `SSTableFile.LoadWrittenIndex` | storage/sstable_read.go:278-320 | the block index written behind the data is the one loaded |
| `SSTableFile.LoadWrittenBloom` | storage/sstable_read.go:221-257 | the Bloom section written behind the index is the one loaded |
| `SSTableFile.ReadAllData` | storage/sstable_read.go:113-173 | reading the data region from the front returns the table |
| `SSTableFile.ClipSource` | storage/iterator.go:254-271 | skipping below the start and stopping above the end leaves the entries in range |
| `SSTableFile.ClipAnswers` | storage/iterator.go:254-271 | a clipped table is sorted and answers exactly the keys in range |
| `SSTableFile.RangeOfFile` | storage/iterator.go:70-102 | seeking to the block that may hold the start loses no entry in range |
| `Bloom.BloomFilter.Add` | storage/bloom.go:72-78 | sets exactly the probe bits of the key |
| `Bloom.BloomFilter.MayContain` | storage/bloom.go:82-91 | true exactly if all probe bits are set |
| `Bloom.PartitionedBloom.constructor` | storage/partitioned_bloom.go:52-72 | every key given is admitted: no false negatives |
| `Bloom.PartitionedBloom.MayContain` | storage/partitioned_bloom.go:86-93 | a key of an unknown namespace is refused, otherwise its partition decides |
| `Bloom.NamespaceIsInFront` | storage/partitioned_bloom.go:39-46 | the namespace is what stands in front of the first separator and the suffix what follows it; a key without one is all suffix |
| `Bloom.ReadFromSSTable` | storage/sstable_read.go:180-190 | filter, index search and block scan together answer like linear lookup |
| `BloomFile.FilterRoundTrip` | storage/bloom.go:94-120 | a filter decodes from its bytes with its size and every bit |
| `BloomFile.BloomRoundTrip` | storage/partitioned_bloom.go:106-156 | the partitions decode from their bytes, in whatever order they were written |
| `BloomFile.Encode` | storage/partitioned_bloom.go:106-118 | the bytes written mirror exactly the partitions |
| `BloomFile.WriteFile` | storage/sstable_write.go:16-107 | the file holds the table, its block index and a filter that admits every key of the table |
| `BloomFile.ReadFile` | storage/sstable_read.go:180-257 | from the bytes of a written file alone, filter, index and block scan answer like linear lookup in the table |
| `Raft.ElectionSafety` | raft/raft_election.go:56-192 | in every run with loss, duplication, reordering, crashes and vote timeouts, no term has two elected nodes |
| `Raft.LeadersAreElected` | raft/raft_election.go:172-192 | two nodes leading in one term are one node |
| `Raft.TimeoutKeeps` | raft/raft_election.go:160-167 | releasing the vote for oneself within a term breaks no vote given and no election won |
| `Raft.GrantKeeps` | raft/rpc.go:62-92 | a granted vote is the voter's only one in that term, and the voter was not elected in it |
| `Raft.StandKeeps` | raft/raft_election.go:56-70 | standing for election leaves every earlier promise behind in an earlier term |
| `Raft.CrashKeeps` | raft/raft_persist.go:30-49 | a restart from the saved term and vote keeps every promise, although terms adopted from replies were not saved |
| `Raft.MajoritiesMeet` | raft/raft_election.go:148-159 | two vote counts above half the peers share a voter |
| `RaftLogs.LogMatching` | raft/rpc.go:118-199 | in every reachable state, entries with equal index and term stand at the same position, with identical logs up to it |
| `RaftLogs.AcceptedMatches` | raft/rpc.go:146-187 | a follower whose previous entry fits ends with a log that matches the leaders' logs |
| `RaftLogs.PlaceMany` | raft/rpc.go:170-187 | placing the sent entries leaves the log unchanged or makes it a prefix of the leader's |
| `RaftLogs.WinKeeps` | raft/raft_election.go:172-192 | an election opens a term no log entry has yet |
| `RaftLogs.ProposeKeeps` | raft/raft_replication.go:85-124 | a leader's append extends its term's log and keeps all logs matching |
| `RaftLogs.ReplicateKeeps` | raft/raft_replication.go:126-189 | what a leader sends is a piece of its log, even when its notion of the next index is stale |
| `RaftVotes.GrantedIff` | raft/rpc.go:62-116 | the decision on every vote request of every run, said of logs: granted if and only if the term is not below the voter's, the voter is free in it or has chosen this candidate, and the voter's last entry is of an earlier term than that of the candidate when it stood, or the voter's log is a prefix of the candidate's |
| `RaftVotes.LastEntriesDecide` | raft/rpc.go:94-116 | for logs of a run, comparing last terms and last indices is comparing whole logs: an earlier last term, or a prefix |
| `RaftVotes.VoterWasNotNewer` | raft/rpc.go:62-116 | every vote ever granted was granted by a voter whose log was not newer than the one its candidate stood with |
| `RaftVotes.ElectedIsNotOlder` | raft/raft_election.go:134-192 | whoever is elected has a log that is not older than the log any of its voters had when voting |
| `RaftVotes.TimedOutVotesAgain` | raft/raft_election.go:160-167 | after a round that ran out of time the node votes again in the same term, for exactly the candidates whose log is not older |
| `RaftReplies.AcceptedIff` | raft/rpc.go:118-199 | the decision on every request with entries of every run, said of logs: accepted if and only if its term is not below the follower's, its previous index is not 0, and the follower's log agrees with the leader's up to it; then the follower holds the leader's log up to the last entry sent |
| `RaftReplies.HigherTermIsFollowed` | raft/raft_election.go:93-118 | whatever a node hears, a higher term makes it a follower of that term whose vote is free unless this message asked for it, and no term is ever lowered |
| `RaftReplies.CandidateStepsBack` | raft/rpc.go:118-145 | a request of the own term makes its receiver a follower and leaves its vote, one of a lower term changes nothing |
| `RaftReplies.MatchedWasHeld` | raft/raft_replication.go:199-224 | in every run, a positive match index is one that a request of this leader reached when the peer accepted it: the peer's log had an entry there, and if entries came with the request agreed with the log of its term's leader up to there |
| `RaftReplies.RequestAfterSuccess` | raft/raft_replication.go:126-224 | after a success the next request starts right behind what was accepted and carries the rest of the log |
| `RaftReplies.RequestAfterRefusal` | raft/raft_replication.go:126-224 | after a refusal it starts one entry earlier |
| `RaftReplies.RequestAfterError` | raft/raft_replication.go:136-199 | so too after a request that failed on the way |
| `RaftReplies.RequestAfterElection` | raft/raft_election.go:172-192 | the first request after an election starts behind the winner's last entry |
| `RaftReplies.RequestAfterProposal` | raft/raft_replication.go:85-189 | in every run, the next request to a peer within the log ends with the command just proposed, at the leader's term |
| `RaftNode.CountVotes` | raft/raft_election.go:134-170 | stopping at the first majority wins exactly if the votes with one's own exceed half the peers |
| `RaftNode.RaftNode.StartElection` | raft/raft_election.go:56-89 | next term, vote for oneself, saved; a leader does nothing |
| `RaftNode.RaftNode.GiveUp` | raft/raft_election.go:160-167 | only a candidate still in that election's term steps back and releases its vote |
| `RaftNode.RaftNode.HearVoteReply` | raft/raft_election.go:93-118 | a higher term is adopted unsaved; a vote counts only in the current term |
| `RaftNode.RaftNode.BecomeLeader` | raft/raft_election.go:172-192 | every peer's next index is behind the last entry and its match index zero |
| `RaftNode.RaftNode.IsLogUpToDate` | raft/rpc.go:94-116 | last term, then last index, against a non-empty log; what this says about the logs is `RaftVotes.LastEntriesDecide` |
| `RaftNode.RaftNode.RequestVote` | raft/rpc.go:62-92 | adopts and saves a higher term, then grants and saves exactly if free or already given to the candidate and the log is up to date; over runs this is `RaftVotes.GrantedIff` |
| `RaftNode.RaftNode.AppendEntries` | raft/rpc.go:118-199 | refuses older terms and a previous entry that does not fit, otherwise follows and places the entries |
| `RaftNode.RaftNode.PlaceEntries` | raft/rpc.go:170-187 | truncates at the first conflict and appends what is missing, entry by entry |
| `RaftNode.RaftNode.AppendEntry` | raft/raft_replication.go:85-124 | only a leader appends, at the next index and its own term |
| `RaftNode.RaftNode.RequestFor` | raft/raft_replication.go:136-189 | previous index and term and the log suffix from the peer's next index |
| `RaftNode.RaftNode.HearAppendReply` | raft/raft_replication.go:199-224 | progress moves only by what was sent; a refusal steps back; a higher term is adopted |
| `RaftNode.RaftNode.Restart` | raft/raft_persist.go:30-49 | saved term and vote, a prefix of the log |
| `Jobs.LedgersAreWholeIff` | internal/jobctl/reconciler.go:59-181 | a run with stops and failed writes between any two store writes keeps every job's ledger whole at every moment if and only if it never logs a number that counts an unacknowledged event or repeats an acknowledged one |
| `Jobs.LedgerIsExact` | internal/jobctl/reconciler.go:59-181 | in such a run each slot's events are attempts 1 to n in order, n within the budget, only the last final, an alert only at its end |
| `Jobs.ExecutionsAreCounted` | internal/jobctl/reconciler.go:126-181 | in every run, executions exceed acknowledged events by at most the stops and failed writes and the one under way |
| `Jobs.GoingOnIsSafeIff` | internal/jobctl/reconciler.go:71-181 | whether recovery ran or not, the next call's event keeps the ledger if and only if the job is not risky in that slot: no unacknowledged event its status has moved on from, and no running mark on an acknowledged attempt |
| `Jobs.GoingOnRepeatsTheAttempt` | internal/jobctl/reconciler.go:113-181 | without recovery, a status left behind an acknowledged ledger makes the next execution log the attempt number the ledger ends with |
| `Jobs.AfterACut` | internal/jobctl/reconciler.go:113-123 | after a call cut short behind its event, going on is safe if and only if the event is unacknowledged, recovering first if and only if it is acknowledged |
| `Jobs.WriteKeepsLedgerIff` | internal/jobctl/reconciler.go:170-172 | the version write of an event, which replaces an unacknowledged one, keeps the ledger if and only if its number is not stale |
| `Jobs.SlotHistory` | internal/jobctl/reconciler.go:126-181 | a chained ledger has that shape in every slot |
| `Jobs.DecisionIsDue` | internal/jobctl/reconciler.go:71-126 | the attempt decided on is the one the listed ledger is due, or the one it ends with |
| `Jobs.RecoveredIsAligned` | internal/jobctl/reconciler.go:251-285 | whichever two writes a stop fell between, recovery makes the status say what the listed ledger says |
| `Jobs.DependenciesComeFirstIff` | internal/jobctl/reconciler.go:93-146 | at every moment of a run each job's dependencies succeeded in every slot the job has begun or logged, if and only if the run never replaces an unacknowledged success that a dependent relies on |
| `Jobs.DependenciesComeFirst` | internal/jobctl/reconciler.go:315-333 | in such a run, a job's event in a slot implies a succeeded event of every dependency in that slot |
| `JobCuts.SafeFromHereIff` | internal/jobctl/loop.go:66-87 | from any state between calls, every undisturbed continuation keeps every ledger whole if and only if no job is at risk in its open slot |
| `JobCuts.CarefulRunsAreExact` | internal/jobctl/loop.go:51-87 | in every run in which no recovery fails or reads an unacknowledged event and a failed final status write is followed by a restart, ledgers are whole and dependencies come first |
| `JobCuts.RetryReplacesUnacknowledged` | internal/jobctl/reconciler.go:256-280 | a run, for every spec with a retry, whose slot ends with attempt 2 as its only event |
| `JobCuts.UnacknowledgedSuccessIsLost` | internal/jobctl/reconciler.go:256-280 | a run in which a dependent relies on a success that the next slot's event replaces |
| `JobPace.AttemptsAreSpaced` | internal/jobctl/reconciler.go:80-85 | in every run that keeps its ledgers whole and whose clock does not go back, two attempts of one slot are at least the job's backoff apart |
| `JobPace.CarefulAttemptsAreSpaced` | internal/jobctl/reconciler.go:80-85 | so in every careful run |
| `JobPace.CallBeginsIff` | internal/jobctl/reconciler.go:71-126 | on the jobs of a careful run, a call executes if and only if its slot is marked running, or its last event failed and the backoff has passed, or it has no event and every dependency succeeded in the slot; the attempt is the one after those acknowledged, and every other call waits |
| `JobPace.CallRecords` | internal/jobctl/reconciler.go:126-181 | a call that executes and is not cut short adds one event: a success if and only if the execution succeeded, an alert if and only if it failed on the last attempt allowed, and the status to match |
| `JobStore.WriteIsBegin` | service/temporal_store.go:127-137 | the version write of an event takes the place of an unacknowledged one, warm or cold |
| `JobStore.AcknowledgeIsCommit` | service/temporal_store.go:139-150 | the pointer write acknowledges it |
| `JobStore.OtherStepsKeep` | service/temporal_store.go:107-150 | writes of other keys, failed calls and restarts leave the ledger as it is, acknowledged or not |
| `JobStore.ListedIsStored` | service/temporal_store.go:154-178 | the versions recovery lists are the acknowledged events and the unacknowledged one, in order |
| `JobStore.ReplayTells` | service/temporal_store.go:253-284 | once the ledger has a pointer, a replay reports it exactly if its last event is unacknowledged |
| `JobLoop.CallIsSteps` | internal/jobctl/reconciler.go:59-181 | a call of whose writes any number succeed is a path of the steps of a run |
| `JobLoop.LatestMatchingEvent` | internal/jobctl/reconciler.go:304-311 | the last event of the slot |
| `JobLoop.Loop.DepsSatisfied` | internal/jobctl/reconciler.go:315-333 | true exactly if every dependency's status is succeeded in that slot |
| `JobLoop.Loop.Reconcile` | internal/jobctl/reconciler.go:59-181 | decides, then writes running mark, event version, event pointer and derived status in order, as far as the writes succeed; which calls execute is `JobPace.CallBeginsIff`, what they leave `JobPace.CallRecords` |
| `JobLoop.Loop.RecoverJob` | internal/jobctl/reconciler.go:251-285 | rebuilds the status from the ledger as its phase demands |
| `JobLoop.Loop.RecoverAll` | internal/jobctl/loop.go:51-59 | after the scan every job is aligned with its unchanged listed ledger |
| `VersionKeys.KeyRoundTrip` | internal/temporal/temporal.go:57-76 | a version key parses back to its logical key and number, whatever the logical key holds |
| `VersionKeys.ParsedIsKey` | internal/temporal/temporal.go:62-76 | only version keys parse |
| `VersionKeys.VersionIsNotCurrent` | internal/temporal/temporal.go:84-92 | a version key is never a pointer key |
| `VersionKeys.VersionsAscend` | internal/temporal/temporal.go:32-34 | versions of a key are stored in the order of their numbers |
| `VersionKeys.BoundsEnclose` | internal/temporal/temporal.go:94-104 | the scan bounds enclose every version |
| `VersionKeys.PrefixRange` | service/temporal_store.go:236-250 | without 0xFF bytes, the range up to prefix and 0xFF is exactly the prefix |
| `Temporal.AcknowledgedIsNeverOverwritten` | service/temporal_store.go:107-150 | in every run with stops between the two writes and cold restarts, an acknowledged version stays in the store unchanged |
| `Temporal.AcknowledgedNumbersAreConsecutive` | service/temporal_store.go:81-93 | each acknowledgement carries the number after the last acknowledged one |
| `Temporal.PointerNamesAStoredVersion` | service/temporal_store.go:127-147 | the pointer always names a stored version with matching hash, and a read through it gives the last acknowledged payload |
| `Temporal.NextIsAbove` | service/temporal_store.go:81-93 | from the cache or, cold, from the pointer, the next number is one above the acknowledged ones |
| `Temporal.PointerSuffixSkipsIff` | service/temporal_store.go:62-93 | after a write of a logical key ending in the pointer suffix, the first version of the other key gets number 1 if and only if that payload does not decode as a pointer above zero, and otherwise the number behind it |
| `Temporal.TemporalStore.PutVersioned` | service/temporal_store.go:107-150 | version record, then pointer, then cache, for each way the writes may fail |
| `Temporal.CallIsBeginAndCommit` | service/temporal_store.go:107-150 | a successful call is the two steps of a run |
| `TemporalReads.ListVersions` | service/temporal_store.go:154-178 | exactly the stored versions of the key, in the order of their numbers |
| `TemporalReads.Latest` | internal/temporal/temporal.go:122-133 | the version with the greatest number |
| `TemporalReads.AsOf` | internal/temporal/temporal.go:137-147 | among versions written by the time, the greatest number; never a later write |
| `TemporalReads.Replay` | service/temporal_store.go:236-291 | the keys with a pointer in range, for each the version known at the time bound, and without a bound exactly those whose newest version the pointer does not name with its hash, all in key order |
| `TemporalReads.ReplayReportsUnacknowledged` | service/temporal_store.go:253-284 | in every state of a run, a key with a pointer is reported exactly if an unacknowledged version lies above it |
| `TemporalReads.DiscoversThePrefix` | service/temporal_store.go:239-250 | for keys without 0xFF bytes, exactly the pointers with the prefix are looked at |
| `Paging.PagesAddUpIff` | service/temporal_store.go:437-505 | following the cursor gives the listing for every page size if and only if storage order is listing order on the hits |
| `Paging.PagesAddUpIffNoneUndercuts` | service/temporal_store.go:437-505 | it does if and only if no hit extends another's logical key by something that, with its own tail, sorts below the other's tail |
| `Paging.PrefixFreePagesAddUp` | service/temporal_store.go:437-505 | it does when no logical key in the result is a proper prefix of another |
| `Paging.PagesGiveTheListing` | service/temporal_store.go:343-404 | a listing is in order and holds exactly the stored versions in the scanned range whose time lies in the window and whose source is the one asked for, and prefix-free pages concatenate to it |
| `Paging.HitsAreMatching` | service/temporal_store.go:343-404 | the hits of a scan are exactly the stored versions in range, window and source, said of the stored cells |
| `Paging.PageOf` | service/temporal_store.go:455-500 | one pass gives the first hits behind the cursor in storage order, sorted, whether more follow, and one exact count per source of the page |
| `Paging.ShorterKeyIsLost` | service/temporal_store.go:466-472 | a key that another extends by a byte below the separator is missing from pages of one |
| `Paging.CursorAdvances` | service/temporal_store.go:466-490 | each page leaves less behind the cursor, so following it ends |
| `Paging.ListWritesPage` | service/temporal_store.go:437-505 | on the stored cells: every entry of the page is a version behind the cursor in window and source, without more to come all of them are there, more follows exactly if some are missing, and with a source given no other is counted |
| `Frames.LengthAgrees` | proto/temporal_frame.go:648-678 | the length-only parser agrees with the full parser on every byte string |
| `Frames.EntryRoundTrip` | proto/temporal_frame.go:353-451 | an entry in front of any bytes decodes to itself and its length |
| `Bytes.LittleEndianIsReversed` | proto/temporal_frame.go:353-451 | little-endian bytes are the big-endian ones from the end |
| `Frames.ResponseRoundTrip` | proto/temporal_frame.go:469-497 | a response in front of any bytes decodes to its entries and counts, consuming exactly itself |
| `Frames.CursorRoundTrip` | proto/temporal_frame.go:600-644 | the newer decoder returns entries, counts and cursor of the newer encoder |
| `Frames.OldReadsNew` | proto/temporal_frame.go:681-719 | the older decoder reads the same entries and counts from the newer body |
| `Frames.NewReadsOld` | proto/temporal_frame.go:613-644 | the newer decoder reads an older body with no cursor |
| `Frames.EncodeResponse` | proto/temporal_frame.go:469-497 | appending entries and counts one by one gives the encoding |
| `Frames.DecodeResponse` | proto/temporal_frame.go:681-719 | the decoding loops accept and return exactly what the format says |
| `Frames.DecodeResponseWithCursor` | proto/temporal_frame.go:613-644 | finding the tail again by lengths and decoding the cursor, for every body |
| `Delivery.AscendingIsEnoughIff` | service/delivery/source.go:17-73 | a list of ascending keys is delivered (a strictly ascending prefix in the file, every key below the committed cursor in it) in every run with crashes between send and commit, if and only if no key beyond the first, or with every commit heard beyond the second, sorts below the offset key |
| `Delivery.SecondKeyIsMissed` | service/delivery/source.go:56-72 | for any two ascending keys below the offset key, a run ends with the second below every cursor and not in the file |
| `Delivery.ThirdKeyIsMissed` | service/delivery/source.go:56-72 | for any three, such a run without an unheard commit |
| `Delivery.DeliveredOnceInOrder` | service/delivery/deliverer.go:93-140 | in every run in which no key arrives below a cursor, the sink file is a strictly ascending prefix of the business keys holding every one below the committed cursor |
| `Delivery.CatchesUp` | service/delivery/deliverer.go:93-140 | rounds that meet no failure advance the cursor by their limit each, and once they have had room for everything behind it the sink file holds exactly the business keys |
| `Delivery.MissedForGood` | service/delivery/source.go:48-73 | a key below every cursor and not in the file is never delivered by any later step |
| `Delivery.FailedSyncRepeatsIff` | service/delivery/idempotent_sink.go:97-107 | after a send whose sync failed, the next send repeats lines unless one of the two had nothing to write |
| `Delivery.TornLineLosesAKeyIff` | service/delivery/idempotent_sink.go:46-69 | after a restart on a torn line, a committed round delivers as promised if and only if it had nothing to write |
| `Delivery.FetchIs` | service/delivery/source.go:48-73 | one spare key in the scan is enough to fill the batch or to reach the end |
| `Delivery.Fetch` | service/delivery/source.go:48-73 | the batch and the cursor behind the last key looked at |
| `Delivery.FileSink.constructor` | service/delivery/idempotent_sink.go:46-69 | the mark is the key of the last record |
| `Delivery.FileSink.Send` | service/delivery/idempotent_sink.go:75-108 | appends exactly the keys above the mark and raises the mark to the last of them |
| `Ring.WalkAfterRemoval` | cluster/routing.go:118-185 | after removing a node the walk from anywhere is the earlier walk with it deleted |
| `Ring.SkippingIsFailover` | cluster/placement.go:28-42 | skipping a dead node picks the same owner as removing it |
| `Ring.WalkMeetsInOrder` | cluster/routing.go:166-185 | the walk names each owner once, and one before another if and only if a point of it is met before every point of the other |
| `Ring.FirstAliveIs` | cluster/placement.go:28-35 | the owner picked is the node at the first alive position of the walk, and there is none if and only if nobody in the walk is alive |
| `Ring.OwnerIsFirstMet` | cluster/placement.go:28-42 | the owner picked is alive and has a point met no later than any point of any alive node |
| `Ring.OwnerIsNodeFor` | cluster/routing.go:137-185 | whenever the node the key hashes to is alive, it is the owner |
| `Ring.RemovalMovesOnlyItsKeys` | cluster/routing.go:116-133 | removal changes the owner only of the node's own keys |
| `Ring.AdditionMovesOnlyToIt` | cluster/routing.go:83-114 | addition changes owners only to the new node, even under hash collisions |
| `HashRing.HashRing.AddNode` | cluster/routing.go:83-114 | the node takes all its places, other points stay, points are sorted again |
| `HashRing.HashRing.RemoveNode` | cluster/routing.go:118-133 | exactly the points the node still owns go |
| `HashRing.Search` | cluster/routing.go:149-157 | the first point not below the hash, wrapping to the first |
| `HashRing.SortedPoints` | cluster/routing.go:95-103 | the points of the map in ascending order |
| `HashRing.HashRing.NodeForKey` | cluster/routing.go:137-145 | the owner of the first point met |
| `HashRing.HashRing.WalkNodesFrom` | cluster/routing.go:166-185 | each node that owns a point, once, in the order in which its first point is met going up from the hash and around |
| `HashRing.HashRing.OwnerOf` | cluster/placement.go:28-35 | nobody if and only if no alive node owns a point; otherwise an alive node with a point met no later than any point of an alive node |

## Left out

- KvRuns.ReadsSeeTheLastWrite: covers runs in which writes of one key do not overlap, values are not empty and nothing is appended behind a torn record; lemmas beside it show what happens otherwise. Every merge of a compaction call succeeds.
- LsmRuns.NewestWinsInEveryRun: a compaction call is one step whose merges succeed; a flush, a stop or a failed merge inside a call is outside it, and `StopBetweenLevelsLosesRecency` shows why. Creation times come from a clock that moves forward.
- Engines.Engine.AcquireCredit: one writer and the flush it asks for; other writers, who ask for flushes of their own, are in `Credit.CreditIsConservedInEveryRun`.
- Engines.Engine.ScanRange: files are tables here; that a table is read back from the bytes of its file, seeking included, is `SSTableFile.RangeOfFile`.
- Jobs.LedgersAreWholeIff: a status write is one step, because a status is read as the stored version with the greatest number, acknowledged or not; readings of the clock do not go back.
- Delivery.AscendingIsEnoughIff: a crash leaves whole records in the sink file; failed syncs and torn lines have their own lemmas.
- TemporalReads.Replay: the digest, a function of the returned entries, is not computed.
- RaftLogs.LogMatching: requests carry copies of entries; in the code they share the leader's log slice while in flight.
- Wal.Replay: lengths of 4 GB and more, whose 32-bit fields would wrap, are excluded by `Fits`.
- BloomFile.WriteFile: the filter is given; that one built from the table's keys admits them all is `Bloom.PartitionedBloom.constructor`. Lengths that would wrap their fields are excluded.
- Raft commit advancement, apply, snapshots and the snapshot branches of the handlers.
- Writes of a Raft snapshot straight to an SSTable, which bypass the standalone map.
- Group-commit batching, atomic log rewrite by rename, directory syncs, file descriptors and caches.
- Bloom sizing formulas; hash functions are arbitrary.
- The encodings of version records and pointers; the temporal store is modelled over their decoded form.
- Shard replica sets, liveness of the registry, slot arithmetic on wall-clock time, JSON, validation and configuration.
- The network layer, dispatch, workers, clients, gRPC and the command line.

# A verified model of a multi-version LSM-tree store

The modelled system is a key-value engine: a skip list in memory, frozen tables waiting to be
flushed, levels of sorted files, compaction between levels, a write-ahead log and transactions. Under
all of it lies one simple object, a map from (key, transaction id) to value in which the empty value
means "deleted". The project models the structures the engine moves its data through and proves that
no snapshot read ever notices the moves.

## How the pieces fit

- `Versions.dfy` - versions, the table order (key ascending, id descending), `First` (the reference
  read: scan a layout for the first visible version), `AgeOrdered` (per key, ids fall from newer to
  older places, except that a version may be repeated with the same value, as replaying a log does) and
  `SameVersions` (two layouts hold the same versions and agree key by key). `FirstIsNewest` says why a first-hit read is right: the layout is age-ordered. The empty key, under
  which commit markers are stored, is exempt from every order on ids: transactions commit in any
  order. For it the results state that no marker is lost.
- `SkipList.dfy`, `MemTable.dfy`, `Scan.dfy` - memory: heap nodes with forward and backward links, the
  current and frozen tables, and the scan over them.
- `Block.dfy`, `BlockIterator.dfy`, `Bloom.dfy`, `Sst.dfy` - searching and walking a table.
- `HeapIterator.dfy`, `MergeIterator.dfy`, `Compaction.dfy`, `TailBuild.dfy`, `Levels.dfy` - the
  compaction pipeline, when it throws, the index of files per level and the data directory.
- `Width.dfy` - when every table that flush and compaction build fits the 16-bit and 32-bit fields of the
  file format.
- `History.dfy`, `Engine.dfy` - the abstract store, and the engine whose invariant ties every structure
  to it. `Engines.ReadAfterRun` is the whole engine in one statement.
- `Reader.dfy` - a read that takes one lock at a time, interleaved with writers. Every engine operation
  returns the writer steps it took, so that the result on reads is one about the engine.
- `Commit.dfy`, `Transaction.dfy`, `Isolation.dfy` - buffered transactions, one by one and interleaved.
- `IdLists.dfy`, `FlushedIds.dfy`, `Session.dfy` - which transactions need no replay, and why replaying
  the others loses no committed write. `EngineSession.dfy` - the steps of engine, transactions and manager
  as the events of such a session.
- `ByteCodec.dfy`, `Record.dfy`, `Wal.dfy`, `BlockCodec.dfy`, `MetaCodec.dfy`, `BloomCodec.dfy`,
  `SstFile.dfy` - the byte formats, the log, and table files built and opened again.
- `BlockCache.dfy` - the LRU-K cache.
- `Reload.dfy`, `ByteReload.dfy`, `LeftOver.dfy` - the rebuilding of the index at start-up, from tables
  and from bytes, and what a throwing compaction leaves behind for it.
- `Reopen.dfy`, `Recovery.dfy` - the engine and the bytes joined: a store run, closed and reopened any
  number of times, and a store that crashes and replays its log.

Code that updates state in place is modelled by classes whose methods are proved against functions
on values; state machines with interleavings are pure functions from a state and an event to a state,
with theorems over every legal run. Random levels and coin flips are nondeterministic choices, the
string hash is an uninterpreted function (`Blooms.HASH`), and so is the heap's choice among items its
order does not tell apart (`HeapIterators.PICK`). Files are byte strings or the tables they hold, and
directory listings arrive in any order.

Standing hypotheses, stated as preconditions: keys of reads and transactions are not empty (the empty
key is the commit marker); a write is newer than what older places hold for its key, or repeats it (ids
of successive engine writes increase); the level ratio and the cache capacity are at least 1, the
cache's K at least 2; value separation is off. The byte formats have fields of 16, 32 and 64 bits. What
is written must have room in them (`Widths.Roomy`, a condition on the writes alone): each key and value
is shorter than 65536 bytes and each id below 0x4B * 2^56; the versions of each key, markers included,
take less than 65536 bytes together with the block capacity; all versions together stay within 32-bit
file offsets. The engine, its runs and the compaction theorems require this of the versions they are
given, and its invariant says in return that every file on disk can be read back from its bytes.

## What the model shows about the code

- The tail build of a compaction is guarded by `real_size() > 0`, which always holds because an empty
  block has size 2 (src/sst/sst.cpp:315, src/block/block.cpp:384-386). It therefore throws on an empty
  builder. `ThrowsIff` says exactly when: the stream is empty, or the first version of its last key
  closes a block and brings the closed bytes to the target. `SmallStreamsBuild` gives a condition a
  caller can check by adding up sizes, `TailBuildCanThrow` a failing stream for every capacity and
  target, `DefaultsCanThrow` one for the default configuration. The tables built before the throw
  already hold the whole stream (`GenSstFromIter`), so the guard the comment at src/lsm/engine.cpp:741
  describes would lose nothing.
- After such a throw the two levels are as before, so every later flush throws too while memory holds
  data (`LSMEngine.Flush`), and the tables already written stay in the data directory without being
  indexed. The directory holds exactly the indexed tables if and only if nothing has thrown
  (`LSMEngine.Run`), and reopening rebuilds the index if and only if that is so (`Reload`).
- A hit on disk carries the id of the query, not of the version (src/sst/sst_iterator.cpp:192-197). The
  disk half of commit validation asks with id 0 and so never sees a conflict: `TranContext.Commit` fails
  exactly when memory holds a newer version. `ValidatedCommit` gives the exact condition under which
  such a commit keeps age order, `DiskConflictUnseen` a run that loses it.
- Commit markers are not validated at all, so they stand in any order of ids (`MarkersCanBeOutOfOrder`).
  `operator>` on search items is an order exactly on items where a larger id of a key never comes with a
  larger source index (`GreaterAsymmetricIff`). The store's queues satisfy that for every key but the
  marker's (`QueueCompatible`); for the markers of two level-0 tables it fails exactly when the newer
  table holds the smaller id (`MarkersContradict`). Whatever the heap then does with the markers, it
  delivers every version, and every other key in order (`DeliveryPermutes`, `DeliveryOrdered`).
- A heap that holds versions the snapshot may not see can lose a live key: while it drops deletions it
  also drops a key whose newest version is a deletion from the snapshot's future. `ShownIsLive` says
  exactly when, `LiveKeyCanBeBuried` is a case. `MemTable::begin` filters first and is not affected.
- A key is never split over two blocks, and a block stores where each entry starts in 16 bits
  (src/sst/sst.cpp:299-302, src/block/block.cpp:159). A block is read back from its bytes if and only if
  every length and the start of every entry fit (`ReadsBackIff`). 4683 writes of one key with one-byte
  values, flushed into one table, do not, whatever the block capacity (`RewrittenMisread`,
  `RewrittenKeyIsLost`); nor do some 5500 commit markers. `BuiltRecoverable` proves that `Roomy` versions
  are always read back.
- Recovery replays by rising id over whatever is on disk. With an out-of-date flushed set the replayed
  store keeps age order if and only if the disk holds nothing strictly newer for a replayed key
  (`ReplaySoundIff`), and reads are right if and only if everything newer that it does hold was replayed
  as well (`ReplayReadsIff`); `StaleReplayHides` is a failing case.
- A table file whose largest id has 0x4B as its top byte can be taken for the longer footer format.
  `OpenRecovers` proves that opening recovers the table if and only if the tail does not look like
  that; `FooterCanBeMistaken` builds, for any filter, a table for which it does.
- Reading a key the same transaction has removed returns a present, empty value rather than nothing
  (src/lsm/transation.cpp:107-113): `RemovedReadsEmpty`. `ReadsOwnWrites` proves that a transaction
  reads its snapshot with its own writes on top if and only if it has not buffered an empty value.

## Model

| member | source | states |
|---|---|---|
| `Versions.LessTransitive` | src/block/block.cpp:207-210 | lexicographic order on byte strings is transitive |
| `Versions.LessTotal` | src/block/block.cpp:207-210 | any two keys compare in exactly one way |
| `Versions.FirstIsNewest` | src/lsm/engine.cpp:112-214 | in an age-ordered store the first hit is the newest visible version, both directions, and it is unique |
| `Versions.SortedPermutationKeepsVersions` | src/lsm/engine.cpp:644-703 | laying an age-ordered run out again in table order without losing or adding a version leaves every key's versions as they were |
| `Versions.SortedUnique` | src/iterator/iterator.cpp:43-73 | a sorted run is determined by its versions |
| `Versions.SameVersionsSameReads` | src/lsm/engine.cpp:591-642 | layouts that agree key by key answer every snapshot read alike |
| `Versions.UpsertForKey` | src/skiplist/skipList.cpp:71-154 | a write changes only its own key's versions |
| `SkipLists.SkipList.RandomLevel` | src/skiplist/skipList.cpp:58-68 | every outcome of the coin flips gives a level between 1 and the maximum |
| `SkipLists.SkipList.Put` | src/skiplist/skipList.cpp:71-154 | for every choice of levels the list becomes the sorted insertion or overwrite of the version; links stay mutually inverse and the byte count exact |
| `SkipLists.SkipList.Get` | src/skiplist/skipList.cpp:156-196 | the descent through the levels finds exactly what a linear scan finds first |
| `SkipLists.SkipList.LevelsAreSubsequences` | src/skiplist/skipList.cpp:71-154 | each level is a subsequence of every level below it |
| `SkipLists.SkipList.ContentsSorted` | include/skiplist/skiplist.h:44-57 | the bottom level is sorted by key ascending, id descending |
| `SkipLists.SkipList.Flush` | src/skiplist/skipList.cpp:246-260 | flushing lists the contents in order |
| `SkipLists.SkipList.FindAny` | src/skiplist/skipList.cpp:357-386 | the search for any key in range finds one if there is one |
| `SkipLists.SkipList.FindFirst` | src/skiplist/skipList.cpp:389-421 | walking backward links reaches the first node in range |
| `SkipLists.SkipList.FindLast` | src/skiplist/skipList.cpp:424-448 | walking forward links reaches the last node in range |
| `SkipLists.SkipList.RangeOf` | src/skiplist/skipList.cpp:348-458 | for a monotone predicate the returned range is exactly the maximal run of nodes where it is 0, or nothing, and the "invalid direction" branches are unreachable |
| `MemTables.MemTable.Put` | src/memtable/memtable.cpp:33-47 | the version enters the current table, which is frozen in front of the others exactly when it outgrows the limit |
| `MemTables.MemTable.PutRaw` | src/memtable/memtable.cpp:28-31 | only the current table changes |
| `MemTables.MemTable.Remove` | src/memtable/memtable.cpp:186-206 | a deletion is a version with an empty value; the table is frozen exactly when it outgrows the limit |
| `MemTables.MemTable.Freeze` | src/memtable/memtable.cpp:284-290 | the current table moves in front of the frozen ones, the layout is unchanged |
| `MemTables.MemTable.Get` | src/memtable/memtable.cpp:69-130 | current table, then frozen tables newest first: the first hit of the whole memory layout |
| `MemTables.MemTable.TotalSize` | src/memtable/memtable.cpp:311-316 | the result is the bytes of all tables, zero exactly when nothing is stored |
| `MemTables.MemTable.FlushLast` | src/memtable/memtable.cpp:234-282 | the oldest table leaves memory and is fed to the builder whole; exactly its commit markers are reported |
| `Blocks.AdjustIdx` | src/block/block.cpp:214-255 | from any entry of a key whose ids fall to the first entry of that key the snapshot sees, or none |
| `Blocks.GetIdxBinary` | src/block/block.cpp:276-309 | binary search plus adjustment equals the linear first-visible scan |
| `BlockIterators.BlockIterator.Next` | src/block/block_iterator.cpp:40-65 | steps to the next visible entry, past the rest of the current key in normal mode |
| `BlockIterators.BlockIterator.SkipByTrancId` | src/block/block_iterator.cpp:114-132 | skips exactly the invisible entries |
| `BlockIterators.PredicateIters` | src/block/block.cpp:319-372 | the two binary searches find exactly the range of a monotone predicate, each end moved past invisible entries |
| `BlockIterators.WalkRange` | src/block/block.cpp:319-372 | stepping from begin reaches end exactly and emits, in rising key order, precisely the version a snapshot read returns for each key in range that has one |
| `Blooms.Add` | src/utils/bloom_filter.cpp:39-44 | sets exactly the probe bits of the key |
| `Blooms.PossiblyContains` | src/utils/bloom_filter.cpp:47-56 | true exactly when every probe bit of the key is set |
| `Blooms.AddedMayContain` | src/utils/bloom_filter.cpp:39-75 | no false negatives, and later additions never cause one |
| `Ssts.AddKeepsBuilding` | src/sst/sst.cpp:270-313 | adding a version that sorts after all others keeps blocks sorted, their key ranges disjoint and true, and bloom filter and id range covering |
| `Ssts.BuildWellFormed` | src/sst/sst.cpp:330-410 | building gives a well-formed table of exactly the added versions, and fails exactly when nothing was added |
| `Ssts.SortedStreamBuilds` | src/sst/sst.cpp:270-410 | any non-empty sorted stream builds into one table that holds exactly the stream |
| `Ssts.FindBlockIdx` | src/sst/sst.cpp:149-177 | the block-index search returns the only block that can hold the key |
| `Ssts.OutOfRange` | src/sst/sst.cpp:179-190 | a key outside the table's range is in none of its blocks |
| `Ssts.Get` | src/sst/sst.cpp:179-190 | range check, bloom filter, block index and block search together equal a linear scan of the table |
| `HeapIterators.GreaterIsFollows` | src/iterator/iterator.cpp:21-32 | on compatible items `operator>` is the strict order by key ascending, id descending, index ascending |
| `HeapIterators.GreaterAsymmetricIff` | src/iterator/iterator.cpp:21-32 | on items of one level `operator>` contradicts itself exactly when a larger id of a key meets a larger index |
| `HeapIterators.QueueCompatible` | src/sst/sst_iterator.cpp:224-242 | what the store queues, newer runs first, satisfies the order hypothesis for every key but the marker's |
| `HeapIterators.MarkersContradict` | src/iterator/iterator.cpp:21-32 | for the markers of two level-0 tables `operator>` contradicts itself exactly when the newer table holds the smaller id |
| `HeapIterators.DeliveryPermutes` | src/iterator/iterator.cpp:43-73 | the queue delivers exactly what was queued |
| `HeapIterators.DeliveryOrdered` | src/iterator/iterator.cpp:43-73 | and in table order, however its markers contradict each other |
| `HeapIterators.DeliverySorted` | src/iterator/iterator.cpp:43-73 | where the order is consistent and versions are distinct, the delivery is sorted outright |
| `HeapIterators.HeapIterator.Next` | src/iterator/iterator.cpp:84-122 | drops the top, or its whole key, then settles; a scan loses exactly the head of what is left to show |
| `HeapIterators.HeapIterator.Settle` | src/iterator/iterator.cpp:54-72 | the loops over invisible items and deletions compute the settled queue, in every mode |
| `HeapIterators.HeapIterator.SkipByTrancId` | src/iterator/iterator.cpp:176-184 | pops exactly the invisible items on top |
| `HeapIterators.SettledShows` | src/iterator/iterator.cpp:54-72 | settling does not change what a scan shows |
| `HeapIterators.ShownIsLive` | src/iterator/iterator.cpp:43-122 | a scan shows every live visible key if and only if none is buried under a deletion from the snapshot's future |
| `HeapIterators.LiveKeyCanBeBuried` | src/iterator/iterator.cpp:60-71 | a concrete queue whose scan loses a live key |
| `HeapIterators.LiveIsNewest` | src/iterator/iterator.cpp:84-122 | skipping old versions and deletions leaves each key once, in order, with the version a read returns |
| `Scans.ShownIsRead` | src/memtable/memtable.cpp:318-346 | filtering by snapshot and then showing equals point reads of the unfiltered layout |
| `Scans.Begin` | src/memtable/memtable.cpp:318-346 | the scan starts with exactly the live visible keys left to show |
| `Scans.ScanAll` | src/memtable/memtable.cpp:318-346 | a full scan yields each live visible key once, in order, with its newest value |
| `MergeIterators.SstIterator.Next` | src/sst/sst_iterator.cpp:136-155 | walking every block drops exactly one version per step |
| `MergeIterators.MergeSstIterator` | src/sst/sst_iterator.cpp:224-242 | draining the level-0 tables into the heap yields all their versions in table order |
| `MergeIterators.ConcactIterator.Next` | src/sst/concact_iterator.cpp:14-26 | tables are walked one after another without gap or repetition |
| `MergeIterators.MergePermutes` | src/lsm/two_merge_iterator.cpp:19-73 | the two-way merge is a permutation of its inputs |
| `MergeIterators.MergeOrdered` | src/lsm/two_merge_iterator.cpp:19-73 | streams that share no version merge into one stream in table order |
| `MergeIterators.TwoMergeIterator.Next` | src/lsm/two_merge_iterator.cpp:62-73 | each step delivers the next version of the merge |
| `Compactions.GenSstFromIter` | src/lsm/engine.cpp:704-755 | the new tables are well-formed, separated, numbered in order and hold exactly the stream; the tail build throws exactly when the builder is empty |
| `TailBuilds.ThrowsIff` | src/lsm/engine.cpp:704-747 | the tail build throws if and only if the stream is empty or the first version of its last key closes a block and brings the closed bytes to the target |
| `TailBuilds.SmallStreamsBuild` | src/lsm/engine.cpp:704-747 | a non-empty stream whose bytes stay below the target never throws |
| `TailBuilds.TailBuildCanThrow` | src/lsm/engine.cpp:741-747 | for every block capacity and target a sorted stream whose compaction throws |
| `TailBuilds.DefaultsCanThrow` | config.toml:6-12 | one for the default block size and table size |
| `Compactions.FullL0L1Compact` | src/lsm/engine.cpp:644-673 | compacting overlapping level-0 tables over level 1 conserves every version, tombstones and markers included, and every key's order; of versions with room in the file format it makes only files that can be read back |
| `Compactions.FullCommonCompact` | src/lsm/engine.cpp:675-702 | the same for two deeper levels |
| `Levels.ReplacedOk` | src/lsm/engine.cpp:615-637 | swapping a compaction's tables in keeps every level sound: files in id order have disjoint rising key ranges, no id is listed twice |
| `Levels.ReplacedVersions` | src/lsm/engine.cpp:615-637 | and changes no key's versions anywhere on disk |
| `Levels.PushedNew` | src/lsm/engine.cpp:493-497 | a flushed table in front of level 0 becomes the newest place on disk |
| `Levels.PushedDir` | src/lsm/engine.cpp:478-497 | a flush keeps files and index in step |
| `Levels.ReplacedDir` | src/lsm/engine.cpp:615-637 | so does a finished compaction, which deletes exactly the merged files |
| `Levels.AbandonedDir` | src/lsm/engine.cpp:714-747 | a throwing compaction leaves a file behind exactly when it had built a table |
| `Levels.PushedFits` | src/lsm/engine.cpp:478-497 | after a flush every file in the directory can still be read back |
| `Levels.ReplacedFits` | src/lsm/engine.cpp:615-637 | so it can after a compaction, finished or abandoned |
| `Levels.OnlyFile` | src/lsm/engine.cpp:166-205 | in a level from 1 up, only the file whose range holds the key can answer for it |
| `Levels.LevelGet` | src/lsm/engine.cpp:166-205 | the binary search over the files of a level equals a scan of the whole level |
| `Histories.FirstAnswers` | src/lsm/engine.cpp:112-214 | scanning an age-ordered layout answers as the abstract map of versions does, tombstones as nothing |
| `Histories.WriteKeepsAgeOrder` | src/lsm/engine.cpp:370-385 | a write keeps age order if and only if it is newer than every version of its key in older places, or the same version again |
| `Histories.RunReadsLastWrite` | src/lsm/engine.cpp:112-214 | after a run with increasing ids a snapshot read of the abstract store is the last write it may see |
| `Engines.LSMEngine.Get` | src/lsm/engine.cpp:112-214 | a read of a sound store, whose files can all be read back, returns the value of the newest visible version, nothing for a tombstone or an absent key; memory hits carry the version's id, disk hits the query's |
| `Engines.LSMEngine.DiskGet` | src/lsm/engine.cpp:135-206 | level 0 newest first, then each level by binary search, equals a scan of the whole disk |
| `Engines.LSMEngine.SstGet` | src/lsm/engine.cpp:299-368 | the disk-only read; its id is the query's |
| `Engines.LSMEngine.FullCompact` | src/lsm/engine.cpp:591-642 | recursive compaction of a disk with room in the file format terminates, empties its source level unless it throws, leaves shallower levels alone, loses no version, changes no key's versions and leaves every file readable; it throws exactly when one of its merges does, and then throws again |
| `Engines.LSMEngine.CompactPair` | src/lsm/engine.cpp:603-637 | one merge of a level into the next, swapped into the index |
| `Engines.LSMEngine.SmallNeverThrows` | src/lsm/engine.cpp:591-642 | on a disk with too few bytes to fill a table of level 1, compacting a level that holds anything never throws |
| `Engines.LSMEngine.MakeRoom` | src/lsm/engine.cpp:471-476 | level 0 is below the ratio afterwards unless the compaction throws; no key's versions change; to a concurrent read it is one compaction step |
| `Engines.LSMEngine.WriteOldest` | src/lsm/engine.cpp:478-497 | the oldest memory table becomes the newest table on disk, the layout is unchanged, exactly its markers are reported, and the new file can be read back; to a concurrent read it is two steps, taking the table and listing it |
| `Engines.LSMEngine.Flush` | src/lsm/engine.cpp:464-510 | flushing keeps every invariant, level 0 within the ratio included, every version and every key's order; it throws exactly when there is data and the store is stuck, and then memory and the next flush's fate stay as they are |
| `Engines.LSMEngine.FlushAll` | src/lsm/engine.cpp:856-861 | flushing until memory is empty ends, with every version on disk, or throws; it does not throw on a small store |
| `Engines.LSMEngine.Put` | src/lsm/engine.cpp:370-385 | the abstract store gains exactly the version, whether or not the write freezes, flushes and compacts; its steps are steps of the writers beside a concurrent read |
| `Engines.LSMEngine.Remove` | src/lsm/engine.cpp:403-418 | the abstract store gains a tombstone |
| `Engines.LSMEngine.ApplyRaw` | src/lsm/transation.cpp:268-274 | writes without size check: the store stays sound if and only if each but the marker is newer than what older places hold |
| `Engines.LSMEngine.Run` | src/lsm/engine.cpp:370-510 | any run of puts, removes, freezes and flushes with increasing ids and room in the file format keeps every invariant and leaves the abstract store of that run; every read that takes its steps anywhere between the steps of the run is linearizable; the directory is clean if and only if nothing threw, and nothing throws while all that is written would not fill a table of level 1 |
| `Engines.ReadAfterRun` | src/lsm/engine.cpp:112-214 | end to end: after any such run from empty, given room for the versions it writes, a read returns the last write it may see |
| `Readers.ChangeKeepsAhead` | src/memtable/memtable.cpp:95-115 | no writer step moves data past a reader: what it may still find is no older than what was there at its start |
| `Readers.ReadIsRecent` | src/lsm/engine.cpp:113-138 | over every interleaving the reader stays ahead of the data, and age order holds |
| `Readers.SnapshotRead` | src/lsm/engine.cpp:113-138 | a finished read returns a visible version no older than the newest visible one at its start |
| `Readers.ReadIsLinearizable` | src/lsm/engine.cpp:464-502 | when ids grow, the result is what an atomic read would have returned at some moment during the read |
| `Readers.InterleavedLegal` | src/lsm/engine.cpp:113-138 | reader steps put anywhere between the steps of writers give a legal interleaving, as long as the reader waits for the disk lock |
| `Readers.MovesLinearizable` | src/lsm/engine.cpp:113-138 | so every read beside a run of writer steps, whenever it starts and ends, returns what an atomic read would have returned at some moment in between |
| `Commits.CommitKeepsKey` | src/lsm/transation.cpp:268-274 | key by key, a commit keeps age order if and only if no older place holds a newer version of the key, or the same one with another value |
| `Commits.CommitKeepsAgeOrder` | src/lsm/transation.cpp:268-274 | the whole store stays age-ordered if and only if every buffered write is newer than the older places |
| `Commits.CommitRepresents` | src/lsm/transation.cpp:268-274 | the abstract store gains exactly the committed versions |
| `Transactions.TranContext.Put` | src/lsm/transation.cpp:42-71 | the write is recorded and buffered; the buffer stays the effect of the recorded operations |
| `Transactions.TranContext.Remove` | src/lsm/transation.cpp:73-99 | the same for a removal |
| `Transactions.TranContext.Get` | src/lsm/transation.cpp:101-146 | buffer, then kept read, then a snapshot read of the engine, kept at the repeating levels |
| `Transactions.TranContext.Validate` | src/lsm/transation.cpp:194-249 | in any order of keys, a conflict is found exactly when memory holds a newer version of a buffered key |
| `Transactions.TranContext.Commit` | src/lsm/transation.cpp:182-285 | fails exactly on such a conflict, and then memory, disk, abstract store and log stay as they are and only the abort is recorded, in the transaction and in the manager's waiting map; otherwise logs all operations, writes the buffer and the marker, and keeps the store sound if and only if no older place is newer for a buffered key, whatever order the markers come in |
| `Transactions.TranContext.Abort` | src/lsm/transation.cpp:312-328 | only the waiting list of the manager changes |
| `Transactions.ReplayIsEffects` | src/lsm/engine.cpp:782-788 | on the abstract store, replaying logged operations one by one writes exactly the versions the commit wrote |
| `Transactions.RemovedReadsEmpty` | src/lsm/transation.cpp:96-113 | a key the transaction has removed reads as present and empty |
| `Transactions.ReadsOwnWrites` | src/lsm/transation.cpp:101-146 | a transaction reads its snapshot with its own writes on top if and only if it has not buffered an empty value for the key |
| `Isolations.BufferedWritesInvisible` | src/lsm/transation.cpp:66-71 | over every interleaving, taking out the buffered writes of an uncommitted transaction changes no read and no commit decision of anyone else |
| `Isolations.ReadsRepeat` | src/lsm/transation.cpp:126-135 | over every interleaving, two reads of a key the transaction has not written agree |
| `Isolations.ValidatedCommit` | src/lsm/transation.cpp:202-220 | a commit that passes memory validation keeps a key's age order if and only if the disk holds nothing newer for it or it is not written |
| `Isolations.DiskConflictUnseen` | src/lsm/transation.cpp:221-247 | a concrete commit that passes validation over a newer version on disk and hides it |
| `Isolations.MarkersCanBeOutOfOrder` | src/lsm/transation.cpp:273-273 | two commits in reverse id order leave the marker key out of order and every other key in order |
| `FlushedIds.CompressSet` | include/utils/set_operation.h:4-27 | the two loops compute the compression |
| `FlushedIds.CompressKeeps` | include/utils/set_operation.h:4-27 | compression changes neither the represented ids nor the largest one and leaves a gap at the front |
| `FlushedIds.SettlesIs` | src/lsm/transation.cpp:413-423 | a flushed marker settles itself, if waiting, and exactly the earlier aborted ids |
| `FlushedIds.AfterMarkerIs` | src/lsm/transation.cpp:411-429 | nothing but the settled ids can become represented, and they do |
| `FlushedIds.TranManager.AddReadyToFlushTrancId` | src/lsm/transation.cpp:405-409 | the waiting map is updated at one id |
| `FlushedIds.TranManager.AddFlushedTrancId` | src/lsm/transation.cpp:411-429 | the loop with its early exit computes the settled ids, removes them from the waiting map and compresses the set |
| `FlushedIds.TranManager.InitNewWal` | src/lsm/transation.cpp:349-364 | afterwards exactly the ids handed out so far are represented |
| `FlushedIds.TranManager.GetNextTransactionId` | src/lsm/transation.cpp:431-433 | ids are handed out one by one, rising |
| `Sessions.RunKeepsInv` | src/lsm/engine.cpp:464-502 | the invariant of a session holds in every reachable state |
| `Sessions.FlushedMeansOnDisk` | src/lsm/transation.cpp:405-429 | an id above the starting mark is represented as flushed only if its transaction aborted or all it wrote is on disk and none of it in memory |
| `Sessions.NoCommittedWriteLost` | src/lsm/engine.cpp:777-792 | after a crash in any reachable state every committed write is on disk or is replayed, for the flushed set of any earlier moment or of an earlier session |
| `EngineSessions.WriteStep` | src/lsm/engine.cpp:370-385 | the engine's write into memory is a write event of the session, followed by a freeze event if the table was full |
| `EngineSessions.FlushStep` | src/lsm/engine.cpp:478-502 | writing the oldest table out is the flush event, with exactly the markers reported |
| `EngineSessions.CompactStep` | src/lsm/engine.cpp:471-476 | compaction, thrown or not, leaves the session's state as it is |
| `EngineSessions.CommitStep` | src/lsm/transation.cpp:182-285 | a commit is the events log, apply and report, or abort and report when it fails |
| `EngineSessions.ReportStep` | src/lsm/transation.cpp:411-429 | reporting a flushed marker to the manager is the session's report event |
| `Recoveries.WritesReplay` | src/lsm/engine.cpp:782-788 | the versions the replay puts for a transaction make of the abstract store what its operations make |
| `Recoveries.ReplayHolds` | src/lsm/engine.cpp:777-792 | after the replay every replayed transaction's last write of each key is stored, and nothing else has changed |
| `Recoveries.ReplayFreshIff` | src/lsm/engine.cpp:777-792 | each replayed write finds nothing newer, and no other value of its version, if and only if that holds before the replay and no transaction wrote one key with two values |
| `Recoveries.ReplayLog` | src/lsm/engine.cpp:777-792 | such a replay keeps the engine sound through every freeze, flush and compaction on the way and adds exactly the replayed versions, or those up to the one whose compaction threw |
| `Recoveries.ReplaySoundIff` | src/lsm/engine.cpp:777-792 | replayed tables over an older disk are age-ordered if and only if the disk holds nothing strictly newer for a replayed key |
| `Recoveries.ReplayReadsIff` | src/lsm/engine.cpp:777-792 | every read of them returns the newest visible version if and only if each newer version on disk of a replayed key was replayed too |
| `Recoveries.StaleReplayHides` | src/lsm/engine.cpp:779-781 | a replayed write that hides a newer version on disk |
| `Recoveries.Recover` | src/lsm/engine.cpp:772-794 | after a crash in any reachable state and the replay, every committed write of the session is in the store, however old the flushed set |
| `Recoveries.CrashAndRecover` | src/lsm/engine.cpp:772-794 | the same from the engine that crashed, through the bytes of its files |
| `Records.Encode` | src/wal/record.cpp:52-92 | filling the buffer field by field gives the record's encoding |
| `Records.Decode` | src/wal/record.cpp:94-162 | the loop reads back exactly the records of any concatenation of encodings |
| `Records.DecodeEncoded` | src/wal/record.cpp:52-162 | round trip for any list of records that fit |
| `Wals.HasUnfinished` | src/wal/wal.cpp:185-195 | the record-length walk visits exactly the record starts and finds a newer record if and only if there is one |
| `Wals.Recover` | src/wal/wal.cpp:43-88 | per transaction above the checkpoint, its records in order, whatever order the files are found in |
| `Wals.WAL.Log` | src/wal/wal.cpp:98-127 | buffering, appending and rotating lose and reorder nothing; a forced write leaves nothing buffered |
| `Wals.WAL.ResetFile` | src/wal/wal.cpp:206-223 | rotation changes no logged record |
| `Wals.WAL.CleanWALFile` | src/wal/wal.cpp:142-204 | deletes exactly the older files without newer records; recovery from any checkpoint at or above the cleaner's is unchanged |
| `Wals.WAL.RecoverLogged` | src/wal/wal.cpp:43-88 | recovery reads back exactly what was logged |
| `ByteCodec.FromLEOfLE` | src/wal/record.cpp:61-70 | a little-endian field reads back as the value cut to its width |
| `BlockCodecs.AddEntry` | src/block/block.cpp:131-160 | growing the data and filling the fields gives the layout of the longer entry list |
| `BlockCodecs.EntryReadsBack` | src/block/block.cpp:164-204 | the getters read back the entry that was added, when its lengths and start fit |
| `BlockCodecs.BlockReadsBack` | src/block/block.cpp:15-98 | data and offsets survive the round trip, hash checked |
| `BlockCodecs.BlockRoundTrip` | src/block/block.cpp:15-98 | every non-empty block that fits is read back entry by entry from its bytes |
| `BlockCodecs.ReadsBackIff` | src/block/block.cpp:131-204 | a block is read back from its bytes if and only if every length and every entry's start fit 16 bits |
| `BlockCodecs.RewrittenMisread` | src/block/block.cpp:156-160 | after 4683 one-byte writes of one key the oldest entry's offset is cut to 12, where an empty key is read |
| `Widths.RoomyPart` | src/sst/sst.cpp:299-302 | any part of a collection of versions with room in the file format has room |
| `Widths.OneKeyOneBlock` | src/sst/sst.cpp:299-302 | all versions of a key go into one block, however many they are |
| `Widths.BuiltRecoverable` | src/sst/sst.cpp:270-410 | every table built from an ordered stream with room in the file format holds exactly the stream and can be read back from its bytes |
| `Widths.RewrittenKeyIsLost` | src/sst/sst.cpp:299-302 | for every capacity and filter, 4683 writes of one key build into a table whose only block is not read back |
| `MetaCodecs.Encode` | src/block/blockmeta.cpp:13-69 | the moving write position produces the encoding of the block index |
| `MetaCodecs.Decode` | src/block/blockmeta.cpp:71-130 | the loop recovers any index that fits, and reports short or corrupted data |
| `MetaCodecs.MetasRoundTrip` | src/block/blockmeta.cpp:13-130 | round trip of the block index |
| `BloomCodecs.Encode` | src/utils/bloom_filter.cpp:78-116 | the bit loops pack the filter eight bits to a byte |
| `BloomCodecs.Decode` | src/utils/bloom_filter.cpp:119-162 | the bit loops recover any filter that fits |
| `BloomCodecs.BloomRoundTrip` | src/utils/bloom_filter.cpp:78-162 | round trip of the filter, bit for bit |
| `SstFiles.SSTBuilder.Add` | src/sst/sst.cpp:270-313 | the byte-level builder keeps in step with the builder on entry lists |
| `SstFiles.SSTBuilder.AddEntry` | src/block/block.cpp:122-161 | refuses exactly when not forced, over capacity and not empty |
| `SstFiles.SSTBuilder.FinishBlock` | src/sst/sst.cpp:319-328 | the recorded offset is where the block starts |
| `SstFiles.SSTBuilder.Build` | src/sst/sst.cpp:330-410 | the bytes written are blocks, index, filter and footer of the built table; fails exactly when empty |
| `SstFiles.OpenRecovers` | src/sst/sst.cpp:27-107 | opening recovers index, filter, id range and offsets if and only if the tail does not pass for the longer footer |
| `SstFiles.OrdinaryIdsRecover` | src/sst/sst.cpp:42-57 | a top byte of the largest id other than the magic is enough |
| `SstFiles.TailMistaken` | src/sst/sst.cpp:42-57 | any table whose blocks end on a multiple of 65536 and whose largest id starts with the magic is misread |
| `SstFiles.FooterCanBeMistaken` | src/sst/sst.cpp:42-57 | for every block capacity and filter, a table the builder produces whose file is misread |
| `SstFiles.SliceReadsBack` | src/sst/sst.cpp:127-138 | the slice the index gives for a block decodes to the entries added |
| `SstFiles.StreamReadsBack` | src/sst/sst.cpp:330-410 | end to end: any ordered stream comes back from the bytes |
| `BlockCaches.UseLessOk` | src/block/block_cache.cpp:71-76 | a use below K keeps the cache invariant |
| `BlockCaches.PromoteOk` | src/block/block_cache.cpp:77-84 | the K-th use moves the block to the other list and keeps the invariant |
| `BlockCaches.UseGreaterOk` | src/block/block_cache.cpp:85-90 | a use beyond K keeps the invariant |
| `BlockCaches.BlockCache.Get` | src/block/block_cache.cpp:15-29 | a lookup returns what is cached and changes only order and counts |
| `BlockCaches.BlockCache.UpdateAccessCount` | src/block/block_cache.cpp:71-91 | index and lists stay in step, counts split at K, lists ordered by last use |
| `BlockCaches.BlockCache.Put` | src/block/block_cache.cpp:31-62 | size never exceeds capacity; the victim is the least recently used block below K if any, else of all |
| `BlockCaches.NewTableCoherent` | src/sst/sst.cpp:111-147 | a table with an unused id keeps cached blocks true |
| `BlockCaches.ReadBlock` | src/sst/sst.cpp:111-147 | a read through the cache always equals a direct decode |
| `IdLists.SortIdsSorts` | src/lsm/engine.cpp:99-100 | sorting distinct ids gives an ascending list of the same ids |
| `IdLists.AscendingUnique` | src/lsm/engine.cpp:99-100 | a set of ids has one ascending listing |
| `Reloads.OpenAll` | src/lsm/engine.cpp:50-97 | the first pass lists every file under its level and keeps the marks |
| `Reloads.SortLevels` | src/lsm/engine.cpp:99-106 | the second pass sorts each level, level 0 reversed |
| `Reloads.ArrangedIsLevel` | src/lsm/engine.cpp:99-106 | whatever order the files are found in, every level's list comes back if and only if no file is left over |
| `Reloads.Reload` | src/lsm/engine.cpp:50-107 | reopening takes a next id above every file's and rebuilds the same lists if and only if no file is left over; then every read is as before |
| `ByteReloads.TableReloads` | src/sst/sst.cpp:27-147 | a table is read back whole from the bytes of its file |
| `ByteReloads.ReloadBytes` | src/lsm/engine.cpp:50-107 | the same reopening from the bytes of the files, all of which are readable as in every sound engine |
| `Reopens.Restart` | src/lsm/engine.cpp:796-799 | closing a store and opening its files again gives a sound engine with the same abstract store, unless the closing flush throws |
| `Reopens.Crash` | src/lsm/engine.cpp:50-107 | without the closing flush the next engine is sound and holds exactly the versions on disk |
| `Reopens.ReadAfterSessions` | src/lsm/engine.cpp:772-799 | end to end: after any number of sessions, each run, closed and reopened from bytes in any directory order, a read returns the last write it may see, unless a compaction threw; none does while all that is written would not fill a table of level 1 |
| `LeftOvers.ThrowingStore` | src/lsm/engine.cpp:591-642 | for every block capacity and target a sound store whose compaction throws |
| `LeftOvers.ThrowSpoilsReload` | src/lsm/engine.cpp:50-107 | after a throw the directory holds files nothing lists, and reopening lists them |

## Left out

- `LSMEngine::get_batch`: its level-0 pass overwrites values already found in memory (src/lsm/engine.cpp:238-254), so it is not the map of `get`.
- `put_batch`, `remove_batch`, `clear`: loops over the modelled operations; they would add only easy members.
- `Level_Iterator` and the cross-level range query: tombstones are dropped before levels are merged and the heap order across levels is inconsistent.
- `SstIterator` walks under a non-zero snapshot: a block with no visible entry ends the walk early; compaction walks with id 0.
- `TwoMergeIterator` outside keep-all mode (`skip_it_b`): only the mode compaction uses is modelled.
- Prefix iterators of skip list, block and memory tables; `SkipList::remove`, which upper layers never call.
- Value separation (`src/vlog/vlog.cpp`) and `resolve_value`: off by default.
- Read-uncommitted transactions as objects: their direct writes and their marker are steps of `Sessions`, their rollback, which re-puts old ids, is not modelled.
- Recoveries.ReplayLog: a transaction that wrote one key with two values is not covered, because between the two puts the older value may be flushed; `ReplaySoundIff` and `ReplayReadsIff` cover the layouts the replay ends with.
- A block that does not fit its 16-bit offsets: that it is not read back is proved, what the searches then return is not modelled.
- Durability across `init_new_wal`, which deletes the log before replayed data is flushed, and the byte form of the `tranc_id` file; `Sessions.NoCommittedWriteLost` takes the flushed set it holds from any earlier moment.
- The redis wrapper, the server, the Python SDK, logging, configuration, file and mmap layers, file names, I/O errors.
- Real locks: steps are atomic at lock granularity. Hash quality, false-positive rate and the floating-point sizing of the filter.
- Engines.LSMEngine.Freeze: freezing an empty table, which the engine never asks for, does nothing here; `MemTable.Freeze` has no such condition. Flushing an empty frozen table would throw.
- Reads outside a buffer, undefined in the original, are reported as failures by the decoders.
- Ssts.Get: the table is given by its entry lists; `SstFiles.StreamReadsBack` and `BlockCaches.ReadBlock` supply the bytes and the cache separately.
- Engines.LSMEngine.SstSize: the level's target size uses exact integer powers where the original rounds a floating-point power.

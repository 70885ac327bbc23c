# SILK / RocksDB in Dafny

SILK is a fork of RocksDB, a log-structured key-value store. This project models the parts of it that are
hardest to get right and proves what they promise:

* **The compaction stream.** `CompactionIterator` drops hidden versions, obsolete tombstones and
  SingleDelete/Put pairs while it merges sorted runs. No snapshot that is still listed, and no reader at the
  tip, may notice. `Records`, `CompactionStream`, `CompactionReads`, `CompactionTheorems` and
  `CompactionConditions` hold the meaning and the proofs, `CompactionIterator` the imperative iterator that
  is proved to produce that stream, `DatabaseReads` the whole database around a compaction, `LeveledReads` the
  same for what the leveled picker picks, `Bottommost` the bottommost test, `Subcompaction`, `SubcompactionSplit`
  and `SubcompactionBoundaries` the splitting of one job into key ranges.
* **The thread-local SuperVersion cache** (`SuperVersion`): readers swap and compare-and-swap a slot without
  the mutex, an install scrapes all slots, reference counts decide who cleans up. Interleaved atomic steps.
* **The block caches.** `LRUTable` (chained hash table with rehashing), `LRUList` (doubly linked list with two
  priority pools) and `LRUShard` (counts, capacity, eviction) for the LRU cache; `ClockProtocol` (interleaved
  atomic steps on the handle flags), `ClockAccounts` (what `pinned_usage_` is in them), `ClockForced` (forced
  releases in them) and `ClockShard` (eviction scan and byte accounting, one operation at a time) for the clock
  cache.
* **The compaction pickers.** `LevelFiles` (overlap queries and clean cuts), `PickerInputs` (completing the
  inputs of a compaction), `Sanitize` (completing a user's choice of files), `RunningCompactions` (what may
  run side by side) and `UniversalPicker` (sorted runs of universal compaction).
* **The background scheduler** (`Scheduler`), with SILK's high-priority compactions and its pausing.
* **File and log retention.** `PendingOutputs` (unfinished table files against concurrent deletion passes) and
  `PreparedLogs` (the lazily cleaned heap of logs with prepared transactions).

`Common` holds a few shared definitions. `dafny verify dfyconfig.toml` covers the whole project.

Conventions: a user key is an integer, since only the order of keys matters; counters and sizes are unbounded
unless a bound is written out; `double` arithmetic is exact arithmetic over `real` or integers. State machines
give every atomic operation a `CanX` guard and a `DoX` effect; `After(steps)` is the state after an interleaving,
and a theorem about `Reaches(steps, s)` holds in every state of every run. Classes keep the fields of the source;
`Valid()` is their invariant and every method keeps it.

## Where the code and its promises part

Each of these is a theorem: an instance that fails, and the exact condition under which the promise holds.

* A compaction that writes to level 0 looks for older versions of a key only below level 0, so it can drop a
  tombstone whose Put is in an older level-0 file that stays (`IntraL0ResurrectsDeletedKey`). Put/Delete reads
  survive exactly if no key is in that position (`DroppedTombstonesSafeIff`, `Level0OutputReadsIff`).
* Completing a user's choice of files leaves out older level-0 files with the same keys (`OlderFileIsLeftBehind`,
  `LeftBehindIff`). The output then lies under them, and readers get the older value back
  (`OlderLevel0FileBuriesNewValue`). They read as before exactly if no answer is buried in that way
  (`DeepOutputReadsIff`). What the leveled picker takes is apart from what it leaves on both levels, so its
  compactions bury nothing (`PickUnnoticed`).
* The stream uses 0 for "no snapshot" and "no version seen yet". A record with number 0, which ingested files have,
  clashes with a snapshot of the empty database (`SnapshotZeroLosesIngestedKey`). `SnapshotZeroIff` and
  `AlternatingZeroIff` say exactly which readers notice. With positive numbers, as all memtables have, snapshot 0
  does no harm.
* A comment on returning a SuperVersion says that after a successful compare-and-swap it is still current. It is,
  exactly unless an install has begun and not yet scraped the slot (`ReturnedIsCurrentIff`,
  `ReturnCanCacheOutgoing`).
* The clock cache's eviction scan can fail although its last eviction made room (`FailsWithRoomToSpare`); when it
  fails is stated exactly in `EvictFromCache`.
* The clock cache's `pinned_usage_` drifts when a handle is refilled while a release of its former entry has yet to
  take the charge off (`PinnedUsageIsInexact`). It is exact if and only if the differences add up to 0
  (`PinnedUsageExactIff`).
* A forced release in the clock cache erases by key. It may erase an entry that replaced the released one
  (`ForcedReleaseErasesReplacement`) and, since it reads the key after it has dropped its reference, an unrelated
  one (`ForcedReleaseErasesUnrelatedKey`). It erases the released entry exactly if that one is still cached
  (`ErasesReleasedEntryIff`).
* `GetCleanInputsWithinInterval()` can find nothing although a file lies within the interval
  (`InsideButNotClean`), exactly if no clean cut lies within it (`GetCleanWithin`). In `SetupOtherInputs()` this
  cannot happen (`TryWithin`).
* `PauseCompactionWork()` adds two to the pause counter and `ContinueCompactionWork()` takes one off
  (`PauseAndContinueCompaction`). The comment that `bg_work_paused_` never exceeds `bg_compaction_paused_` fails if
  compactions are continued inside a work pause (`ContinueCompactionInsideWorkPause`), and holds exactly under the
  condition of `WorkPausedWithinCompactionPausedIff`.
* A `CompactFiles()` call that the picker declines keeps its count (`DeclinedCallIsNeverForgotten`). Background work
  is then never drained again (`Run`), and it is drained exactly if there was no such call and no job is left
  (`DrainedIff`).
* At shutdown a compaction in the HIGH pool is taken for a flush (`ShutdownMiscounts`). The counters are right exactly
  if as many compactions waited in the HIGH pool as flushes in the LOW pool (`UnscheduleAll`); otherwise, or after a
  declined `CompactFiles()` call, the wait of the destructor never ends (`CloseDatabase`).
* A flush that ends before an older one leaves its file for the older one to install. If that one fails, the next
  deletion pass deletes the file (`FailedOlderFlushExposesFile`), which is installed all the same
  (`FailedOlderFlushLosesFile`). A pass can do so exactly if no running job started at or below the file's number
  (`DeferredLostIff`). Every other file that is needed stays (`NothingNeededIsDeleted`).
* The first key of every compaction and subcompaction annihilates less than later ones, because only `Next()`
  records that a key was put out. Splitting a job therefore changes its output (`SplitWritesMore`), exactly under the
  condition of `SubcompactionsConcatenateIff`; the answers to readers do not change (`SubcompactionsPreserveReads`).
* The assert that a value to be cleared belongs to a Put fails for a Delete below a SingleDelete (`ClearsDelete`),
  which the documentation leaves undefined; the assert that it is in the stripe of the SingleDelete fails for a
  record with number 0 that clashes with snapshot 0 (`ClearsOtherStripe`). They fail in exactly these cases
  (`ClearAssertsFailIff`).

## Model

| member | source | states |
|---|---|---|
| Records.LookupIsNewest | db/compaction_iterator.cc:166-538 | on a sorted run a point lookup at a snapshot is the newest version the snapshot sees, and fails only if there is none |
| Records.StripeDecides | db/compaction_iterator.cc:559-574 | whether a listed snapshot or the tip sees a sequence number depends only on the earliest snapshot that sees it |
| Records.StripeMonotone | db/compaction_iterator.cc:559-574 | newer sequence numbers never become visible earlier |
| Records.SameStripe | db/compaction_iterator.cc:319-437 | the look-ahead test of the SingleDelete branch is true exactly if no listed snapshot separates the two versions |
| CompactionReads.StepKeepsFit | db/compaction_iterator.cc:166-538 | every pass of the loop leaves a state that fits the rest of the input, whichever branch it takes |
| CompactionReads.EmitFollowsInput | db/compaction_iterator.cc:166-538 | the emitted records are strictly sorted and never ahead of the input |
| CompactionReads.NothingBelowTombstone | db/compaction_iterator.cc:438-470 | after a tombstone of the earliest stripe nothing of its key is emitted any more |
| CompactionReads.NotFoundBelowPair | db/compaction_iterator.cc:319-437 | an alternating history that goes on with a SingleDelete reads "not found" after compaction, however pairs vanish |
| CompactionReads.EmitPreservesReads | db/compaction_iterator.cc:166-538 | from any state that fits, what is still emitted answers every reader as what is still to come does |
| CompactionReads.EmitReadsExactly | db/compaction_iterator.cc:166-538 | a reader of a Put/Delete key finds the record it stopped at before, unless the stream swallows that one as an obsolete tombstone or in a clash of number 0 with snapshot 0; then it finds the older data |
| CompactionReads.VisibleStep | db/compaction_iterator.cc:166-538 | the record a reader stops at is emitted, or its absence is not noticed |
| CompactionTheorems.NotBeyondMeansAbsent | db/compaction.cc:281-308 | a key that no deeper file covers, and with output level 0 no older level-0 file holds, is in none of the data read below the output |
| CompactionTheorems.PrepareKeepsReads | db/compaction_iterator.cc:540-557 | zeroing sequence numbers changes no read at a listed snapshot or the tip |
| CompactionTheorems.CompactionPreservesReads | db/compaction_iterator.cc:166-557 | every listed snapshot and the tip read a key from the output and what lies below it as from the input and what lies below it, for keys never single-deleted or strictly alternating, if a dropped tombstone has nothing to hide and no number 0 clashes with snapshot 0 |
| CompactionTheorems.PutDeleteReadsIff | db/compaction_iterator.cc:166-557 | for a Put/Delete key a reader notices the compaction if and only if the record it stopped at is lost and the data below answers otherwise; nothing else is asked of snapshots, numbers or levels |
| DatabaseReads.MergedLookup | db/version_set.cc:995-1038 | reading the merged input is reading its runs in the order of the database |
| DatabaseReads.DeepOutputReadsIff | db/version_set.cc:995-1038 | with the output below level 0, a reader of the whole database reads as before if and only if its answer does not come to lie under an older level-0 file with another answer |
| DatabaseReads.Level0OutputReadsIff | db/version_set.cc:995-1038 | with the output in level 0, a reader of a Put/Delete key reads as before if and only if newer data answers it, or the record it stopped at is not lost, or the older data answers alike |
| DatabaseReads.NothingBuried | db/compaction_picker.cc:1148-1174 | no answer is buried if no key of the level-0 inputs is in an older level-0 file that stays |
| DatabaseReads.OlderLevel0FileBuriesNewValue | db/compaction_picker.cc:727-735 | compacting the newest level-0 file alone into level 1 brings the older value of its key back |
| LeveledReads.LevelSplits | db/version_set.cc:995-1038 | on a level where no file left shares a key with one taken, every reader finds the same record if it looks through the files left first |
| LeveledReads.TakenAboveLeft | db/compaction_picker.cc:1148-1174 | no key is both in a file taken from the start level and in a file left in the output level |
| LeveledReads.LeveledPickKeepsReads | db/compaction_picker.cc:1252-1279 | a compaction whose files are apart from what is left answers every reader of the whole database as before, though older files of the start level stay above its output |
| LeveledReads.PickUnnoticed | db/compaction_picker.cc:1252-1279 | whatever the files contain, no reader notices that what `PickCompaction()` picked is compacted |
| CompactionTheorems.BottommostKeyIsDone | db/compaction_iterator.cc:438-470 | in a bottommost job nothing of a key comes out after its earliest stripe is reached |
| CompactionTheorems.BottommostOldIsLastPut | db/compaction_iterator.cc:540-557 | in a bottommost job what comes out at or below the earliest snapshot is a Put and the oldest emitted version of its key: the assert before zeroing holds |
| CompactionTheorems.ZeroedOutputSorted | db/compaction_iterator.cc:540-557 | after zeroing the output is still strictly sorted and only Puts of keys that exist nowhere deeper lose their number |
| CompactionConditions.PutDeleteReadsPreserved | db/compaction_iterator.cc:166-538 | a compaction keeps every read of every Put/Delete key, for all inputs, snapshots and deeper levels, unless an older level-0 file below its output holds the key or a number 0 clashes with snapshot 0 |
| CompactionConditions.AlternatingKeysPreserved | db/compaction_iterator.cc:309-437 | so it does for keys whose history strictly alternates Put and SingleDelete, if a dropped tombstone has nothing to hide |
| CompactionConditions.SingleDeleteReadsPreserved | db/compaction_iterator.cc:309-437 | and without that condition when no older level-0 file below the output holds the key |
| CompactionConditions.SnapshotZeroLosesIngestedKey | db/compaction_iterator.cc:294-305 | a compaction of an ingested file under a snapshot of the empty database loses a key for every reader |
| CompactionConditions.SnapshotZeroIff | db/external_sst_file_ingestion_job.cc:425-430 | a Put/Delete input keeps all reads if and only if snapshot 0 is not listed, or no newest version of a key has number 0 and an answer other than the data below |
| CompactionConditions.AlternatingZeroIff | db/compaction_iterator.cc:294-437 | for a key that alternates Put and SingleDelete, readers of a Put with number 0 notice exactly if it is the only version in the input, or if the reader is snapshot 0 and no positive snapshot separates it from the SingleDelete above |
| CompactionConditions.DroppedTombstonesSafeIff | db/compaction.cc:281-308 | from the output on, a leveled job keeps all Put/Delete reads of newer inputs if and only if no key has an older Put that the tombstone test overlooks |
| CompactionConditions.NoOlderL0NoResurrection | db/compaction.cc:281-308 | a key is never in that position if the output goes below level 0 or the remaining level-0 files do not hold it |
| CompactionConditions.IntraL0ResurrectsDeletedKey | db/compaction_picker.cc:1417-1431 | a compaction from level 0 to level 0 brings a deleted value back |
| CompactionIterator.KeyNotExistsBeyondOutputLevel | db/compaction.cc:281-308 | the cursors that only move forward give the answer of a fresh scan of all deeper levels, for non-decreasing keys |
| CompactionIterator.FindEarliestVisibleSnapshot | db/compaction_iterator.cc:559-574 | returns the earliest snapshot that sees the number and the last one that does not |
| CompactionIterator.ClearPath | db/compaction_iterator.cc:309-318 | what the "clear value and output next" path clears is no SingleDelete, and it is in the stripe of the SingleDelete before it, as the second assert there demands, if and only if its number 0 does not clash with snapshot 0 |
| CompactionIterator.JoinedIff | db/compaction_iterator.cc:355-366 | the look-ahead of a SingleDelete takes the next version for one of its own stripe exactly if it is, or if it clashes with snapshot 0 and no other snapshot is older than the SingleDelete |
| CompactionIterator.ClearAssertsFailIff | db/compaction_iterator.cc:309-414 | in a pair that may not be dropped, the value-type assert of that path is about to fail exactly if a Delete follows the SingleDelete, the same-stripe assert exactly if a record with number 0 follows it and clashes with snapshot 0 |
| CompactionIterator.ClearAssertsAlways | db/compaction_iterator.cc:309-414 | in a run whose input has no such pair both asserts hold in every pass |
| CompactionIterator.ClearsDelete | db/compaction_iterator.cc:309-318 | an input on which the value-type assert fails |
| CompactionIterator.ClearsOtherStripe | db/compaction_iterator.cc:309-318 | an input on which the same-stripe assert fails |
| CompactionIterator.Iterator.constructor | db/compaction_iterator.cc:35-101 | a fresh iterator stands before the input in the start state |
| CompactionIterator.Iterator.SeekToFirst | db/compaction_iterator.cc:116-119 | from here the iterator yields exactly the records of the stream, prepared for output |
| CompactionIterator.Iterator.Next | db/compaction_iterator.cc:121-164 | takes the first of the remaining records off, no other |
| CompactionIterator.Iterator.NextFromInput | db/compaction_iterator.cc:166-538 | finds the next record of the stream, or that there is none, and keeps cursor and state fitting |
| CompactionIterator.Iterator.Examine | db/compaction_iterator.cc:176-318 | one pass does what the step function says, and establishes the facts that the clear path asserts |
| CompactionIterator.Iterator.EnterRecord | db/compaction_iterator.cc:176-305 | the record at hand becomes the current one: the state is that of the step function, with the earliest snapshot that sees the record, the last that does not, and that of the version before |
| CompactionIterator.Iterator.ExamineSingleDelete | db/compaction_iterator.cc:319-437 | the look-ahead branches agree with the step function |
| CompactionIterator.Iterator.ExamineVersion | db/compaction_iterator.cc:438-536 | so do the branches for Put and Delete |
| CompactionIterator.Iterator.PrepareOutput | db/compaction_iterator.cc:540-557 | the current record is zeroed exactly under the stated condition |
| Bottommost.GetBoundaryKeys | db/compaction.cc:43-84 | returns the least and greatest user key of all input files, and whether there is any |
| Bottommost.Extend | db/compaction.cc:52-83 | one level widens the range to just cover its files |
| Bottommost.IsBottommostLevel | db/compaction.cc:86-118 | true if and only if the oldest level-0 file is an input (or none is) and nothing below the output level overlaps the range |
| Bottommost.BottommostKeysAreGone | db/compaction.cc:86-118 | then no key of the compaction is in any deeper level, no older level-0 file is left, and nothing older answers for the key |
| Bottommost.GetAll | db/snapshot_impl.h:77-104 | all snapshot numbers, and the oldest write-conflict boundary or the maximum |
| Bottommost.BoundaryIsNotOlder | db/snapshot_impl.h:77-104 | that boundary is not older than the earliest snapshot |
| Bottommost.BottommostZeroingIsSafe | db/compaction.cc:142-170 | a job set up by the bottommost test and the snapshot list zeroes safely: strictly sorted output, only Puts, and nothing older of their keys anywhere |
| Subcompaction.ProcessKeyValueCompaction | db/compaction_job.cc:740-796 | one subcompaction writes what the iterator from its start yields before its end |
| Subcompaction.EmitSplits | db/compaction_job.cc:740-796 | between two user keys the stream can be cut without changing it |
| Subcompaction.RangeIsCompactedSlice | db/compaction_job.cc:740-796 | a subcompaction writes exactly what a compaction of its slice of the input writes |
| Subcompaction.FromSplits | db/compaction_job.cc:740-796 | every record, with all versions of its key, is in exactly one of two neighbouring ranges |
| Subcompaction.SubcompactionsPreserveReads | db/compaction_job.cc:740-796 | with SingleDeletes too, the concatenated outputs answer every listed snapshot and the tip as the input does |
| SubcompactionSplit.ShowsInLength | db/compaction_iterator.cc:108-163 | two runs that differ only in whether the current key counts as written differ by exactly two records, or not at all |
| SubcompactionSplit.ShowsFirstIff | db/compaction_iterator.cc:108-163 | which of the two: the first record a run writes is followed, with only swallowed records between, by a SingleDelete pair of its key above the write-conflict boundary |
| SubcompactionSplit.FirstFrom | db/compaction_iterator.cc:166-538 | which record a range writes first, and whether it writes any, can be told from the records and snapshots: the first that is not hidden by the record before it, no obsolete tombstone, no SingleDelete before another one and in no pair below the write-conflict boundary |
| SubcompactionSplit.StreamDiffersIff | db/compaction_iterator.cc:108-163 | so the kind of a range can be told from its records and the snapshots |
| SubcompactionSplit.SubcompactionsConcatenateIff | db/compaction_job.cc:740-796 | the concatenated outputs of all subcompactions have two records more than the unsplit output for every range of that kind with output before it, a condition on the input records, snapshots and boundaries alone; they are the unsplit output if and only if there is none |
| SubcompactionSplit.SubcompactionsConcatenate | db/compaction_job.cc:740-796 | so they are if no SingleDelete is newer than the write-conflict boundary |
| SubcompactionSplit.SplitWritesMore | db/compaction_job.cc:740-796 | a job of two ranges that writes four records where the unsplit job writes two |
| SubcompactionBoundaries.CollectBounds | db/compaction_job.cc:404-456 | the candidate boundaries are exactly the stated file ends, sorted by user key without duplicates |
| SubcompactionBoundaries.GenSubcompactionBoundaries | db/compaction_job.cc:457-512 | boundaries are strictly increasing candidates, sizes number one more and sum to the total, the count respects all three limits, and every range but the last ends where it first reaches the mean |
| SubcompactionBoundaries.Group | db/compaction_job.cc:489-511 | the greedy grouping loses no byte, makes at most the allowed number of groups, closes a group exactly where its sum first reaches the mean, and gives the rest to the last |
| SubcompactionBoundaries.Prepare | db/compaction_job.cc:358-389 | the ranges are half open between neighbouring boundaries and unbounded at both ends |
| SubcompactionBoundaries.LayoutPartitionsKeys | db/compaction_job.cc:358-389 | every user key falls in exactly one range |
| SuperVersion.InvStep | db/column_family.cc:857-963 | every atomic step of get, return, get-referenced, release, thread exit and install keeps the invariant |
| SuperVersion.InvAlways | db/column_family.cc:846-963 | the invariant holds after every interleaving |
| SuperVersion.RefsAreExact | db/column_family.cc:288-298 | outside an install a SuperVersion's count is [it is current] + slots caching it + borrowed references |
| SuperVersion.NeverUsedAfterCleanup | db/column_family.cc:293-311 | whatever a step touches has not been cleaned up, and Unref() finds a positive count |
| SuperVersion.CleanedExactlyOnce | db/column_family.cc:300-311 | nobody holds a cleaned SuperVersion, none is cleaned twice, and when no cleaning is under way every unreferenced one has been cleaned |
| SuperVersion.SlotAssertsHold | db/column_family.cc:857-919 | a get never finds kSVInUse, and a compare-and-swap that fails finds kSVObsolete |
| SuperVersion.CachedIsCurrent | db/column_family.cc:927-963 | outside an install every cached SuperVersion is the current one; during one it is the current or, in slots not scraped yet, the outgoing one |
| SuperVersion.FastPathIsCurrent | db/column_family.cc:879-900 | a get takes the fast path if and only if what it cached is current at that instant |
| SuperVersion.ReturnedIsCurrentIff | db/column_family.cc:903-919 | a successful return puts back the current SuperVersion if and only if no running install has yet to scrape the slot |
| SuperVersion.ReturnCanCacheOutgoing | db/column_family.cc:903-919 | a run in which a successful return caches the outgoing SuperVersion |
| SuperVersion.NeverStuck | db/db_impl.cc:1787-1820 | no step of a get or return is ever blocked by anything but the mutex |
| SuperVersion.ReferencedIsNotLast | db/column_family.cc:846-855 | GetReferencedSuperVersion() may ignore what Unref() returns: it is never the last reference |
| LRUTable.LRUHandleTable.constructor | cache/lru_cache.cc:25-27 | an empty table of 16 buckets |
| LRUTable.LRUHandleTable.FindPointer | cache/lru_cache.cc:68-74 | ends at the link to the entry with the tag, or at the trailing link of its chain |
| LRUTable.LRUHandleTable.Lookup | cache/lru_cache.cc:38-40 | finds exactly what the abstract map holds under the tag |
| LRUTable.LRUHandleTable.Insert | cache/lru_cache.cc:42-56 | updates the abstract map at the tag and returns what was there; the load factor stays at most one |
| LRUTable.LRUHandleTable.Remove | cache/lru_cache.cc:58-66 | removes the tag from the abstract map and returns its entry |
| LRUTable.LRUHandleTable.NewLength | cache/lru_cache.cc:77-80 | the least of 16, 32, 64, ... that is at least one and a half times the number of entries |
| LRUTable.LRUHandleTable.Resize | cache/lru_cache.cc:76-100 | relinking every chain into new buckets keeps the abstract map, and the entry count it asserts is right |
| LRUTable.TablePut | cache/lru_cache.cc:42-56 | linking an entry in at the found link keeps all chains well formed |
| LRUTable.TableCut | cache/lru_cache.cc:58-66 | so does unlinking one |
| LRUTable.MoveOne | cache/lru_cache.cc:86-96 | moving one entry to the front of its new chain keeps the new chains well formed |
| LRUList.RingInsert | cache/lru_cache.cc:186-209 | linking an entry in after any stop keeps one ring through the dummy head in the intended order |
| LRUList.RingRemove | cache/lru_cache.cc:170-184 | unlinking one keeps the ring of the others |
| LRUList.LruList.Remove | cache/lru_cache.cc:170-184 | takes exactly that entry off, keeps the split between the pools at lru_low_pri_ and both usage sums |
| LRUList.LruList.MaintainPoolSize | cache/lru_cache.cc:211-219 | overflows the oldest high-priority entries until the pool fits, and no more; its assert holds |
| LRUList.LruList.Insert | cache/lru_cache.cc:186-209 | a high-priority entry becomes the newest of all, any other the newest of the low-priority pool; the pool overflows until it fits and no more; usage sums follow |
| LRUList.LruList.SetRatio | cache/lru_cache.cc:287-292 | the pool is trimmed to its new capacity, and no more |
| LRUShard.LRUCacheShard.constructor | cache/lru_cache.cc:102-108 | an empty shard |
| LRUShard.LRUCacheShard.Ref | cache/lru_cache.cc:277-285 | one more reference; an evictable entry leaves the list |
| LRUShard.LRUCacheShard.Lookup | cache/lru_cache.cc:264-275 | returns what the map holds for the key, with one more reference and off the list, or nothing |
| LRUShard.LRUCacheShard.EvictFromLRU | cache/lru_cache.cc:221-234 | evicts and frees the oldest entries of the list: the least number of them whose eviction makes the charge fit, or all |
| LRUShard.LRUCacheShard.SetCapacity | cache/lru_cache.cc:244-257 | evicts a prefix of the list, oldest first, until usage is within capacity or nothing is evictable, and no more; the pool capacity follows |
| LRUShard.LRUCacheShard.Release | cache/lru_cache.cc:294-330 | gives one reference back; the entry is freed exactly in the stated cases and otherwise takes its place in the list when nobody holds it; the assert about a full cache holds |
| LRUShard.LRUCacheShard.Insert | cache/lru_cache.cc:332-407 | admitted if and only if it fits beside the held bytes, or the caller wants a handle and the limit is not strict; the least number of oldest entries is evicted for it; map, entries and list are those left by the eviction, less the entry replaced, plus the new one as the newest of its pool |
| LRUShard.LRUCacheShard.Erase | cache/lru_cache.cc:409-432 | the key leaves the map and the entry the list; it is freed if nobody holds it |
| LRUShard.LRUCacheShard.EraseUnRefEntries | cache/lru_cache.cc:120-141 | exactly the entries nobody holds are evicted |
| LRUShard.LRUCacheShard.SetHighPriorityPoolRatio | cache/lru_cache.cc:287-292 | the pool fits its new capacity and gave up no more than needed; the list is unchanged |
| LRUShard.LRUCacheShard.GetPinnedUsage | cache/lru_cache.cc:439-443 | usage minus list usage is exactly the charge of the entries held outside |
| LRUShard.LRUCacheShard.ThreeStates | cache/lru_cache.h:27-44 | the documented three states: held and in the table; in table and list, held by nobody; held and in neither |
| LRUShard.LRUCacheShard.NeverFreedWhileHeld | cache/lru_cache.h:27-44 | an entry held outside is allocated and has not been freed |
| ClockProtocol.InvStep | cache/clock_cache.cc:397-491 | every atomic step of lookup, release, forced release, eviction, insert, erase and clearing keeps the invariant |
| ClockProtocol.InvAlways | cache/clock_cache.cc:397-669 | the invariant holds after every interleaving |
| ClockProtocol.RecycledAtMostOnce | cache/clock_cache.cc:397-408 | every fill of a handle is recycled at most once; a handle in the bin is out of the cache and unreferenced |
| ClockProtocol.RecycleAssertHolds | cache/clock_cache.cc:397-408 | RecycleHandle() works on an entry out of the cache without references, and nobody else is about to recycle it |
| ClockProtocol.PinnedKeepsItsKey | cache/clock_cache.cc:604-627 | a handle that a lookup or insert returned stays referenced, out of the bin, and the entry of the key asked for |
| ClockProtocol.CallsHoldReferences | cache/clock_cache.cc:441-461 | Unref() finds a positive count on a handle outside the bin |
| ClockProtocol.EvictedIsInTable | cache/clock_cache.cc:478-491 | the entry TryEvict() evicts is in the table |
| ClockProtocol.FreeMutexMeansConsistent | cache/clock_cache.cc:534-578 | with the mutex free the table holds exactly the in-cache handles and usage_ is the sum of the charges outside the bin |
| ClockProtocol.QuiescentMeansNoLeak | cache/clock_cache.cc:441-476 | with no call under way a handle outside the bin is cached or pinned |
| ClockProtocol.NeverStuck | cache/clock_cache.cc:604-627 | the owner of the mutex always has a step, and so has every call, unless it waits for the mutex to recycle or to erase |
| ClockProtocol.PinnedUsageIsInexact | cache/clock_cache.cc:449-453 | a run that ends with nothing pinned and pinned_usage_ at -4 |
| ClockAccounts.ExcessStep | cache/clock_cache.cc:423-461 | every step keeps pinned_usage_ minus what is owed, except a refill of a handle that releases have yet to take a charge off |
| ClockAccounts.PinnedUsageIs | cache/clock_cache.cc:423-461 | in every reachable state pinned_usage_ is the charges of the entries in use, plus what pending releases will take off, plus the drift of the refills so far |
| ClockAccounts.PinnedUsageExactIff | cache/clock_cache.cc:423-461 | with no release about to take a charge off it is the charge of the entries in use if and only if the drift is 0 |
| ClockAccounts.DriftsOnlyByRefill | cache/clock_cache.cc:548-565 | a step drifts only if it refills a handle with another charge while a release of it is pending |
| ClockForced.ForcedAlways | cache/clock_cache.cc:629-638 | in every run a forced release remembers an entry its handle holds, held last, or has been refilled since |
| ClockForced.ReadsReleasedKeyIff | cache/clock_cache.cc:629-638 | a forced release reads the released key if and only if the handle was neither recycled nor refilled since the drop |
| ClockForced.ErasesReleasedEntryIff | cache/clock_cache.cc:629-657 | it takes out the released entry if and only if that entry is still cached, and otherwise whatever is cached under the key it read |
| ClockForced.ForcedReleaseErasesUnrelatedKey | cache/clock_cache.cc:629-638 | a run in which it erases a key that nobody released |
| ClockShard.ClockCacheShard.TryEvict | cache/clock_cache.cc:478-491 | evicts exactly an unused, unreferenced cached entry, else clears its usage bit |
| ClockShard.ClockCacheShard.EvictFromCache | cache/clock_cache.cc:493-517 | looks at most twice at every handle, stops as soon as the charge fits and continues there next time; success means the charge fits, failure that all used bytes are pinned; which of the two is stated exactly |
| ClockShard.FailsWithRoomToSpare | cache/clock_cache.cc:493-517 | a scan that fails although the charge would fit by then |
| ClockShard.ClockCacheShard.SetCapacity | cache/clock_cache.cc:519-527 | afterwards usage is within capacity or all of it is pinned, and no handle was examined once it was |
| ClockShard.ClockCacheShard.UnsetInCache | cache/clock_cache.cc:463-476 | recycles an entry only if it was in the cache and nobody holds it |
| ClockShard.ClockCacheShard.TakeHandle | cache/clock_cache.cc:548-565 | the last handle of the bin, or a new one if the bin is empty |
| ClockShard.ClockCacheShard.Place | cache/clock_cache.cc:548-577 | the new entry replaces any older one of its key; all other handles are untouched |
| ClockShard.ClockCacheShard.Insert | cache/clock_cache.cc:534-578 | admitted if and only if the scan succeeds or the caller holds the entry without a strict limit; the handles are those the scan left, with the new entry in a free one and the older one of its key uncached; otherwise usage stays within capacity |
| ClockShard.ClockCacheShard.Lookup | cache/clock_cache.cc:604-627 | returns the handle the table names, with one more reference |
| ClockShard.ClockCacheShard.Unref | cache/clock_cache.cc:441-461 | recycles exactly an erased entry with its last reference |
| ClockShard.ClockCacheShard.EraseAndConfirm | cache/clock_cache.cc:646-657 | the key leaves the table; true if and only if nobody held the entry |
| ClockShard.ClockCacheShard.Release | cache/clock_cache.cc:629-638 | gives one reference back; a forced release also uncaches whatever the table names under the key by then; true exactly if that freed an entry |
| ClockShard.ForcedReleaseErasesReplacement | cache/clock_cache.cc:629-638 | without interleaving too: an entry held twice, replaced and force-released takes its replacement with it |
| ClockShard.ClockCacheShard.EraseUnRefEntries | cache/clock_cache.cc:659-669 | nothing stays in the cache and all used bytes are pinned |
| LevelFiles.GetOverlapping | db/version_set.cc:1816-1876 | binary search and extension return exactly the files of a sorted level that overlap the range |
| LevelFiles.ExtendOverlapping | db/version_set.cc:1883-1925 | from one overlapping file to all of them |
| LevelFiles.ShrinkToClean | db/version_set.cc:1939-2001 | what remains is a clean cut within the interval and contains every other one |
| LevelFiles.GetCleanWithin | db/version_set.cc:1783-1876 | the largest clean cut within the interval, or nothing if there is none |
| LevelFiles.InsideButNotClean | db/version_set.cc:1862-1876 | a file within an interval that contains no clean cut |
| LevelFiles.GetOverlappingLevel0 | db/version_set.cc:1720-1777 | ends with the least range around the given one that no level-0 file it hits sticks out of, and returns exactly the files it hits |
| LevelFiles.ScanSorted | db/version_set.cc:1747-1777 | with a missing bound the scan returns exactly the run of files that the range hits |
| LevelFiles.AreFilesInCompaction | db/compaction_picker.cc:279-287 | true if and only if some file is under compaction |
| LevelFiles.ExpandInputsToCleanCut | db/compaction_picker.cc:202-240 | terminates at the least clean cut around the inputs; succeeds if and only if none of its files is under compaction |
| LevelFiles.CleanCutSharesNothing | db/compaction_picker.cc:218-220 | no file outside a clean cut shares a user key with one inside |
| PickerInputs.GetRange | db/compaction_picker.cc:127-154 | the least and greatest user key of the inputs |
| PickerInputs.TotalCompensatedFileSize | db/compaction_picker.cc:32-38 | the sum of the sizes |
| PickerInputs.TryOverlapping | db/compaction_picker.cc:438-468 | if the start level grows this way, the output-level files already chosen are still all that share keys with it |
| PickerInputs.TryWithin | db/compaction_picker.cc:469-479 | grown by the largest clean run within the joint range, which always holds the inputs, the output-level files stay complete and the sizes below the limit |
| PickerInputs.SetupOtherInputs | db/compaction_picker.cc:390-494 | succeeds if and only if the output-level files that share keys with the inputs are within an idle clean cut; then the outputs are complete for the chosen inputs and a clean cut, and the choice keeps what it had |
| PickerInputs.HitsAreWhole | db/version_set.cc:1755-1766 | the level-0 search leaves out nothing that shares a key with what it found |
| PickerInputs.SameCut | db/compaction_picker.cc:454-467 | if the wider range needs as many output-level files as before, it needs the same files |
| PickerInputs.HullIsComplete | db/compaction_picker.cc:469-479 | every output-level file that meets the joint range of both levels is already chosen |
| Sanitize.OverlapTestIsExact | db/compaction_picker.cc:703-724 | the nested comparisons of HaveOverlappingKeyRanges() decide exactly whether two ranges overlap |
| Sanitize.FindRun | db/compaction_picker.cc:755-775 | the first and last chosen file of a level |
| Sanitize.ExtendRun | db/compaction_picker.cc:777-797 | the run is widened until its neighbours share no user key with it |
| Sanitize.IncludeOverlapping | db/compaction_picker.cc:835-854 | every file with a key in the range is chosen, and no other is added |
| Sanitize.SettleLevel | db/compaction_picker.cc:754-855 | one more level is complete with needed files only, or a needed file is busy |
| Sanitize.SanitizeForAllLevels | db/compaction_picker.cc:727-857 | returns the least complete choice around the user's, all idle, or aborts and every complete choice around it holds a busy file; of level 0 it takes exactly the files between two chosen ones |
| Sanitize.SanitizedIsClosed | db/compaction_picker.cc:835-854 | a file down to the output level that shares keys with a chosen file of its own or a shallower level is chosen |
| Sanitize.LeftBehindIff | db/compaction_picker.cc:733-735 | a complete choice leaves a file above the output that is older than a chosen one and shares keys with it if and only if a level-0 file behind the last chosen one shares keys with a chosen one |
| Sanitize.OlderFileIsLeftBehind | db/compaction_picker.cc:733-735 | an instance: the newest of two level-0 files with the same keys |
| RunningCompactions.CompactionPicker.constructor | db/compaction_picker.cc:113-115 | nothing runs and nothing is marked |
| RunningCompactions.CompactionPicker.RangeOverlapWithCompaction | db/compaction_picker.cc:242-256 | true if and only if a running compaction with that output level meets the range |
| RunningCompactions.CompactionPicker.FilesRangeOverlap | db/compaction_picker.cc:258-277 | the same for the range of the given inputs |
| RunningCompactions.CompactionPicker.Register | db/compaction_picker.cc:925-937 | adds the compaction, marks exactly its files and keeps all running compactions compatible |
| RunningCompactions.CompactionPicker.Release | db/compaction_picker.cc:939-948 | removes it and unmarks exactly its files, all of which were marked |
| RunningCompactions.CompactionPicker.PickFileToCompact | db/compaction_picker.cc:1343-1415 | picks the first file, in order of priority, that an idle clean cut with idle outputs and no clash with a running compaction can take in; no file before it could be compacted with any choice of inputs |
| RunningCompactions.CompactionPicker.TryFile | db/compaction_picker.cc:1368-1408 | accepts a file exactly if some choice of inputs with it can be compacted now, and then with the least one |
| RunningCompactions.CompactionPicker.PickMarkedFile | db/compaction_picker.cc:1044-1086 | an idle clean cut around the marked file, and nothing if and only if there is none or level 0 is taken |
| RunningCompactions.CompactionPicker.SetupOtherL0Files | db/compaction_picker.cc:1148-1174 | takes in every level-0 file that shares keys, all of them idle; fails if and only if an output-level file in their range is busy |
| RunningCompactions.CompactionPicker.FinishPick | db/compaction_picker.cc:1176-1307 | on both levels no file left out shares a key with one that is taken, and no output-level file left out has a key in the range of the start-level files |
| RunningCompactions.CompactionPicker.PickCompaction | db/compaction_picker.cc:1252-1279 | at most one compaction is added and all running ones stay compatible; it contains the marked file or the first file that can be compacted; on both levels no file left out shares a key with one that is taken, and no output-level file left out has a key in the range of the start-level files |
| RunningCompactions.PickIsSeparate | db/compaction_picker.cc:390-494 | clean cuts on both levels, or all of level 0 that shares keys, are apart from what is left |
| RunningCompactions.CompactionPicker.PickIntraL0Compaction | db/compaction_picker.cc:1417-1431 | declined or made exactly as the documented thresholds say; its inputs are the maximal idle run of the newest files over which the cost per removed file does not rise |
| RunningCompactions.FindIntraL0Compaction | db/compaction_picker.cc:40-71 | that run, if it is long enough and cheap enough, else nothing |
| RunningCompactions.CompactionPicker.CompactFiles | db/compaction_picker.cc:289-316 | declined if and only if it starts in level 0 beside another such compaction or its range meets a running one with the same output level |
| RunningCompactions.CompactionPicker.CompactRange | db/compaction_picker.cc:584-698 | takes every file of the level in the range, up to the reported end, with all files of both levels that share keys; reports a conflict if and only if no clean cut around the wanted files, no clean cut of the outputs they need, or not the range of both is free |
| RunningCompactions.CompactionPicker.RangeInputs | db/compaction_picker.cc:595-640 | the least clean cut around the wanted files, or a conflict if and only if level 0 is taken or no such cut is idle |
| RunningCompactions.CompactionPicker.ManualInputs | db/compaction_picker.cc:595-623 | the files in the range; below level 0 the first of them that together reach the limit, and where the rest starts |
| RunningCompactions.CompactionPicker.RunningAreApart | db/compaction_picker.cc:242-277 | two running compactions share no file, and with the same output level above 0 no input files of theirs share a key |
| UniversalPicker.LevelRun | db/compaction_picker_universal.cc:213-242 | a deeper level is one run with the summed sizes, marked if and only if one of its files is under compaction |
| UniversalPicker.CalculateSortedRuns | db/compaction_picker_universal.cc:205-247 | the runs are ordered by age and level, one per level-0 file and one per deeper level with bytes, and a run is marked exactly if one of its files is under compaction |
| UniversalPicker.BlockIsIdle | db/compaction_picker_universal.cc:476-511 | a block consists of neighbouring idle runs and is no wider than allowed |
| UniversalPicker.MeasureBlock | db/compaction_picker_universal.cc:476-511 | the inner loop finds the one width that makes a block: every run after the first fits those before it, and the block ends only with the runs, at the limit, or before a run that is busy or does not fit |
| UniversalPicker.WidthIsBlock | db/compaction_picker_universal.cc:476-511 | that width is unique |
| UniversalPicker.PickSortedRuns | db/compaction_picker_universal.cc:419-567 | picks the newest block of at least the least width, or finds that there is none |
| UniversalPicker.LevelsAround | db/compaction_picker_universal.cc:559-567 | the output level is at least every picked level; newer runs stay shallower (or in level 0), older ones deeper (or in level 0 if the output goes there) |
| UniversalPicker.MergeKeepsOrder | db/compaction_picker_universal.cc:559-567 | after the merge the runs are still ordered by age and level |
| Scheduler.GetBGJobLimits | db/db_impl_compaction_flush.cc:1126-1147 | both limits are at least one, together within max_background_jobs, and compactions are throttled to one unless needed |
| Scheduler.BackgroundScheduler.constructor | db/db_impl.cc:169-190 | nothing queued, scheduled or paused |
| Scheduler.BackgroundScheduler.SchedulePendingFlush | db/db_impl_compaction_flush.cc:1165-1186 | queues the column family once, with its flag and one unscheduled flush |
| Scheduler.BackgroundScheduler.SchedulePendingCompaction | db/db_impl_compaction_flush.cc:1149-1193 | the same for compactions |
| Scheduler.BackgroundScheduler.ScheduleFlushes | db/db_impl_compaction_flush.cc:1049-1069 | moves unscheduled flushes to the pool that is there, losing none, as far as the limit allows and no further |
| Scheduler.BackgroundScheduler.ScheduleHigh | db/db_impl_compaction_flush.cc:1071-1093 | SILK's condition decides exactly whether one compaction goes to the HIGH pool |
| Scheduler.BackgroundScheduler.ScheduleLow | db/db_impl_compaction_flush.cc:1106-1115 | moves unscheduled compactions to the LOW pool up to the limit, losing none |
| Scheduler.BackgroundScheduler.MaybeScheduleFlushOrCompaction | db/db_impl_compaction_flush.cc:1033-1116 | conserves all work; changes nothing while work is paused; leaves flushes behind only at their limit; SILK's condition, after the flushes are scheduled, decides exactly whether a compaction goes to the HIGH pool; while compactions are paused no other is scheduled, otherwise compactions are left behind only at their limit |
| Scheduler.BackgroundScheduler.PopFlushable | db/db_impl_compaction_flush.cc:1247-1263 | takes the first column family that can be flushed and clears the flags of all it pops |
| Scheduler.BackgroundScheduler.StartFlush | db/db_impl_compaction_flush.cc:1234-1263 | a flush job takes the first flushable column family, or finds none in the whole queue; the flush queue never outgrows the flushes scheduled or to be scheduled |
| Scheduler.BackgroundScheduler.FinishFlush | db/db_impl_compaction_flush.cc:1345-1349 | takes the job off both counts |
| Scheduler.BackgroundScheduler.StartCompaction | db/db_impl_compaction_flush.cc:1514-1574 | until an error an automatic compaction finds its queue nonempty, and queue length equals unscheduled plus waiting automatic compactions |
| Scheduler.BackgroundScheduler.FinishCompaction | db/db_impl_compaction_flush.cc:1424-1431 | takes the job off both counts |
| Scheduler.BackgroundScheduler.ScheduleManual | db/db_impl_compaction_flush.cc:933-947 | a manual compaction is counted, also while work is paused |
| Scheduler.BackgroundScheduler.BeginCompactFiles | db/db_impl_compaction_flush.cc:510-520 | a declined call keeps its count for good |
| Scheduler.BackgroundScheduler.EndCompactFiles | db/db_impl_compaction_flush.cc:601-606 | an accepted call takes its count back |
| Scheduler.BackgroundScheduler.DrainedIff | db/db_impl_compaction_flush.cc:612-620 | the wait of PauseBackgroundWork() ends if and only if no job is left anywhere and no CompactFiles() call was declined |
| Scheduler.Run | db/db_impl_compaction_flush.cc:510-620 | once a CompactFiles() call was declined, background work is drained at no point of any later run |
| Scheduler.DeclinedCallIsNeverForgotten | db/db_impl_compaction_flush.cc:510-520 | a call declined because of a compaction in progress: when that one has ended no job is left anywhere, and background work is still not drained |
| Scheduler.BackgroundScheduler.EndPause | db/db_impl_compaction_flush.cc:612-620 | when PauseBackgroundWork() returns no automatic job waits, and none will until the matching continue |
| Scheduler.BackgroundScheduler.ContinueBackgroundWork | db/db_impl_compaction_flush.cc:622-637 | succeeds if and only if work is paused, and takes one off both pause counters |
| Scheduler.BackgroundScheduler.EndPauseCompaction | db/db_impl_compaction_flush.cc:639-648 | adds the second of two, when no compaction waits or runs |
| Scheduler.BackgroundScheduler.ContinueCompactionWork | db/db_impl_compaction_flush.cc:650-664 | takes one off, whoever added it |
| Scheduler.BackgroundScheduler.PauseAndContinueCompaction | db/db_impl_compaction_flush.cc:639-664 | one pause and one continue leave compactions paused |
| Scheduler.BackgroundScheduler.ContinueCompactionInsideWorkPause | db/db_impl_compaction_flush.cc:622-664 | a compaction continue inside a work pause makes the assert of ContinueBackgroundWork() fail |
| Scheduler.BackgroundScheduler.WorkPausedWithinCompactionPausedIff | db/db_impl_compaction_flush.cc:631-633 | the commented relation between the pause counters holds exactly while successful ContinueCompactionWork() calls do not outnumber begun and finished PauseCompactionWork() calls and waiting PauseBackgroundWork() calls |
| Scheduler.BackgroundScheduler.UnscheduleAll | db/db_impl.cc:258-268 | after the destructor emptied the pools the counters are right if and only if as many compactions waited in the HIGH pool as flushes in the LOW pool |
| Scheduler.ShutdownMiscounts | db/db_impl.cc:258-268 | a HIGH compaction waiting at shutdown leaves the counters at 1 and -1 with nothing running |
| Scheduler.CloseDatabase | db/db_impl.cc:258-270 | whichever running jobs end, in whatever order, the wait of the destructor is over if and only if all have ended, as many compactions waited in the HIGH pool as flushes in the LOW pool, and no CompactFiles() call was ever declined |
| PendingOutputs.InvStep | db/db_impl_files.cc:140-207 | job start, file creation, install, deferred install, release, find, scan and purge keep the invariant: jobs number their files from their entries on, a scan's snapshot stays current, and a pass can delete no output of a running job and nothing live or deferred that was not exposed when it began |
| PendingOutputs.InvAlways | db/db_impl.cc:1910-1924 | the invariant holds after every interleaving |
| PendingOutputs.AlwaysSorted | db/db_impl.cc:1910-1924 | pending_outputs_ stays sorted, so its first entry is the least |
| PendingOutputs.PurgeIsSafe | db/db_impl_files.cc:426-431 | whatever happened since its snapshot, a deletion pass never deletes an output of a running job, and it deletes a live file or one left for another flush to install only if no entry protected that file when the pass began |
| PendingOutputs.NothingNeededIsDeleted | db/db_impl_files.cc:341-463 | in every run all outputs of running jobs are in the directory, and so is every live or deferred file that was not exposed at the beginning of some pass of the run |
| PendingOutputs.DeferredLostIff | db/memtable_list.cc:335-341 | in every run: a pass that begins now can delete a deferred file in the directory if and only if no running job started at or below its number |
| PendingOutputs.FailedOlderFlushExposesFile | db/db_impl_compaction_flush.cc:1324-1328 | a run in which a failed older flush exposes the file of a newer one to the deletion pass that follows |
| PendingOutputs.FailedOlderFlushLosesFile | db/memtable_list.cc:335-373 | that run goes on: the pass deletes the file and the next flush installs it, so a live file is missing |
| PendingOutputs.ExposedWhenItBegan | db/db_impl_files.cc:169-178 | what a pass may wrongly delete was deferred, with no entry at or below its number, at the step of the run that began a pass |
| PendingOutputs.NoDeadFileIsForgotten | db/version_set.cc:3731-3745 | in every run a file that is no longer live stays with the version set or in a pass that will delete it, until it is deleted |
| PendingOutputs.InvFind | db/version_set.cc:3731-3745 | the snapshot of a pass names only dead files; every obsolete file is in it or stays with the version set |
| PreparedLogs.PreparedLogHeap.constructor | db/db_impl.h:1174-1194 | nothing prepared |
| PreparedLogs.PreparedLogHeap.MarkLogAsContainingPrepSection | db/db_impl_files.cc:59-67 | one more preparation of the log |
| PreparedLogs.PreparedLogHeap.MarkLogAsHavingPrepSectionFlushed | db/db_impl_files.cc:51-57 | one more completion of the log |
| PreparedLogs.PreparedLogHeap.FindMinLogContainingOutstandingPrep | db/db_impl_files.cc:69-101 | the least log with more preparations than completions, or 0 if there is none; what is outstanding does not change |

## Left out

- Merge operands, range deletions, compaction filters, corrupt keys and shutdown polling in the compaction stream; blobs.
- Table building, file writing, directories, statistics, listeners, logging, and `LogAndApply()`: an install is a step that changes the live files.
- Memory ordering weaker than sequential consistency, and the memory of keys, in the clock cache and the SuperVersion cache.
- Integer overflow of counters and sizes, and rounding of `double` arithmetic.
- `hash & (length - 1)` in the LRU table is modelled as the remainder, which it equals for the powers of two the table uses.
- Freeing evicted LRU entries after the mutex is released: the model frees them at the end of the operation.
- Compactions across nonempty levels between start and output level in `LeveledReads`: the output level of a pick is the next level, or the first nonempty one below level 0.
- The choice of start level by score and of files by compaction priority: the leveled picker takes both as parameters. The delay by estimated reclaim ratio is an arbitrary "decline".
- FIFO compaction, the manual compaction of all levels in universal style, and the size-amplification pick, path choice and ingest-behind of universal compaction.
- Write stalls, flush of memtables, manual compaction conflicts, and the purge queue in the scheduler.
- Log files other than those with prepared sections, and the manifest, in file retention.
- PickerInputs.TryOverlapping: does not state a bound on the size of the grown inputs, because the code compares the limit with their size before they are extended to a clean cut.
- CompactionConditions.AlternatingZeroIff: only for a Put that has a value, because a cleared Put without one reads the same.
- The hash in the clock cache's keys: a forced release that reads a cleared key is taken to find nothing.

# A verified model of an elastic-filter LSM store

The modelled system is a LevelDB derivative whose tables carry several small Bloom filters per
region instead of one large one; a frequency-driven multi-queue cache loads and drops them one at
a time. The model covers the store from the log to the caches:

- **The store as a step system** (`LsmState`, `LsmProof`, `LsmCompact`, `LsmRuns`,
  `LsmNoSnapshots`, `LsmLimits`, `LsmHoles`, over `DbFormat`, `VersionFiles`, `VersionGet`,
  `PickCompaction`, `Compaction`): writes, memtable switches, flushes, compactions that run while
  everything else goes on, and snapshots, against the plain map they implement.
- **Tables** (`BlockIter`, `BlockBuilder`, `TableBuilder`, `TableLookup`, `TableFile`, `TableGet`,
  `Comparator`): prefix-compressed blocks, shortened index keys and the lookup, down to the bytes
  of the file.
- **Elastic filters** (`Bloom`, `FilterBlock`, `FilterMeta`, `TableFilters`, `ElasticTable`,
  `ElasticSafety`, `FilterBarrier`).
- **Log, batches and manifest** (`Log`, `LogReader`, `LogTorn`, `LogScan`, `WriteBatch`, `Writers`,
  `Recovery`, `VersionEdit`, `VersionBuilder`, `Manifest`, `VersionSet`, `ManifestFile`).
- **Iterators** (`MergingIterator`, `DbIterator`), the **skip list** (`SkipList`) and the **caches**
  (`HandleTable`, `Handles`, `LruCache`, `QueueState`, `MultiQueue`).

Files are byte sequences. The outcomes of file reads, the user comparator (any strict total order),
the checksum and the hash function are parameters. Clocks, filter sizes and the outcomes of
floating-point comparisons are parameters too, so what is proved holds for all of them. Concurrent
parts are step systems in which the steps of the threads interleave in any order.

`dafny verify dfyconfig.toml` checks the whole project.

## Findings

Seven promises do not hold in general. Each has a concrete input and the exact condition under which
the promise is kept.

| promise | source | what happens, and exactly when |
|---|---|---|
| a compaction keeps shallower data newer | LSM-EBF/db/version_set.cc:1476-1542 | With a live snapshot two files of a level may share a boundary user key, and a compaction may take only the newer one: `LsmLimits.SnapshotBoundaryCounterexample` is a run whose last Get returns an overwritten value. `LsmLimits.CompactionSafeIffClean` gives the condition; `LsmNoSnapshots.QuietRunsAreSafe` shows that it always holds without snapshots, if no flush can fall between the outputs (the next row). |
| a flush never overlaps the outputs of a running compaction | LSM-EBF/db/version_set.cc:1632-1665 | A manual compaction may take files with a gap between them: `LsmHoles.ManualCompactionLosesWrite` is a run with such inputs after which Get misses the key written last. `LsmHoles.FlushBreaksIffHole` gives the condition; `PickInputs.PickCompaction` shows that automatic picks meet it. |
| AddFilters loads the next filters of the table | LSM-EBF/table/table.cc:587-611 | A failed read moves on to the next handle but not to the next filter number: `ElasticSafety.GapHidesKey` is a table that skips a block holding the empty key, whose hash is the seed. `ElasticTable.Table.AddedExactIff` and `ElasticTable.Table.ExactIffNoGap` give the condition. |
| RemoveFilters keeps the two lists of loaded filters equal | LSM-EBF/table/table.cc:613-661 | It does not if more filters are asked for than a non-empty list holds, and runs over the end of the list if n is -1 on an empty region or smaller: `ElasticSafety.RemovalDrifts` asks two filters back from a region with one, and the two `<==>` clauses of `ElasticTable.Table.RemoveFilters` give the conditions. |
| KeyMayMatch takes a block beyond the filters for a potential match | LSM-EBF/table/filter_block.cc:281-309 | The guard compares with the number of offsets, which is one more than there are filters: `ElasticSafety.GuardReadsPast` is an offset that passes it and has no region. The `undefined` clause of `TableFilters.FilterBlockReader.KeyMayMatch` gives the condition; no data block of a built table meets it (`TableFile.BuildTable`). |
| shrinking the multi-queue returns | LSM-EBF/util/multi_queue.cc:1004-1048 | The forced loop only looks at the longest queue and spins when that runs empty: `MultiQueues.ForcedShrinkHangs` is a sequence of four insertions that hangs. `MultiQueues.MultiQueue.Force` gives the condition for the loop and `MultiQueues.MultiQueue.MayBeShrinkUsage` for the whole of shrinking, both on the state before the call. |
| the log reader skips and reports fragments of types it does not know | LSM-EBF/db/log_reader.cc:152-177 | The reader uses 5 and 6 itself, for the end of the file and for bad bytes: behind a fragment of type 5 an intact record is neither read nor reported, and a fragment of type 6 is skipped without a report. `LogScan.UnknownType` gives the outcome for every unknown type: the record behind it is read exactly if the type is not 5, and the fragment is reported exactly if it is neither 5 nor 6. |

## Model

| member | source | states |
|---|---|---|
| DbFormat.ReadsUnique | LSM-EBF/db/dbformat.cc:50-66 | at most one value is read for a key at a snapshot, so "newest visible entry" is a function of the entries |
| DbFormat.ReadsTotal | LSM-EBF/db/dbformat.cc:50-66 | every key has a result at every snapshot, so that reading is a total function |
| VersionFiles.SearchFinds | LSM-EBF/db/version_set.cc:86-105 | in a sorted level the binary search ends at the first file whose largest key is at or after the key |
| VersionFiles.FindFile | LSM-EBF/db/version_set.cc:86-105 | the loop ends where the binary search does, also on levels that are not sorted |
| VersionFiles.SomeFileOverlapsRange | LSM-EBF/db/version_set.cc:121-156 | the scan of level 0 and the single binary search of sorted levels both say exactly whether some file meets the range |
| VersionFiles.GetOverlappingInputs | LSM-EBF/db/version_set.cc:552-593 | at level 0 the restarting loop terminates with the least set of files that contains those meeting the request and is closed under overlap with its own hull; deeper down, exactly the files meeting the request in order |
| PickInputs.SetupOtherInputs | LSM-EBF/db/version_set.cc:1476-1542 | the inputs hold the seed, every next-level file meeting their hull, and have no gap if the seed has none |
| PickInputs.PickCompaction | LSM-EBF/db/version_set.cc:1421-1474 | automatically picked inputs together cover one interval of user keys without a gap |
| PickInputs.CompactRange | LSM-EBF/db/version_set.cc:1632-1665 | a manual compaction starts from the files that meet the range, above level 0 only the first of them up to the size limit, takes every next-level file meeting its hull, and is empty exactly if nothing meets the range |
| PickInputs.PickLevelForMemTableOutput | LSM-EBF/db/version_set.cc:523-549 | a flush sinks level by level as long as it meets nothing on the next level and not too much on the one after, and stops at the first level where it may not; on the way it meets no file |
| Compactions.Compaction.IsBaseLevelForKey | LSM-EBF/db/version_set.cc:1703-1722 | the moving level pointers agree with a full scan of the deeper levels on keys that never decrease |
| Compactions.Compaction.DoCompactionWork | LSM-EBF/db/db_impl.cc:1013-1173 | an input entry is written exactly if no input entry visible at the smallest snapshot hides it and it is not a marker there with nothing deeper of its key; what is written keeps its order, and outputs end where the size or the next level calls for it and nowhere else |
| Compactions.DropsExplained | LSM-EBF/db/db_impl.cc:1081-1095 | every dropped entry is hidden by a visible newer input, or is a marker with nothing older left of its key |
| Compactions.JustifiedDropsKeepReads | LSM-EBF/db/db_impl.cc:1081-1095 | dropping such entries changes no read of any key at any snapshot that may still be taken |
| Compactions.OneSurvivorPerKey | LSM-EBF/db/db_impl.cc:1081-1095 | without snapshots at most one entry of a user key survives a compaction |
| VersionLookup.TableGetFindsNewest | LSM-EBF/db/memtable.cc:108-143 | the first entry at or after the lookup key is the newest visible entry of the key |
| VersionLookup.SearchSortedLevel | LSM-EBF/db/version_set.cc:333-447 | in a sorted level only the file found by binary search can hold the answer |
| VersionLookup.Get | LSM-EBF/db/version_set.cc:333-447 | on a valid version the search stops at the first file, newest level-0 file first, that sees the key |
| VersionLookup.FirstHitIsNewest | LSM-EBF/db/version_set.cc:333-447 | where shallower data is newer, the first hit is at least as new as everything stored |
| LsmProof.FlushMissesOutputs | LSM-EBF/db/db_impl.cc:548-592 | a flush during a compaction without gaps never meets an output of it |
| LsmProof.FlushKeeps | LSM-EBF/db/db_impl.cc:594-625 | a flush keeps the whole invariant, with a compaction running or not |
| LsmCompact.BeginKeeps | LSM-EBF/db/db_impl.cc:1013-1053 | starting a compaction from a safe pick keeps the invariant, including that whatever it will drop may be forgotten |
| LsmCompact.InstallKeeps | LSM-EBF/db/db_impl.cc:992-1011 | installing a compaction keeps levels sorted, shallower data newer, and every read that may still be made |
| LsmRuns.RunKeeps | LSM-EBF/db/db_impl.cc:746-834 | the invariant holds in every state of every run whose compactions start from safe inputs (clean boundaries and no room for a flush between the outputs) |
| LsmRuns.Get | LSM-EBF/db/db_impl.cc:1236-1278 | answers from the first of memtable, immutable memtable and version that sees the key |
| LsmRuns.GetIsModel | LSM-EBF/db/db_impl.cc:1236-1278 | in every such run, a Get at the sequence number of any earlier state that is not older than the oldest snapshot returns what the plain map held then |
| LsmNoSnapshots.QuietRunsAreSafe | LSM-EBF/db/version_set.cc:1421-1542 | without snapshots, inputs that leave a flush no room between the outputs are always safe: boundaries are clean by themselves |
| LsmNoSnapshots.GetIsLastWrite | LSM-EBF/db/db_impl.cc:1236-1278 | in every run without snapshots whose compactions leave a flush no room between their outputs, as automatic picks do, Get returns the last write or deletion, levels stay disjoint in user keys, and shallower data stays newer |
| LsmLimits.SnapshotBoundaryCounterexample | LSM-EBF/db/version_set.cc:1476-1542 | a run with one snapshot whose last Get returns an overwritten value |
| LsmLimits.CompactionSafeIffClean | LSM-EBF/db/version_set.cc:1476-1542 | a compaction keeps shallower data newer and lets nothing resurface exactly when no file left at its level is older than an input and no dropped marker hides an entry left at the next level |
| LsmHoles.BegunIsRunning | LSM-EBF/db/version_set.cc:1632-1665 | every compaction begun on a valid version, manual or not, has sorted outputs made of its inputs and apart from the files that stay |
| LsmHoles.SortedIffApart | LSM-EBF/db/db_impl.cc:992-1011 | after one flush and the install the output level is sorted exactly when the flushed file lies inside no output |
| LsmHoles.FlushBreaksIffHole | LSM-EBF/db/db_impl.cc:1042-1053 | with nothing else in memory, some write, flushed during the compaction, leaves the output level unsorted exactly when a flush can reach that level and the range of an output has a key no file covers |
| LsmHoles.ManualCompactionLosesWrite | LSM-EBF/db/version_set.cc:1632-1665 | a run from the empty store, with one compaction of two files with a gap between them, after which Get does not find the key written last |
| Coding.FixedAreLittleEndian | LSM-EBF/util/coding.h:58-84 | 4 and 8 bytes are read as the number they stand for, lowest byte first |
| Coding.FixedWriteLittleEndian | LSM-EBF/util/coding.cc:9-34 | numbers are written as bytes that stand for them, lowest byte first |
| Coding.GetVarint | LSM-EBF/util/coding.cc:112-129 | the shifting loop reads the value the digits stand for, with the bits beyond the type cut off |
| Coding.EncodeVarint | LSM-EBF/util/coding.cc:81-90 | the loop writes the varint of the number, which VarintIs describes |
| Coding.VarintIs | LSM-EBF/util/coding.cc:81-90 | a number is written in groups of seven bits, lowest first, all but the last byte with the top bit set, and in no more bytes than needed |
| Coding.VarintPrefixIs | LSM-EBF/util/coding.cc:112-156 | on any bytes, what is read is such a group sequence at the front of the input, within the limit |
| Coding.VarintIsFound | LSM-EBF/util/coding.cc:112-156 | if one stands there, something is read |
| Coding.Varint64RoundTrip | LSM-EBF/util/coding.cc:81-90 | an encoded 64-bit number is read back, and the rest of the input is left |
| Coding.SliceRoundTrip | LSM-EBF/util/coding.cc:172-192 | a length-prefixed slice is read back, and the rest of the input is left |
| Keys.KeyParts | LSM-EBF/db/dbformat.cc:12-21 | an internal key splits into its user key, its sequence number and its type |
| Log.UnmaskMask | LSM-EBF/util/crc32c.h:31-40 | unmasking undoes masking for every checksum |
| LogScan.MaskValue | LSM-EBF/util/crc32c.h:31-40 | masking rotates right by 15 bits and adds the constant, in 32-bit arithmetic |
| Log.Writer.AddRecord | LSM-EBF/db/log_writer.cc:36-109 | a record of any length, also zero, is appended as its fragments, block by block |
| LogScan.WriterLaysOut | LSM-EBF/db/log_writer.cc:36-109 | the fragments stand intact one behind the other with types 1, or 2, 3 and 4, their payloads make up the record, each but the last fills its block, and fewer than 7 bytes at the end of a block are zero |
| LogReader.Reader.ReadPhysicalRecord | LSM-EBF/db/log_reader.cc:199-281 | refines reading one physical record from any byte string, with every error case and report |
| LogScan.ReadIsEvent | LSM-EBF/db/log_reader.cc:199-281 | on any file, what is read is what the bytes at the next header say: a fragment if its length fits its block and its checksum is right, otherwise bad bytes to the end of the block, reported unless they are zeros, or the end if the file stops inside the record |
| LogReader.Reader.ReadRecord | LSM-EBF/db/log_reader.cc:60-182 | refines reassembling one logical record, with every error case and report |
| LogTorn.ReadFile | LSM-EBF/db/db_impl.cc:473-497 | the read loop returns all records and reports of the file |
| LogScan.ReadAllExact | LSM-EBF/db/log_reader.cc:60-281 | for every file, the records read are exactly those that end in a full fragment, or in a last one behind a first and middles, in order; and there is one report for each reported event and one for each fragment that is out of place |
| LogScan.ScanIsIntact | LSM-EBF/db/log_reader.cc:199-281 | every fragment used stands in the file at rising places, inside one block, with the masked checksum of its type and payload |
| LogTorn.TornLog | LSM-EBF/db/log_reader.cc:60-182 | every byte prefix of every log reads back as exactly the records lying wholly inside it, with no corruption reported |
| LogScan.UnknownType | LSM-EBF/db/log_reader.cc:152-177 | for every unknown type and payload: a record behind the fragment is read exactly if the type is not 5, and the fragment is reported exactly if it is neither 5 nor 6 |
| WriteBatches.WriteBatch.Append | LSM-EBF/db/write_batch.cc:145-149 | appending a batch adds its operations and its count |
| WriteBatches.Iterate | LSM-EBF/db/write_batch.cc:46-84 | the loop yields the operations of the representation and says whether it is well formed: long enough, readable to the end, and with as many operations as it counts |
| WriteBatches.UpdateTags | LSM-EBF/db/write_batch.cc:56-76 | tag 1 and two slices are read as a Put, tag 0 and one slice as a Delete, whatever follows |
| WriteBatches.BadUpdate | LSM-EBF/db/write_batch.cc:56-76 | any other tag, or a slice that cannot be read, ends the reading as malformed |
| WriteBatches.BatchLayout | LSM-EBF/db/write_batch.cc:86-117 | a batch is its first number in 8 bytes, its count in 4, and its operations under their tags |
| WriteBatches.DecodeEncode | LSM-EBF/db/write_batch.cc:46-149 | a built batch yields its first number, its operations in order, and is well formed |
| Writers.BuildBatchGroup | LSM-EBF/db/db_impl.cc:1477-1522 | the group ends at the first sync write behind a non-sync leader or the first batch that would take it over 1 MB, or 128 KB more than a small first batch, and nowhere else, and the updates are those of its batches in order |
| Writers.ExactlyOnceInOrder | LSM-EBF/db/db_impl.cc:1396-1473 | in every interleaving writers finish in arrival order, and the accepted batches make up the settled part of the log, update for update, once each |
| Writers.NumbersNeverReused | LSM-EBF/db/db_impl.cc:1396-1473 | in every interleaving all sequence numbers of a later record are above those of an earlier one |
| Writers.SyncWritesAreDurable | LSM-EBF/db/db_impl.cc:1396-1473 | in every interleaving an accepted sync write is in a record that was synced |
| Writers.ReadersSeeWholeBatches | LSM-EBF/db/db_impl.cc:1396-1473 | in every interleaving a reader at the published number sees whole records and nothing of the one being inserted |
| Recovery.RecoverLogFile | LSM-EBF/db/db_impl.cc:473-497 | the recovery loop refines rounds of reading a record and replaying it, with every way to stop |
| Recovery.RecoverAnyFile | LSM-EBF/db/db_impl.cc:425-497 | for every file: with paranoid checks off recovery never fails and restores all that can be read of every record, with its numbers; with them on it does the same, and fails exactly if the reader complains or some record is not a whole batch |
| Recovery.RecordDecodes | LSM-EBF/db/db_impl.cc:473-497 | the bytes a writer logs for a record are read back as that record |
| Recovery.CrashRestoresWholeBatches | LSM-EBF/db/db_impl.cc:425-546 | from any byte prefix of the log file recovery restores, with their numbers, exactly the batches wholly inside, and reports nothing |
| Recovery.RestartRestoresMemtable | LSM-EBF/db/db_impl.cc:425-546 | in every run at rest without a failed sync, recovery from the logged bytes gives back the memtable and no number above the published one |
| Recovery.RestartAfterFailedAppend | LSM-EBF/db/db_impl.cc:425-546 | in every run, right after an append failed and left any part of its record in the file, recovery gives back the memtable, and the failed record exactly if all of it is there |
| VersionEdits.EditRoundTrip | LSM-EBF/db/version_edit.cc:41-210 | an encoded edit whose fields fit their types is decoded to itself, whatever the order of its deleted files |
| VersionEdits.EncodeTo | LSM-EBF/db/version_edit.cc:41-86 | the bytes are the fields that are set, in the source's order, each under its tag number |
| VersionEdits.DecodeFrom | LSM-EBF/db/version_edit.cc:109-210 | the loop refines field-by-field decoding on any bytes, failures included |
| VersionEdits.NumberTags | LSM-EBF/db/version_edit.cc:14-24 | tags 2, 3, 4 and 9 with a varint set the log number, next file, last sequence and previous log number, whatever else the record holds |
| VersionEdits.NameTags | LSM-EBF/db/version_edit.cc:14-24 | tag 1 with a slice sets the comparator and tag 5 with a level and a slice adds a compaction pointer |
| VersionEdits.FileTags | LSM-EBF/db/version_edit.cc:14-24 | tag 6 with a level and a number deletes a file and tag 7 with a level, number, size and two slices adds one |
| VersionEdits.OtherTagsFail | LSM-EBF/db/version_edit.cc:192-203 | any other tag and a tag cut short fail |
| VersionEdits.MissingLevelFails | LSM-EBF/db/version_edit.cc:98-107 | a level that does not exist fails |
| VersionBuilder.SaveLevel | LSM-EBF/db/version_set.cc:809-884 | merging base and added files gives the sorted list of exactly the live files |
| VersionBuilder.SortedUnique | LSM-EBF/db/version_set.cc:809-869 | a sorted file list is determined by its files |
| Manifest.Builder.Apply | LSM-EBF/db/version_set.cc:744-787 | one edit changes deleted and added files level by level as the edit says |
| Manifest.ApplyIsStep | LSM-EBF/db/version_set.cc:744-787 | applying an edit to an accumulating builder moves the live files as LogAndApply moves the version |
| Manifest.MarksAreLast | LSM-EBF/db/version_set.cc:1085-1108 | each number that Recover reads off the edits is the last that any of them sets |
| VersionSets.VersionSet.LogAndApply | LSM-EBF/db/version_set.cc:939-1023 | the next version has the files the edit says; the manifest gains the completed edit, which records the next file number and the last sequence, the first time in a new manifest behind a snapshot of the version; nothing changes if it cannot be written |
| VersionSets.WriteSnapshot | LSM-EBF/db/version_set.cc:1232-1260 | the record lists every file of every level once, with its level, and no numbers |
| VersionSets.SnapshotStands | LSM-EBF/db/version_set.cc:1232-1260 | a manifest of only a snapshot stands for the same version, and whatever edit may follow the old manifest may follow it |
| VersionSets.Recover | LSM-EBF/db/version_set.cc:1025-1155 | folding all edits into one builder gives the files and numbers after the last edit, or an error exactly if a number is missing or a comparator differs |
| ManifestFile.WriteManifest | LSM-EBF/db/version_set.cc:939-1023 | the manifest file is the log of records that decode to the edits |
| ManifestFile.ReopenTorn | LSM-EBF/db/version_set.cc:1025-1155 | from any byte prefix of the manifest the version and numbers after the edits wholly inside are recovered, or an error exactly if a number is in none of them |
| ManifestFile.ReopenFile | LSM-EBF/db/version_set.cc:1025-1155 | from the bytes of the manifest come back the current version, the log numbers, the last sequence that was recorded and the next file number after the one that was |
| Merger.MergingIterator.FindSmallest | LSM-EBF/table/merger.cc:155-168 | the smallest child entry becomes the current one |
| Merger.MergingIterator.Next | LSM-EBF/table/merger.cc:59-83 | moves to the least entry after the current one in the union of the children, also after a change of direction |
| Merger.MergingIterator.Prev | LSM-EBF/table/merger.cc:85-112 | moves to the greatest entry before the current one in the union of the children, also after a change of direction |
| DbIterator.DBIter.Next | LSM-EBF/db/db_iter.cc:146-203 | moves to the next user key of the map of newest visible non-deleted values |
| DbIterator.DBIter.Prev | LSM-EBF/db/db_iter.cc:205-272 | moves to the previous user key of that map |
| DbIterator.DBIter.Seek | LSM-EBF/db/db_iter.cc:274-286 | moves to the first user key of that map at or after the target |
| DbIterator.ShownIsRead | LSM-EBF/db/db_iter.cc:173-203 | what the iterator shows is what Get answers at its sequence number |
| DbIterator.Walk | LSM-EBF/db/db_iter.cc:146-304 | any mix of calls, with changes of direction, shows what a walk of a cursor over that map shows |
| DbIterator.WalkUnique | LSM-EBF/db/db_iter.cc:146-304 | such a walk is determined by the map and the calls |
| SkipList.FindGreaterOrEqual | LSM-EBF/db/skiplist.h:261-281 | finds the first key from the target on and the predecessor on every level |
| SkipList.InsertLands | LSM-EBF/db/skiplist.h:336-370 | after the last link the key is on exactly the levels below its height, and every level is an ordered sublist of the one below |
| SkipList.SeekMissesNothing | LSM-EBF/db/skiplist.h:261-281 | in every interleaving with inserts a seek ends at or after its target and misses no key that was in the list when it started |
| SkipList.ReadsAreAtomic | LSM-EBF/db/skiplist.h:261-322 | in every interleaving a finished search gave the right answer for the list at its last read, which held all keys from when it started |
| SkipList.NoWildRead | LSM-EBF/db/skiplist.h:336-370 | in every interleaving no reader follows a link that was never stored, and the writer is never stuck |
| BlockBuilder.FastIsSlow | LSM-EBF/table/block.cc:53-74 | the fast path of entry decoding reads what three varints say |
| BlockBuilder.EncodeBlock | LSM-EBF/table/block_builder.cc:63-110 | for any pairs that fit a block and any restart interval: every entry is its three lengths, the rest of its key and its value, it shares nothing at every interval-th entry and as much as it can elsewhere, and the restart offsets and their number follow; of bounded size |
| BlockBuilder.ReadBack | LSM-EBF/table/block_builder.cc:63-110 | building a block from any pairs that fit it and walking it gives the pairs back |
| BlockIter.Iter.Seek | LSM-EBF/table/block.cc:165-203 | binary search over restart points and a scan end at the first key not below the target |
| BlockIter.Iter.Prev | LSM-EBF/table/block.cc:144-163 | goes back exactly one entry, by way of the last restart point before it |
| BlockIter.Iter.SeekToLast | LSM-EBF/table/block.cc:257-263 | ends at the last entry |
| Comparator.FindShortestSeparator | LSM-EBF/util/comparator.cc:29-52 | the key cut behind its first difference from the limit, with that byte raised by one if it stays below the limit's, and otherwise the key itself |
| Comparator.FindShortSuccessorBeginWith | LSM-EBF/util/comparator.cc:67-80 | the key cut behind its first byte from the position on that is not 0xff, with that byte raised by one, and otherwise the key itself |
| Comparator.InternalSeparator | LSM-EBF/db/dbformat.cc:68-85 | exactly when the user key gets shorter the separator is that key with the largest tag, otherwise the key; it is below the limit and no longer than the key, and is the key itself or has a user key strictly between those of key and limit |
| Comparator.NotMistaken | LSM-EBF/db/dbformat.cc:68-85 | a key between a block's last key and its separator never has the user key that starts the next block |
| TableFile.BuildTable | LSM-EBF/table/table_builder.cc:92-295 | sorted entries become a file in which every block, the index and every filter stand at their handles, index keys separate the blocks, and the filter offsets are read back, for files of any size whose blocks, index and filters fit 32 bits each |
| TableLookup.LinearUnique | LSM-EBF/db/version_set.cc:269-282 | the linear search has one answer, up to entries of unknown type under another user key |
| TableLookup.LinearIsNewest | LSM-EBF/db/version_set.cc:269-282 | its answer is the value of the entry with the largest sequence number at or below the one asked for, Deleted if that is a marker, Absent if there is none, and Corrupt only on an unknown type |
| TableLookup.BlockDecides | LSM-EBF/table/table.cc:879-933 | the answer in the block the index points at is the answer of the linear search through the table |
| TableGet.InternalGet | LSM-EBF/table/table.cc:879-933 | from the bytes of a table, with any filters loaded, the value of the newest entry of the user key that is not newer than asked for, Deleted or Absent; the block that the index names is read exactly if no filter that is loaded for its region denies the key or there was no reader yet |
| TableGet.BuildAndGet | LSM-EBF/table/table.cc:879-933 | for every sorted entry list, block cuts, restart interval, filters and history of loads and removals, building the file and looking a key up answers with the newest entry that is not newer than asked for |
| Bloom.CreateFilter | LSM-EBF/util/multi_bloom.cc:74-100 | appends the least number of bytes that hold 64 bits and bitsPerKey for each key, in which bit q is set exactly if the hash of some key plus some j < k times that hash rotated right by 17 falls on it, and then the byte k |
| Bloom.KeyMayMatch | LSM-EBF/util/multi_bloom.cc:110-134 | true exactly if the filter has two bytes or more and asks for more than 30 probes or all its probes fall on set bits |
| Bloom.NoFalseNegative | LSM-EBF/util/multi_bloom.cc:74-134 | every key of a filter passes its test |
| Bloom.FilterBits | LSM-EBF/util/multi_bloom.cc:74-100 | a bit is set exactly if it is a probe of some key |
| FilterBlock.FilterBlockBuilder.StartBlock | LSM-EBF/table/filter_block.cc:33-40 | filters of earlier 64 KB ranges are closed and every block's keys stay in its range |
| FilterBlock.FilterBlockBuilder.Finish | LSM-EBF/table/filter_block.cc:48-67 | every policy's block holds the filters of all ranges and their offsets, and every block's keys are in its range |
| FilterBlock.StoredFormat | LSM-EBF/table/filter_block.cc:48-67 | behind the filters stand where each begins and where the last one ends, in 4 bytes each, and the byte 16 |
| FilterMeta.WriteMeta | LSM-EBF/table/table_builder.cc:234-245 | one entry for each filter that no filter of the same size follows, in order, with the offsets of that filter |
| FilterMeta.MetaRoundTrip | LSM-EBF/table/table.cc:179-290 | offsets written once per run of equal filter sizes are read back for every filter |
| TableFilters.FilterBlockReader.KeyMayMatch | LSM-EBF/table/filter_block.cc:281-309 | says exactly whether all loaded filters of the block's region admit the key, and exactly when it reads past the regions or the offsets; blocks further out are potential matches |
| TableFilters.FilterBlockReader.RemoveFilters | LSM-EBF/table/filter_block.cc:233-268 | drops the last n filters of a region, or none if it has fewer, and returns their bits |
| ElasticTable.Table.AddFilters | LSM-EBF/table/table.cc:587-611 | appends what the reads that succeed deliver, and charges for it |
| ElasticTable.Table.AddedAt | LSM-EBF/table/table.cc:587-611 | the i-th filter appended is the region slice at the i-th handle that could be read, up to the last handle |
| ElasticTable.Table.AddedExactIff | LSM-EBF/table/table.cc:587-611 | a prefix of the table's filters is kept exactly when every handle read holds the bytes of the filter it is taken for |
| ElasticTable.Table.AddedExact | LSM-EBF/table/table.cc:486-611 | every filter comes from its own handle exactly when no tried read succeeds after one that failed, and a prefix is kept then |
| ElasticTable.Table.ExactIffNoGap | LSM-EBF/table/table.cc:587-611 | if no later block repeats an earlier filter's bytes, a prefix is kept exactly when no tried read succeeds after one that failed |
| ElasticTable.Table.Churn | LSM-EBF/table/table.cc:486-661 | any interleaving of single additions and removals, with any reads failing, leaves every region an exact prefix of the table's filters |
| ElasticTable.Table.RemoveFilters | LSM-EBF/table/table.cc:613-661 | what is removed and charged, exactly when the two lists stay equal, and exactly when the loop runs over the end of the list |
| ElasticSafety.StoredKeyAdmitted | LSM-EBF/table/filter_block.cc:281-309 | however many filters are loaded, every key of a data block is admitted at the block's offset |
| ElasticSafety.MispairedMatch | LSM-EBF/util/multi_bloom.cc:110-134 | a key passes another policy's filter exactly if each of its probes is a probe of that filter's keys |
| ElasticSafety.GapHidesKey | LSM-EBF/table/table.cc:587-611 | for every hash that takes the empty key to the seeds of the first two filters, a table that skips the block of that key, which it stores, after one failed and one successful read |
| ElasticSafety.RemovalDrifts | LSM-EBF/table/table.cc:613-661 | a table and its reader that no longer agree, after two filters were asked back from a region with one |
| ElasticSafety.GuardReadsPast | LSM-EBF/table/filter_block.cc:281-309 | an offset right after the filters that passes the guard although its region does not exist |
| FilterBarrier.EachChildOncePerCall | LSM-EBF/util/multi_bloom.cc:160-181 | in every interleaving each child filter is made once per call, and no worker runs ahead |
| FilterBarrier.CallCanProceed | LSM-EBF/util/multi_bloom.cc:234-254 | until a call returns, the caller or a worker can move |
| FilterBarrier.CallReturns | LSM-EBF/util/multi_bloom.cc:234-254 | in every interleaving a call of n children is in progress for exactly 5n + 3 more steps, whoever takes them, and has then returned |
| HandleTables.HandleTable.Insert | LSM-EBF/util/cache.cc:80-94 | replaces in place or adds, and refines a map update, also when the table grows |
| HandleTables.HandleTable.Remove | LSM-EBF/util/cache.cc:96-104 | refines a map removal |
| HandleTables.HandleTable.Resize | LSM-EBF/util/cache.cc:125-149 | rehashing keeps the map |
| HandleTables.MaskIsRemainder | LSM-EBF/util/cache.cc:116-123 | masking the hash with a power of two less one takes the remainder |
| Handles.FreedIffUnreferenced | LSM-EBF/util/cache.cc:229-240 | a handle has been freed exactly when neither the cache nor a client refers to it |
| LruCaches.LRUCache.Insert | LSM-EBF/util/cache.cc:269-303 | replaces what the key had, evicts the oldest unpinned entries and no more than needed, keeps all cache invariants, and leaves the usage within the capacity or every cached entry pinned |
| LruCaches.LRUCache.Shrink | LSM-EBF/util/cache.cc:291-300 | evicts the oldest unpinned entries, and no more than needed |
| LruCaches.LRUCache.Lookup | LSM-EBF/util/cache.cc:255-262 | finds what the map holds, pins it and takes it off the list of evictable entries |
| LruCaches.LRUCache.Release | LSM-EBF/util/cache.cc:264-267 | an entry that only the cache still refers to goes to the end of the evictable ones, behind all others; an uncached one is freed with its last reference |
| LruCaches.EvictedGood | LSM-EBF/util/cache.cc:307-316 | eviction takes the entry off list, table and usage, and frees it once |
| QueueState.ExactlyOneList | LSM-EBF/util/multi_queue.cc:764-867 | every cached handle is on exactly one list: in use with two or more references, otherwise the queue it belongs to |
| QueueState.OnQueue | LSM-EBF/util/multi_queue.cc:1064-1079 | a handle on a queue belongs to it and waits there, and the queue's recorded length is its length |
| MultiQueues.MultiQueue.ShrinkExpired | LSM-EBF/util/multi_queue.cc:958-1002 | terminates in the state that demoting expired handles from the top queue down leads to; only expired handles fall, usage and charges fall by the same amount, and it says whether the capacity was reached |
| MultiQueues.MultiQueue.ShrinkForced | LSM-EBF/util/multi_queue.cc:1003-1048 | drains the longest queue until enough is free, and hangs exactly if that queue cannot free enough |
| MultiQueues.MultiQueue.Force | LSM-EBF/util/multi_queue.cc:1003-1048 | hangs exactly if, before the call, the longest queue cannot free what is over the capacity |
| MultiQueues.MultiQueue.MayBeShrinkUsage | LSM-EBF/util/multi_queue.cc:935-951 | if it returns, expired handles have fallen and then, if that was not enough, the oldest of the longest queue, and the usage is within the capacity or queues 1 and up are empty; it does not return exactly if, with the expired handles of the state before the call demoted, the longest queue cannot free enough |
| MultiQueues.MultiQueue.Removable | LSM-EBF/util/multi_queue.cc:690-711 | says exactly whether some run of expired handles at the head of the queue would free as much as is needed |
| MultiQueues.MultiQueue.FallFrom | LSM-EBF/util/multi_queue.cc:717-735 | the oldest handles of the queue fall, just as many as free what is needed |
| MultiQueues.MultiQueue.RecomputeExp | LSM-EBF/util/multi_queue.cc:665-762 | the handle rises one queue exactly if the cache has been full, there is a queue above, the expectation improves, and there is room or expired handles of the chosen queue can make it; nothing else changes but those that fall, and no division is by zero |
| MultiQueues.MultiQueue.Lookup | LSM-EBF/util/multi_queue.cc:764-886 | keeps all invariants, finds what the map holds and pins it; its expiry becomes now plus the life time, and it rises exactly if the access counts, it has not expired and RecomputeExp lets it |
| MultiQueues.MultiQueue.Release | LSM-EBF/util/multi_queue.cc:793-850 | drops one reference; with the last one of a client the charge is brought in line, the cache shrinks and the handle becomes the newest of its queue; keeps all invariants if it returns, and says on the state before the call exactly when it hangs |
| MultiQueues.MultiQueue.Insert | LSM-EBF/util/multi_queue.cc:1203-1295 | the new handle is the newest of its queue and found under its key, then the cache shrinks; keeps all invariants if it returns, and says on the state with the new handle in place exactly when it hangs |
| MultiQueues.MultiQueue.Erase | LSM-EBF/util/multi_queue.cc:1297-1326 | keeps all invariants and removes the key |
| MultiQueues.MultiQueue.AllocFilterNums | LSM-EBF/util/multi_queue.cc:1064-1079 | the first waiting queue whose average frequency is higher, or one beyond which no queue waits; no division is by zero |
| MultiQueues.ForcedShrinkHangs | LSM-EBF/util/multi_queue.cc:1003-1048 | four insertions into a new cache, the last of which does not return |

## Left out

- BlockIter.Iter.ParseNextKey: blocks that BlockBuilder did not write; CorruptionError is never reached on the blocks that are modelled.
- BlockBuilder.EncodeBlock: blocks of 4 GB and more, whose 32-bit offsets would wrap around, are not modelled.
- TableFile.BuildTable: assumes that each block, the index and each filter stay below 4 GB, the reach of their 32-bit offsets, by bounds on the entries; the metaindex and footer are passed on as values, and block trailers, of which only the size is fixed, are not checked on reading.
- VersionSets.VersionSet.LogAndApply: reusing the manifest of an earlier session, and bytes that a failed write leaves in the manifest, are not modelled.
- LogReader.Reader.ReadRecord: initial offsets other than 0 are not modelled.
- Recovery.RecoverLogFile: flushing the memtable in the middle of a recovery is not modelled.
- Recovery.RestartRestoresMemtable: takes a failed append to leave no bytes if more is appended to the same log afterwards; the log writer of the source counts the bytes of the failed record in its block offset all the same.
- MultiQueues.MultiQueue.Release: each public call is one step. In the source Unref unlocks the mutex itself, so that Erase and an Insert that replaces a key unlock it twice and such an Insert shrinks without it.
- MultiQueues.MultiQueue.Insert: the links between the handles of neighbouring regions, and an Insert whose predecessor is missing, are not modelled.
- MultiQueues.MultiQueue.RecomputeExp: which queue gives way and whether it pays off are parameters, since they rest on floating-point sums; nothing is said about sum_freqs_, or about usage_ being the sum of the charges.
- HandleTables.HandleTable.Insert: chains are sequences of slots; the pointers that link them are not modelled.
- LruCaches.LRUCache.Insert: the two lists are sequences, not linked nodes; sharding is not modelled.
- SkipList.ReadsAreAtomic: one writer, as the source demands; memory orders weaker than the acquire and release pairs are not modelled.
- User keys are integers in the step system of the store and byte strings elsewhere; any strict total order would do.
- The encoding of memtable entries, two-level iterators and file iterators would only add easier members.
- Compaction scores, seek counts, file sizes and grandparent overlap: any choice the code could make from them is allowed.
- Files, directories, direct I/O, mmap, fsync, compression, the checksum and hash bodies.
- RecomputeExpTable, SlowShrinking, ForceShrinking, BackgroudShrinkUsage, KeepFreCount, region key ranges, statistics and properties.
- DeleteLevel0File, which discards data on purpose: the option is taken to be off.
- Repair, dump and benchmark tools, the C binding, the thread pool, the YCSB driver and the value-log variant.

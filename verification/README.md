# A verified model of LevelDB and nanopb

The application ships two libraries whose correctness rests on invariants that no single function
shows: the LevelDB key-value store (`ios/Pods/leveldb-library`) and the nanopb protocol-buffer codec
(`ios/Pods/nanopb`). This project models both in Dafny, in the form of the C and C++ code, and proves
what they promise.

- **Reads and runs.** `Keys`, `Reads`, `Version`, `Inputs`, `DropRule`, `Compaction`, `OutputCuts`, `CompactionRun`,
  `CompactionSafety`, `Flush`, `Engine`, `DBImpl`, `SplitKeys`. A database is a set of entries spread
  over memtables and levels. A read is answered by the newest entry visible at its sequence number.
  `Engine` is the state machine of writes, memtable switches, flushes, trivial moves, compactions and
  snapshots; `DBImpl` has the methods of the code, each proved to take such a step.
- **Versions and the manifest.** `Builder`, `Manifest`, `VersionEdit`, `ManifestRecords`,
  `EngineRecovery`, `ManifestFile`. Edits applied one by one, replayed through one builder, or read back
  from the manifest file give the same version; a file that lost its end gives an earlier one of the run.
- **Iterators.** `Cursors`, `MergingIterator`, `TwoLevelIterator`, `DBIter`, `DBScan`. Each is a class
  with the mutable state of the code and is proved against the plain sequence it runs over; `DBIter` and
  the compaction loop run over the merging iterator.
- **Writers and readers at once.** `WriteQueue` is the group-commit protocol as a state machine with a
  class beside it, and `CommittedWrites` shows that it refines the engine's writes; `SkipList`
  interleaves the pointer stores of an insertion with the steps of a search.
- **Files.** `LogFormat`, `LogReader`, `LogRoundTrip`, `BlockFormat`, `BlockIter`, `Table`,
  `FilterBlock`, `Bloom`, `Separators`, and below them `Coding`, `Varint`, `Crc32c` and `Bits`.
  `LogSoundness` is about reading any bytes as a log; `Crc32cRemainder` and `Crc32cAnswer` say that the
  table-driven loop is division of polynomials.
- **Cache.** `HandleTable`, `Rings`, `LRUCache`: the hash table and the two linked rings, with
  reference counts tied to the clients that hold an entry.
- **nanopb.** `NanopbFields`, `NanopbEncode`, `NanopbDecode`, `NanopbRoundTrip`: both codecs over
  descriptors, sizing passes, substreams, the cyclic field iterator and the bitmap of required fields.
  `NanopbRefusals` and `NanopbLimits` are about bytes no encoder wrote: what is refused, and what any
  accepted message satisfies.

`dafny verify dfyconfig.toml` checks everything.

## Findings

**A compaction can bring back a deleted value.** `SetupOtherInputs`
(`ios/Pods/leveldb-library/db/version_set.cc:1380-1439`) adds boundary files to the inputs of the level
but not to those of level+1. If one user key is spread over two level+1 files, the upper file can be an
input and the lower one stay behind. The drop rule then removes a deletion at its base level
(`ios/Pods/leveldb-library/db/db_impl.cc:959-970`, `IsBaseLevelForKey` looks only below level+1) and the
value in the file left behind is visible again.
`SplitKeys.CompactionCanResurrect` builds the input: thirteen steps from the empty database, with a
snapshot held while the key is split over two output files and released before the last compaction. Key
2, deleted, reads as its old value afterwards. `Engine.CompactExact` is the exact condition, for every
compaction: reads at or after the smallest snapshot are preserved if and only if no tombstone the
compaction drops hid a value in a level+1 file outside the inputs (`CompactionSafety.UncoversNothing`).
It holds in particular whenever no level+1 file left out shares a user key with one taken in
(`CompactionSafety.ClosedBelowUncoversNothing`).

**`VersionEdit::Clear` keeps compaction pointers.** `Clear`
(`ios/Pods/leveldb-library/db/version_edit.cc:26-39`), and so `DecodeFrom` (lines 105-106), does not empty
`compact_pointers_`. Decoding into an object used before leaves its old pointers in front of the new
ones. `VersionEdits.RoundTripExact`: the round trip is exact if and only if the object held no
compaction pointers.

**The 32-bit varint reader takes some other numbers for sign extensions.** `pb_decode_varint32_eof`
(`ios/Pods/nanopb/pb_decode.c:219-243`) tolerates the bytes that extend the sign of a negative number, but
drops three bits of the fifth byte and takes every later group of seven zeros. So the 64-bit number
0xfffffffeffffffff is read as 0xffffffff (`NanopbLimits.OtherNumberRead`). `NanopbLimits.Varint32Exact` is
the exact condition for all 64-bit numbers.

## Model

| member | source | states |
|---|---|---|
| `Keys.Compare` | ios/Pods/leveldb-library/db/dbformat.cc:47-63 | The internal key order as one integer comparison: user keys ascending, then sequence number and kind descending; the result is zero only for equal keys. |
| `Reads.AnswerUnique` | ios/Pods/leveldb-library/db/memtable.cc:101-135 | Among entries no two of which share a user key and a sequence number, a read of a user key at a sequence number has exactly one answer. |
| `Versions.FindFile` | ios/Pods/leveldb-library/db/version_set.cc:87-105 | The binary search returns the first file whose largest key is not before the target. |
| `Versions.SortOrders` | ios/Pods/leveldb-library/db/version_set.cc:277-302 | Sorting the level-0 candidates newest first keeps exactly the same files. |
| `Versions.SearchLevel0` | ios/Pods/leveldb-library/db/version_set.cc:324-400 | Searching the overlapping level-0 files newest first finds the newest visible entry of the whole level, or shows there is none. |
| `Versions.FirstLevelDecides` | ios/Pods/leveldb-library/db/version_set.cc:281-322 | The first level with a visible entry has the newest one of the whole version. |
| `Versions.Get` | ios/Pods/leveldb-library/db/version_set.cc:324-400 | A lookup through the levels answers as the newest visible entry among all entries of the version does: its value, or nothing for a deletion or no entry. |
| `Inputs.SomeFileOverlapsRange` | ios/Pods/leveldb-library/db/version_set.cc:121-156 | The answer is yes exactly if some file overlaps the user-key range, by linear scan or by binary search on disjoint files. |
| `Inputs.GetOverlappingInputs` | ios/Pods/leveldb-library/db/version_set.cc:498-538 | Below level 0 the files overlapping the range, in order. On level 0, where the scan restarts with a wider range, the files overlapping the least range that is closed under overlap and contains the one asked for. |
| `Inputs.InRangeUnique` | ios/Pods/leveldb-library/db/version_set.cc:498-538 | A range query has one answer: the least range closed under overlap is unique, so the restarts on level 0 have no influence on it. |
| `Inputs.FindLargestKey` | ios/Pods/leveldb-library/db/version_set.cc:1303-1317 | The largest key among the chosen files; none exactly if there is no file. |
| `Inputs.FindSmallestBoundaryFile` | ios/Pods/leveldb-library/db/version_set.cc:1321-1339 | The first file that starts after the key with the same user key; none exactly if there is no such file. |
| `Inputs.AddBoundaryInputs` | ios/Pods/leveldb-library/db/version_set.cc:1355-1378 | The loop adds the file that continues the last user key of those chosen so far, one after the other, until no file of the level does; on disjoint files a contiguous choice stays contiguous. |
| `Inputs.BoundaryStep` | ios/Pods/leveldb-library/db/version_set.cc:1368-1377 | One turn of that loop keeps contiguity, distinct numbers and disjointness, and leaves fewer files starting after the largest key. |
| `Inputs.ClosureUnique` | ios/Pods/leveldb-library/db/version_set.cc:1355-1378 | The files AddBoundaryInputs ends with are determined by the chosen ones, if no two files start at the same key. |
| `DropRule.DroppingKeepsAnswer` | ios/Pods/leveldb-library/db/db_impl.cc:953-986 | If no dropped tombstone hid a value outside the inputs, every read at or after the smallest snapshot has the same answer over what the compaction keeps. |
| `DropRule.ResurrectionChangesAnswer` | ios/Pods/leveldb-library/db/db_impl.cc:953-986 | If a dropped tombstone hid a value left behind, a read at the smallest snapshot changes from nothing to that value. |
| `DropRule.DropRuleExactBelow` | ios/Pods/leveldb-library/db/db_impl.cc:953-986 | Both directions together, with any newer entries above: the drop rule preserves all reads at or after the smallest snapshot if and only if it resurrects nothing. |
| `Compactions.GetRange` | ios/Pods/leveldb-library/db/version_set.cc:1182-1201 | The range returned is spanned by the files: both ends are reached and no file is outside. |
| `Compactions.Compaction.SetupOtherInputs` | ios/Pods/leveldb-library/db/version_set.cc:1380-1439 | From a picked file set: the level+1 inputs are exactly the files that meet the range of the level inputs; these are the boundary closure of the picked files or, exactly if the files meeting the whole range are more once closed, stay under the size limit and meet as many level+1 files, all of those. Nothing left on the level is older than an input with the same user key. The grandparents are the files two levels down that meet the range of all inputs. |
| `Compactions.Compaction.Expand` | ios/Pods/leveldb-library/db/version_set.cc:1396-1424 | The wider choice is taken if and only if it has more files, stays below the limit and meets as many level+1 files as before; it then meets exactly those. |
| `Compactions.SameParents` | ios/Pods/leveldb-library/db/version_set.cc:1411-1420 | A wider choice that meets as many level+1 files as a narrower one meets the same files. |
| `Compactions.SetupUnique` | ios/Pods/leveldb-library/db/version_set.cc:1380-1439 | The picked files and the size limit determine both input sets of a compaction. |
| `Compactions.Compaction.IsBaseLevelForKey` | ios/Pods/leveldb-library/db/version_set.cc:1510-1529 | With pointers that only move forward, over keys asked in ascending order, the answer is yes exactly if no file below level+1 covers the user key. |
| `Compactions.Compaction.ShouldStopBefore` | ios/Pods/leveldb-library/db/version_set.cc:1531-1553 | Over keys asked in ascending order, it says stop if and only if the grandparents that end before the key, and did not end before the first key or the last stop, have more than the limit of bytes. |
| `CompactionRun.MakeInputIterator` | ios/Pods/leveldb-library/db/version_set.cc:1214-1245 | The merging iterator over level-0 files and concatenated levels merges exactly the entries of the inputs. |
| `CompactionRun.DropStep` | ios/Pods/leveldb-library/db/db_impl.cc:938-986 | With the remembered last key and sequence, the decision for one entry is the drop rule stated over the whole input: shadowed by a newer entry at or before the smallest snapshot, or a deletion at its base level. |
| `CompactionRun.FinishCompactionOutputFile` | ios/Pods/leveldb-library/db/db_impl.cc:820-867 | Closing an output file turns what was written since the last one into a file with a new number and the right bounds. |
| `CompactionRun.StepCuts` | ios/Pods/leveldb-library/db/db_impl.cc:921-1010 | What one entry does to the outputs keeps every file within the limit of grandparent overlap, below the size before its last entry, and the number of small files within what the grandparents passed over allow. |
| `CompactionRun.RunCompaction` | ios/Pods/leveldb-library/db/db_impl.cc:912-1015 | After the loop the outputs hold exactly the kept entries, in order, and were cut by the rules for size and grandparent overlap. |
| `CompactionRun.DoCompactionWork` | ios/Pods/leveldb-library/db/db_impl.cc:887-1046 | The output files are valid, disjoint, freshly numbered, and hold exactly the input entries that the drop rule keeps. None was big enough before its last entry or covers more than the limit of grandparent bytes, and there are only as many small ones as the grandparents have bytes for, and one more. |
| `CompactionSafety.CompactionEntries` | ios/Pods/leveldb-library/db/db_impl.cc:869-885 | Installing the results replaces the inputs by the outputs and nothing else, level by level. |
| `CompactionSafety.CompactionKeepsValid` | ios/Pods/leveldb-library/db/db_impl.cc:869-885 | The version after a compaction is valid: sorted disjoint levels, newer data above older. |
| `CompactionSafety.CompactionExact` | ios/Pods/leveldb-library/db/db_impl.cc:887-1046 | A compaction preserves every read at or after the smallest snapshot if and only if no tombstone it drops hid a value in a level+1 file left out of the inputs. |
| `CompactionSafety.ClosedBelowUncoversNothing` | ios/Pods/leveldb-library/db/version_set.cc:1380-1439 | The condition holds whenever the level+1 inputs share no user key with the level+1 files left out, which is what AddBoundaryInputs would give on that level. |
| `Flushes.PickLevelForMemTableOutput` | ios/Pods/leveldb-library/db/version_set.cc:470-495 | Level 0 if a file there overlaps the flushed range; otherwise the deepest level up to 2 reached by going down while the next level has no overlap and the one after that at most the limit of overlapping bytes. |
| `Flushes.FlushKeepsValid` | ios/Pods/leveldb-library/db/db_impl.cc:500-542 | A memtable written to such a level keeps the version valid and adds exactly its entries. |
| `Builders.Builder.Apply` | ios/Pods/leveldb-library/db/version_set.cc:629-669 | One edit adds its files to each level and its deletions to the deleted set, except numbers it adds again. |
| `Builders.Builder.SaveTo` | ios/Pods/leveldb-library/db/version_set.cc:672-715 | Merging base and added files level by level gives the model of the merge. |
| `Builders.SavedInOrder` | ios/Pods/leveldb-library/db/version_set.cc:672-715 | That merge is in file order. |
| `Builders.SavedFiles` | ios/Pods/leveldb-library/db/version_set.cc:717-730 | That merge has exactly the base and added files that are not deleted. |
| `Manifests.LogAndApply` | ios/Pods/leveldb-library/db/version_set.cc:777-860 | The new version has, on each level and in order, the old files without the deleted ones, plus the added ones. |
| `Manifests.ReplayThroughOneBuilder` | ios/Pods/leveldb-library/db/version_set.cc:862-987 | Many edits through one builder leave what applying them one by one leaves, if no number is added twice to a level. |
| `Manifests.Recover` | ios/Pods/leveldb-library/db/version_set.cc:862-987 | Recovery through one builder yields on each level, in order, the replay of all edits. |
| `Manifests.RecoverRebuilds` | ios/Pods/leveldb-library/db/version_set.cc:862-987 | A snapshot record followed by the edits of a history recovers the last version of that history. |
| `EngineRecovery.HistoryAddsOnce` | ios/Pods/leveldb-library/db/version_set.cc:1064-1092 | The edits of every run of the engine from a valid state, after the snapshot record of that state, add no file number twice to a level. |
| `EngineRecovery.RunReplays` | ios/Pods/leveldb-library/db/version_set.cc:862-987 | Replaying the logged edits of a run over its first version gives the files of its last version. |
| `EngineRecovery.RecoverRun` | ios/Pods/leveldb-library/db/version_set.cc:862-987 | Recovering from the snapshot and the logged edits of any run returns the version the run ended with. |
| `ManifestFiles.WriteManifest` | ios/Pods/leveldb-library/db/version_set.cc:777-860 | The manifest file is the log image of one record for each edit, its encoding. |
| `ManifestFiles.RecoverFile` | ios/Pods/leveldb-library/db/version_set.cc:862-987 | A manifest that lost any part of its end recovers to the version of the state up to which its whole records reach, and to nothing only without a whole snapshot record. |
| `ManifestFiles.SaveAndRecover` | ios/Pods/leveldb-library/db/version_set.cc:862-987 | For every run from a valid state: encoding, logging, keeping any number of bytes, reading, decoding and replaying gives the version of a state of the run, the last one if nothing is lost. |
| `VersionEdits.VersionEdit.EncodeTo` | ios/Pods/leveldb-library/db/version_edit.cc:41-84 | The bytes are those of the items of the edit in order: tag and fields, each number a varint. |
| `VersionEdits.VersionEdit.DecodeFrom` | ios/Pods/leveldb-library/db/version_edit.cc:105-203 | The loop over tags is the decoder over bytes, from the cleared fields, including the error for each malformed field. |
| `VersionEdits.DecodesItems` | ios/Pods/leveldb-library/db/version_edit.cc:105-203 | Decoding what was encoded puts every item back, whatever the fields were before. |
| `VersionEdits.RoundTrip` | ios/Pods/leveldb-library/db/version_edit.cc:26-39 | Decoding into an object that was used before gives the encoded edit with the old compaction pointers in front of the new ones. |
| `VersionEdits.RoundTripExact` | ios/Pods/leveldb-library/db/version_edit.cc:26-39 | The round trip is exact if and only if the object held no compaction pointers. |
| `VersionEdits.ReadEdit` | ios/Pods/leveldb-library/db/version_edit.cc:105-203 | A fresh object reads back exactly the edit a record was written from. |
| `VersionEdits.KnownScalars` | ios/Pods/leveldb-library/db/version_edit.cc:14-61 | The bytes of the scalar items, with tags 1 to 4 and 9. |
| `VersionEdits.KnownItems` | ios/Pods/leveldb-library/db/version_edit.cc:63-85 | The bytes of compaction pointers, deleted files and new files, with tags 5 to 7. |
| `ManifestRecords.RecoverFromRecords` | ios/Pods/leveldb-library/db/version_set.cc:862-987 | Recovery from the bytes of the manifest records rebuilds the last version of the history they were written from. |
| `Engine.WriteIsVisible` | ios/Pods/leveldb-library/db/db_impl.cc:1195-1266 | After a batch, a read at the new last sequence sees the last operation on each key of the batch. |
| `Engine.WriteKeepsValid` | ios/Pods/leveldb-library/db/db_impl.cc:1195-1266 | A batch keeps the invariant of the database: sorted memtable, unique sequence numbers, newer data above older, all numbers issued. |
| `Engine.NewerEntriesInvisible` | ios/Pods/leveldb-library/db/memtable.cc:101-135 | Entries with larger sequence numbers change no read at a smaller one. |
| `Engine.FlushKeepsDB` | ios/Pods/leveldb-library/db/db_impl.cc:544-575 | Flushing the immutable memtable keeps the invariant and the set of all entries. |
| `Engine.MoveKeepsDB` | ios/Pods/leveldb-library/db/db_impl.cc:727-742 | A trivial move keeps the invariant and the set of all entries. |
| `Engine.CompactKeepsValid` | ios/Pods/leveldb-library/db/db_impl.cc:869-885 | A compaction keeps the invariant of the database. |
| `Engine.CompactExact` | ios/Pods/leveldb-library/db/db_impl.cc:887-1046 | A compaction of a valid database preserves every read at or after its smallest snapshot if and only if it uncovers nothing. |
| `Engine.SmallestSnapshotIsOldest` | ios/Pods/leveldb-library/db/db_impl.cc:899-903 | The smallest snapshot of a compaction is one of those held and none is smaller; if none is held it is the last sequence number. |
| `Engine.OneOldEntryLeft` | ios/Pods/leveldb-library/db/db_impl.cc:953-986 | After a compaction each user key has at most one entry in the outputs whose sequence number every held snapshot sees, or the last sequence number if none is held. |
| `Engine.OldDeletionHasBase` | ios/Pods/leveldb-library/db/db_impl.cc:959-970 | A deletion that every held snapshot sees is written only if a file below level+1 has a range around its user key. |
| `Engine.DroppedIsOld` | ios/Pods/leveldb-library/db/db_impl.cc:953-986 | An input entry is dropped only if a newer entry of its user key in the inputs is seen by every held snapshot, or if it is such a deletion without a deeper file around its key. |
| `Engine.StepKeepsSnapshotReads` | ios/Pods/leveldb-library/db/db_impl.cc:887-1046 | No step but an uncovering compaction changes what a held snapshot reads. |
| `Engine.RunKeepsValid` | ios/Pods/leveldb-library/db/db_impl.cc:697-776 | The invariant holds in every state of every run of writes, memtable switches, flushes, moves, compactions and snapshots. |
| `Engine.RunKeepsSnapshotReads` | ios/Pods/leveldb-library/db/db_impl.cc:1110-1155 | Over a whole run in which a snapshot stays held and nothing is uncovered, every read at that snapshot keeps its answer. |
| `SplitKeys.CompactionCanResurrect` | ios/Pods/leveldb-library/db/version_set.cc:1380-1439 | A run of thirteen steps from the empty database, whose last step is a compaction that turns a deleted key back into its old value for a reader at the latest sequence number. |
| `DBImpls.DBImpl.Write` | ios/Pods/leveldb-library/db/db_impl.cc:1195-1266 | A batch takes the engine step of a write and keeps the invariant. |
| `DBImpls.DBImpl.SwitchMemTables` | ios/Pods/leveldb-library/db/db_impl.cc:1320-1380 | Making the full memtable immutable takes the engine step of a switch. |
| `DBImpls.DBImpl.CompactMemTable` | ios/Pods/leveldb-library/db/db_impl.cc:544-575 | Building the level-0 table, picking its level and applying its edit take the engine step of a flush, to level 0 if a file there overlaps the range and otherwise to the deepest level reached under the overlap limits. |
| `DBImpls.DBImpl.PickCompaction` | ios/Pods/leveldb-library/db/version_set.cc:1247-1299 | For any file picked by size or by seeks, the inputs are what SetupOtherInputs makes of that file or, on level 0, of the files in the least closed range around it, with the grandparents of all inputs. |
| `DBImpls.DBImpl.CompactRange` | ios/Pods/leveldb-library/db/version_set.cc:1441-1472 | The inputs of a manual compaction are what SetupOtherInputs makes of, on level 0, the files in the least closed range around the one asked for and, deeper, the first files that overlap it, just as many as reach the size limit, or all; there is none exactly if no file of the level overlaps the range. |
| `DBImpls.DBImpl.RunBackgroundCompaction` | ios/Pods/leveldb-library/db/db_impl.cc:697-776 | The engine step is a trivial move if and only if the compaction is not manual, has one level input and no level+1 input, and the level+2 files meeting the range of that file have at most the limit of bytes together; otherwise it is a compaction of the inputs with the outputs it wrote, cut by the rules. |
| `DBImpls.DBImpl.Get` | ios/Pods/leveldb-library/db/db_impl.cc:1110-1155 | Looking in the memtable, the immutable memtable and the version in turn answers as the newest visible entry of the whole database does. |
| `DBImpls.DBImpl.GetSnapshot` | ios/Pods/leveldb-library/db/snapshot.h:57-72 | The snapshot taken is the last sequence number and is held from then on. |
| `DBImpls.DBImpl.ReleaseSnapshotAt` | ios/Pods/leveldb-library/db/snapshot.h:79-91 | Releasing a snapshot removes that one and keeps the order of the rest. |
| `Cursors.MergeAllSorted` | ios/Pods/leveldb-library/table/merger.cc:47-53 | The merge of sorted runs without common keys is sorted. |
| `MergingIterators.MergingIterator.Seek` | ios/Pods/leveldb-library/table/merger.cc:47-53 | The iterator stands at the first merged entry at or after the target. |
| `MergingIterators.MergingIterator.SeekToFirst` | ios/Pods/leveldb-library/table/merger.cc:31-37 | The iterator stands at the first merged entry. |
| `MergingIterators.MergingIterator.SeekToLast` | ios/Pods/leveldb-library/table/merger.cc:39-45 | The iterator stands at the last merged entry. |
| `MergingIterators.MergingIterator.Next` | ios/Pods/leveldb-library/table/merger.cc:55-79 | The iterator moves to the next merged entry, also when it last moved backward and the other children must be repositioned. |
| `MergingIterators.MergingIterator.Prev` | ios/Pods/leveldb-library/table/merger.cc:81-108 | The iterator moves to the previous merged entry, also when it last moved forward; before the first it becomes invalid. |
| `MergingIterators.NewMergingIterator` | ios/Pods/leveldb-library/table/merger.cc:179-189 | An iterator over any number of runs that share no key, invalid at first, over their sorted merge. |
| `MergingIterators.FirstAtCut` | ios/Pods/leveldb-library/table/merger.cc:148-161 | The least of the children that all stand at one cut of the merge is the merged entry at that cut. |
| `MergingIterators.LastBeforeCut` | ios/Pods/leveldb-library/table/merger.cc:163-176 | The greatest of the children that all stand just before a cut is the merged entry before it. |
| `TwoLevelIterators.TwoLevelIterator.Seek` | ios/Pods/leveldb-library/table/two_level_iterator.cc:82-87 | The iterator stands at the first entry at or after the target in the concatenation of all blocks. |
| `TwoLevelIterators.TwoLevelIterator.SeekToFirst` | ios/Pods/leveldb-library/table/two_level_iterator.cc:89-94 | The iterator stands at the first entry of the first block that has one. |
| `TwoLevelIterators.TwoLevelIterator.SeekToLast` | ios/Pods/leveldb-library/table/two_level_iterator.cc:96-101 | The iterator stands at the last entry of the last block that has one. |
| `TwoLevelIterators.TwoLevelIterator.Next` | ios/Pods/leveldb-library/table/two_level_iterator.cc:103-107 | The iterator moves to the next entry of the concatenation, across empty blocks. |
| `TwoLevelIterators.TwoLevelIterator.Prev` | ios/Pods/leveldb-library/table/two_level_iterator.cc:109-113 | The iterator moves to the previous entry of the concatenation, across empty blocks. |
| `TwoLevelIterators.TwoLevelIterator.InitDataBlock` | ios/Pods/leveldb-library/table/two_level_iterator.cc:146-161 | The block opened is the one the index stands on, and an open one with the same handle is kept. |
| `TwoLevelIterators.LowerBoundInBlocks` | ios/Pods/leveldb-library/table/two_level_iterator.cc:82-87 | The lower bound in the concatenation is the lower bound in the block the index finds, or the start of the next. |
| `DBIters.DBIter.Next` | ios/Pods/leveldb-library/db/db_iter.cc:141-175 | The iterator moves to the next entry that is live at its sequence number: the newest visible one of its user key, and no deletion. |
| `DBIters.DBIter.FindNextUserEntry` | ios/Pods/leveldb-library/db/db_iter.cc:177-207 | From any entry, skipping a saved key, the scan stops at the first live entry past it. |
| `DBIters.DBIter.Prev` | ios/Pods/leveldb-library/db/db_iter.cc:209-234 | The iterator moves to the previous live entry, from either direction. |
| `DBIters.DBIter.FindPrevUserEntry` | ios/Pods/leveldb-library/db/db_iter.cc:236-276 | The backward scan stops after the last live entry before where it started. |
| `DBIters.DBIter.Seek` | ios/Pods/leveldb-library/db/db_iter.cc:278-290 | The iterator stands at the first live entry whose user key is at or after the target. |
| `DBIters.DBIter.SeekToFirst` | ios/Pods/leveldb-library/db/db_iter.cc:292-301 | The iterator stands at the first live entry. |
| `DBIters.DBIter.SeekToLast` | ios/Pods/leveldb-library/db/db_iter.cc:303-308 | The iterator stands at the last live entry. |
| `DBIters.PrevUndoesNext` | ios/Pods/leveldb-library/db/db_iter.cc:141-234 | The live entry before the next live entry is the one the iterator came from. |
| `DBIters.LiveAnswers` | ios/Pods/leveldb-library/db/db_iter.cc:177-207 | A live entry is what a read of its user key answers. |
| `DBIters.AnswerIsLive` | ios/Pods/leveldb-library/db/db_iter.cc:177-207 | Every value a read answers is a live entry. |
| `DBScans.AddIterators` | ios/Pods/leveldb-library/db/version_set.cc:229-245 | The runs added for a version, one for each level-0 file and one for each deeper level, hold exactly its entries and share no key. |
| `DBScans.NewInternalIterator` | ios/Pods/leveldb-library/db/db_impl.cc:1072-1097 | The merging iterator over the memtables and the version merges exactly the entries of the database. |
| `DBScans.NewIterator` | ios/Pods/leveldb-library/db/db_impl.cc:1157-1167 | The iterator reads at the snapshot, or at the last sequence number if there is none. |
| `DBScans.Scan` | ios/Pods/leveldb-library/db/db_iter.cc:141-207 | A scan of a database from first to last yields, in ascending key order, exactly the pairs that reads at its sequence number answer. |
| `WriteQueue.BuildBatchGroup` | ios/Pods/leveldb-library/db/db_impl.cc:1270-1316 | A group is a prefix of the queue with a leading batch and its operations are those of its writers in order. It has at most 128 KB more than its first batch, or 1 MB if that is larger than 128 KB, no sync writer behind a leader without sync, and ends only at a writer that would break one of these. |
| `WriteQueue.StepKeepsInv` | ios/Pods/leveldb-library/db/db_impl.cc:1195-1266 | Arrivals, grouping, logging, syncing, inserting, publishing and failing each keep the invariant of the write path. |
| `WriteQueue.RunKeepsInv` | ios/Pods/leveldb-library/db/db_impl.cc:1195-1266 | The invariant holds in every state of every run. |
| `WriteQueue.LeavesOnceInOrder` | ios/Pods/leveldb-library/db/db_impl.cc:1195-1266 | Writers leave the queue once each, in the order of arrival. |
| `WriteQueue.RangesInOrder` | ios/Pods/leveldb-library/db/db_impl.cc:1212-1222 | Groups own sequence ranges that follow one another without gap or overlap. |
| `WriteQueue.SnapshotSeesWholeGroups` | ios/Pods/leveldb-library/db/db_impl.cc:1216-1247 | A snapshot taken at any point of a run shows, then and ever after, all operations of a group or none. |
| `WriteQueue.SnapshotIsStable` | ios/Pods/leveldb-library/db/db_impl.cc:1216-1247 | Entries visible to a snapshot are neither added nor removed by later steps. |
| `WriteQueue.AcknowledgedIsWritten` | ios/Pods/leveldb-library/db/db_impl.cc:1229-1266 | A write answered with success is in the table under its place of the sequence, is visible, is in the log, and was synced if it asked for it. |
| `WriteQueue.FailedIsInvisible` | ios/Pods/leveldb-library/db/db_impl.cc:1229-1247 | No operation of a group answered with failure is in the table. |
| `WriteQueue.FollowersShareStatus` | ios/Pods/leveldb-library/db/db_impl.cc:1249-1264 | Every writer of a group gets the status of its leader. |
| `WriteQueue.NothingAfterFailedSync` | ios/Pods/leveldb-library/db/db_impl.cc:1233-1245 | Over every run: once syncing the log has failed, every group that leaves later is refused, writes nothing and answers failure. |
| `WriteQueue.DBWriters.Enqueue` | ios/Pods/leveldb-library/db/db_impl.cc:1196-1205 | A caller takes the step that puts it at the end of the queue. |
| `WriteQueue.DBWriters.LeaveAlone` | ios/Pods/leveldb-library/db/db_impl.cc:1210-1214 | A first writer refused for want of room, or without a batch, takes the step that answers it alone. |
| `WriteQueue.DBWriters.FormGroup` | ios/Pods/leveldb-library/db/db_impl.cc:1213-1222 | Forming a group takes the step of the protocol that assigns its sequence range. |
| `WriteQueue.DBWriters.LogGroup` | ios/Pods/leveldb-library/db/db_impl.cc:1228-1235 | Adding the record of a group to the log, with either outcome, takes that step of the protocol. |
| `WriteQueue.DBWriters.SyncLog` | ios/Pods/leveldb-library/db/db_impl.cc:1227-1232 | Syncing the log for a leader that asked for it, with either outcome, takes that step of the protocol. |
| `WriteQueue.DBWriters.InsertNext` | ios/Pods/leveldb-library/db/write_batch.cc:116-130 | Inserting one operation takes the step that gives it the next sequence number of its group. |
| `WriteQueue.DBWriters.PublishGroup` | ios/Pods/leveldb-library/db/db_impl.cc:1244-1266 | Publishing sets the last sequence number, answers every writer of the group and removes them from the queue. |
| `CommittedWrites.GroupIsWrite` | ios/Pods/leveldb-library/db/db_impl.cc:1195-1266 | From before a group begins to after it is published with success, the table and the last sequence number change exactly as an engine write of its operations changes the database. |
| `CommittedWrites.EveryGroupIsStep` | ios/Pods/leveldb-library/db/db_impl.cc:1195-1266 | Along a history every successful group is an engine write step from the state its predecessors left, and a failed one changes no entry. |
| `CommittedWrites.PublishedIsCommitted` | ios/Pods/leveldb-library/db/db_impl.cc:1195-1266 | At every point of every run, what is published is what the engine holds after writing the published groups one after the other, and that database is valid. |
| `CommittedWrites.ReadsAreCommitted` | ios/Pods/leveldb-library/db/db_impl.cc:1195-1266 | A read at any published sequence number, also while a group is being inserted, answers as in the engine after those writes. |
| `SkipLists.SkipList.FindGreaterOrEqual` | ios/Pods/leveldb-library/db/skiplist.h:260-281 | The search returns the first node at or after the key and, on every level, its predecessor. |
| `SkipLists.SkipList.Contains` | ios/Pods/leveldb-library/db/skiplist.h:370-378 | Yes exactly if the key is in the list. |
| `SkipLists.SkipList.FindLessThan` | ios/Pods/leveldb-library/db/skiplist.h:283-302 | The last node before the key. |
| `SkipLists.SkipList.FindLast` | ios/Pods/leveldb-library/db/skiplist.h:304-322 | The last node of the list. |
| `SkipLists.Insert` | ios/Pods/leveldb-library/db/skiplist.h:336-368 | The list stays valid with exactly the key added. The new node is in its place on as many levels as it is high, whatever the height, and nothing else changes but the height of the list, which grows to that of the node if need be. |
| `SkipLists.Inserter.Step` | ios/Pods/leveldb-library/db/skiplist.h:360-367 | Each pointer store of an insertion leaves every level a sorted list that contains the old one. |
| `SkipLists.Reader.Step` | ios/Pods/leveldb-library/db/skiplist.h:260-281 | One turn of a search over a list that may have grown meanwhile makes progress, and a finished search is right for the list as it is. |
| `SkipLists.InsertWhileReading` | ios/Pods/leveldb-library/db/skiplist.h:336-368 | However the turns of a search and the stores of an insertion interleave, a finished search gives the answer of the list before the insertion or after it. |
| `LogFormat.LogWriter.AddRecord` | ios/Pods/leveldb-library/db/log_writer.cc:34-80 | The file is the image of fragments that split the records added so far, padded at block ends, and the new record is the last. |
| `LogRoundTrip.ParsesFragment` | ios/Pods/leveldb-library/db/log_writer.cc:82-108 | What the writer emits for a fragment, header with masked checksum, length and type before the payload, is parsed back to that type and payload and nothing more. |
| `LogFormat.LogWriter.Reopen` | ios/Pods/leveldb-library/db/log_writer.cc:27-30 | A writer opened on a file with an earlier image goes on from there. |
| `LogReader.Reader.ReadPhysicalRecord` | ios/Pods/leveldb-library/db/log_reader.cc:189-271 | The result is the next fragment, the end of the file, or a bad record reported with the bytes it drops, for any bytes of the file. |
| `LogReader.Reader.ReadRecord` | ios/Pods/leveldb-library/db/log_reader.cc:56-174 | Fragments are assembled into one record, with a report for each that does not fit, for any bytes of the file. |
| `LogRoundTrip.RoundTrip` | ios/Pods/leveldb-library/db/log_reader.cc:56-174 | Reading a written log gives exactly the records added, and no report. |
| `LogRoundTrip.PrefixReads` | ios/Pods/leveldb-library/db/log_reader.cc:189-271 | Reading a log cut off anywhere gives exactly the records that lie wholly before the cut, and no report. |
| `LogRoundTrip.ReadFile` | ios/Pods/leveldb-library/db/log_reader.cc:56-174 | Calling the reader until nothing is left gives all that reading the file gives. |
| `LogSoundness.ReadsOnlyWritten` | ios/Pods/leveldb-library/db/log_reader.cc:56-271 | On any bytes whatsoever, every record the reader returns is made of a full fragment, or a first, any number of middle ones and a last, that lie in the file in this order, each within a block and with the checksum of its type and payload. |
| `LogSoundness.ParsedAccounts` | ios/Pods/leveldb-library/db/log_reader.cc:190-270 | A physical record is taken whole, or the rest of its block is dropped: reported for a bad length or checksum, not reported for a preallocated record of type and length zero or at the end of the file. |
| `LogSoundness.TurnAccounts` | ios/Pods/leveldb-library/db/log_reader.cc:91-172 | Every byte of a fragment and of a partial record is returned, kept or reported, except for a partial record at the end of the file. |
| `LogFormat.PhysicalBytes` | ios/Pods/leveldb-library/db/log_writer.cc:82-109 | The bytes of a physical record: masked checksum of type and payload, length, and type 1 to 4. |
| `BlockFormat.BlockBuilder.Add` | ios/Pods/leveldb-library/table/block_builder.cc:71-105 | The entry is appended with the longest prefix it shares with the previous key, or as a restart point; restart points are exactly the restart interval apart. |
| `BlockFormat.ExtendedLaid` | ios/Pods/leveldb-library/table/block_builder.cc:71-105 | A block extended by an entry is still well laid out: offsets, shared prefixes and restart points. |
| `BlockFormat.BlockBuilder.Finish` | ios/Pods/leveldb-library/table/block_builder.cc:61-69 | The contents are the entries, the restart offsets and their count. |
| `BlockFormat.BlockBytes` | ios/Pods/leveldb-library/table/block_builder.cc:5-26 | The bytes of two entries that share a prefix, and of restart offsets. |
| `BlockIters.DecodeEntry` | ios/Pods/leveldb-library/table/block.cc:55-75 | The fast path for one-byte lengths and the general path decode the same header or fail alike. |
| `BlockIters.EntryDecodes` | ios/Pods/leveldb-library/table/block.cc:55-75 | At the offset of an entry the header, the key suffix and the value come back. |
| `BlockIters.RestartPoint` | ios/Pods/leveldb-library/table/block.cc:100-103 | The restart array gives the offsets of the restart entries. |
| `BlockIters.Iter.constructor` | ios/Pods/leveldb-library/table/block.cc:116-125 | An iterator over the bytes of a block starts invalid. |
| `BlockIters.Iter.Next` | ios/Pods/leveldb-library/table/block.cc:138-141 | The iterator moves to the next entry. |
| `BlockIters.Iter.Prev` | ios/Pods/leveldb-library/table/block.cc:143-162 | The iterator moves to the previous entry, by scanning from the restart point before it; before the first it becomes invalid. |
| `BlockIters.Iter.Seek` | ios/Pods/leveldb-library/table/block.cc:164-202 | Binary search over restart points and a linear scan stop at the first entry at or after the target. |
| `BlockIters.Iter.SeekToFirst` | ios/Pods/leveldb-library/table/block.cc:204-207 | The iterator stands at the first entry. |
| `BlockIters.Iter.SeekToLast` | ios/Pods/leveldb-library/table/block.cc:209-214 | The iterator stands at the last entry. |
| `BlockIters.Iter.ParseNextKey` | ios/Pods/leveldb-library/table/block.cc:225-252 | Parsing rebuilds the whole key from the shared prefix and leaves the restart index of its entry. |
| `Separators.SeparatorBetween` | ios/Pods/leveldb-library/util/comparator.cc:31-52 | The shortest separator is at or after the start, before the limit and no longer than the start. |
| `Separators.SeparatorShortens` | ios/Pods/leveldb-library/util/comparator.cc:31-52 | At the first byte in which the keys differ, the separator ends with that byte of the start incremented if this stays below the limit; otherwise, or if one key is a prefix of the other, it is the start. |
| `Separators.SuccessorAfter` | ios/Pods/leveldb-library/util/comparator.cc:54-66 | The short successor is at or after the key. |
| `Separators.SuccessorShortens` | ios/Pods/leveldb-library/util/comparator.cc:54-66 | The first byte below 255 is incremented and ends the key; a key without one stays. |
| `Separators.KeySeparatorBetween` | ios/Pods/leveldb-library/db/dbformat.cc:65-82 | The internal key separator is at or after the start and before the limit. |
| `Separators.KeySuccessorAfter` | ios/Pods/leveldb-library/db/dbformat.cc:84-97 | The internal key successor is at or after the key. |
| `Separators.FindShortestSeparator` | ios/Pods/leveldb-library/util/comparator.cc:31-52 | The in-place loop computes the separator the lemmas are about. |
| `Tables.TableBuilder.Add` | ios/Pods/leveldb-library/table/table_builder.cc:94-123 | The entry joins the table; the pending index entry separates the block before it; the key reaches the filter under its block offset. |
| `Tables.TableBuilder.Flush` | ios/Pods/leveldb-library/table/table_builder.cc:125-139 | Writing a block changes no entry and leaves a pending index entry. |
| `Tables.TableBuilder.Finish` | ios/Pods/leveldb-library/table/table_builder.cc:198-253 | The finished file stores exactly the entries added, with an index that locates each block and a filter over all keys. |
| `Tables.BlockDecides` | ios/Pods/leveldb-library/table/table.cc:214-242 | If the first entry at or after a key lies in the block the index finds, it is the one of the whole table; if that block has none, no entry has the user key. |
| `Tables.Table.InternalGet` | ios/Pods/leveldb-library/table/table.cc:214-242 | A lookup through index, filter and block returns nothing but the first entry at or after the key, and returns it whenever it has the user key asked for. |
| `FilterBlocks.FilterBlockBuilder.StartBlock` | ios/Pods/leveldb-library/table/filter_block.cc:21-27 | Starting a block generates the filters of all ranges before it. |
| `FilterBlocks.FilterBlockBuilder.AddKey` | ios/Pods/leveldb-library/table/filter_block.cc:29-33 | The key is pooled under the current block. |
| `FilterBlocks.FilterBlockBuilder.Finish` | ios/Pods/leveldb-library/table/filter_block.cc:35-49 | The bytes encode a filter for each 2 KB range, with the keys of all blocks starting in it. |
| `FilterBlocks.FilterBlockBuilder.GenerateFilter` | ios/Pods/leveldb-library/table/filter_block.cc:51-75 | The pooled keys become one more filter, possibly empty. |
| `FilterBlocks.KeysAreFound` | ios/Pods/leveldb-library/table/filter_block.cc:90-104 | Every key added under a block offset may match there, if the policy has no false negatives. |
| `FilterBlocks.AnswersExactly` | ios/Pods/leveldb-library/table/filter_block.cc:90-104 | Up to the last filter, the answer for a block offset is the answer of the policy for exactly the keys added in its 2 KB, the empty filter if there are none; further on everything may match. |
| `Blooms.CreateFilter` | ios/Pods/leveldb-library/util/bloom.cc:28-54 | The loop over keys and probes sets the bits of the model of the filter. |
| `Blooms.KeyMayMatch` | ios/Pods/leveldb-library/util/bloom.cc:56-80 | The early-out loop over probes answers as the model of the match does. |
| `Blooms.BloomHasNoFalseNegatives` | ios/Pods/leveldb-library/util/bloom.cc:28-80 | Every key a filter was created from matches it, for any hash and any number of bits for each key. |
| `Blooms.BloomExact` | ios/Pods/leveldb-library/util/bloom.cc:28-80 | A filter matches a key if and only if every bit the key selects is selected by some key the filter was made from, j-th bits being the hash plus j times the rotated hash, modulo the number of bits; there are at least 64 bits and the given number for each key. |
| `Blooms.ProbeCounts` | ios/Pods/leveldb-library/util/bloom.cc:20-47 | How many probes some numbers of bits for each key give, at least 1, at most 30, 6 for 10, and how a hash is rotated right by 17 bits. |
| `HandleTables.HandleTable.FindPointer` | ios/Pods/leveldb-library/util/cache.cc:115-121 | The chain position of the handle with the key and hash, or the end of its chain if no handle of the table matches. |
| `HandleTables.HandleTable.Insert` | ios/Pods/leveldb-library/util/cache.cc:79-93 | The handle joins the table; one with the same key and hash leaves and is returned. |
| `HandleTables.HandleTable.Remove` | ios/Pods/leveldb-library/util/cache.cc:95-103 | The matching handle, if any, leaves and is returned. |
| `HandleTables.HandleTable.Resize` | ios/Pods/leveldb-library/util/cache.cc:123-147 | Rehashing keeps the handles, makes the number of buckets a power of two, at least 4 and at least the number of handles, and, unless 4, less than twice that number. |
| `Rings.RemoveKeepsRing` | ios/Pods/leveldb-library/util/cache.cc:240-243 | Unlinking an entry leaves a ring of the others in the same order. |
| `Rings.AppendKeepsRing` | ios/Pods/leveldb-library/util/cache.cc:245-251 | Linking an entry before the head makes it the newest of the ring. |
| `LRUCaches.LRUCache.Ref` | ios/Pods/leveldb-library/util/cache.cc:218-224 | A reference moves an idle entry to the in-use list and counts one more client. |
| `LRUCaches.LRUCache.Unref` | ios/Pods/leveldb-library/util/cache.cc:226-238 | The last client moves a cached entry to the end of the idle list; the last reference of all deletes the entry. |
| `LRUCaches.LRUCache.Lookup` | ios/Pods/leveldb-library/util/cache.cc:253-260 | The entry with the key is returned with a reference, or there is none. |
| `LRUCaches.LRUCache.Release` | ios/Pods/leveldb-library/util/cache.cc:262-265 | Releasing gives one reference back. |
| `LRUCaches.LRUCache.Insert` | ios/Pods/leveldb-library/util/cache.cc:267-304 | The new entry replaces one with its key, then the oldest idle entries are evicted until the charges fit or none is idle; entries held by clients stay alive. |
| `LRUCaches.LRUCache.FinishErase` | ios/Pods/leveldb-library/util/cache.cc:308-317 | An entry taken out of the table leaves its list and loses the reference of the cache. |
| `LRUCaches.LRUCache.Erase` | ios/Pods/leveldb-library/util/cache.cc:319-322 | After erasing no entry has the key; clients keep theirs. |
| `LRUCaches.LRUCache.Prune` | ios/Pods/leveldb-library/util/cache.cc:324-334 | Exactly the idle entries are evicted. |
| `LRUCaches.EvictsOldest` | ios/Pods/leveldb-library/util/cache.cc:294-301 | Eviction takes the oldest idle entries, as many as it takes for the charges to fit and no more, or all, passes each to its deleter in that order, and changes nothing else. |
| `LRUCaches.BalancedIdle` | ios/Pods/leveldb-library/util/cache.cc:216-238 | In every state of the cache the idle entries are alive, without clients, each once on its list and not on the other, which is what eviction relies on. |
| `LRUCaches.NothingLost` | ios/Pods/leveldb-library/util/cache.cc:218-238 | No operation loses an entry: it is alive or was passed to its deleter. |
| `LRUCaches.LRUCache.UsageIsSum` | ios/Pods/leveldb-library/util/cache.cc:267-304 | The usage is the sum of the charges of the entries in the cache. |
| `Varints.EncodeVarint32` | ios/Pods/leveldb-library/util/coding.cc:21-47 | The unrolled cases write the varint of the number. |
| `Varints.EncodeVarint64` | ios/Pods/leveldb-library/util/coding.cc:55-64 | The loop writes the varint of the number. |
| `Varints.GetVarint32PtrFallback` | ios/Pods/leveldb-library/util/coding.cc:86-102 | The loop reads a varint of at most 32 bits, or fails. |
| `Varints.GetVarint64Ptr` | ios/Pods/leveldb-library/util/coding.cc:116-131 | The loop reads a varint of at most 64 bits, or fails. |
| `Varints.ReadsBack32` | ios/Pods/leveldb-library/util/coding.cc:86-102 | What was written for a 32-bit number is read back, with what follows left over. |
| `Varints.ReadsBack64` | ios/Pods/leveldb-library/util/coding.cc:116-131 | What was written for a 64-bit number is read back, with what follows left over. |
| `Varints.NumberEnds` | ios/Pods/leveldb-library/util/coding.cc:86-131 | On any bytes, a number ends at the first byte below 128, and reading fails exactly if none of the first five, or ten, bytes is. |
| `Varints.KnownVarints` | ios/Pods/leveldb-library/util/coding.cc:21-64 | The bytes of some numbers, 300 and the largest 32-bit one among them. |
| `Coding.Fixed32RoundTrip` | ios/Pods/leveldb-library/util/coding.h:56-83 | A fixed 32-bit number decodes to what was encoded. |
| `Coding.UnmaskUndoesMask` | ios/Pods/leveldb-library/util/crc32c.h:29-38 | Unmasking a masked checksum gives it back, for all 32-bit values. |
| `Coding.MaskAnswers` | ios/Pods/leveldb-library/util/crc32c.h:22-33 | Some masked checksums: the low 15 bits move to the top and the constant is added. |
| `Crc32c.Extend` | ios/Pods/leveldb-library/util/crc32c.cc:276-377 | The alignment prologue, the four-lane loop over 16-byte swaths, the loop over single words, the final combination of the lanes and the loop over the last bytes compute the byte-at-a-time checksum, for every data and every address. |
| `Crc32cRemainder.ChecksumIsRemainder` | ios/Pods/leveldb-library/util/crc32c.cc:276-377 | A word is the checksum of a string if and only if its complement, mirrored, is congruent modulo the Castagnoli polynomial to the message times x^32 plus the mirrored complement of the checksum so far times x^8n: for a checksum from the start, the first 32 bits of the message complemented. The message has its first byte first and in each byte the lowest bit first. |
| `Crc32cRemainder.RemainderUnique` | ios/Pods/leveldb-library/util/crc32c.cc:276-377 | Two words congruent to the same polynomial are equal, so that this determines the checksum. |
| `Crc32cAnswer.KnownAnswer` | ios/Pods/leveldb-library/util/crc32c.cc:264-273 | The checksum of TestCRCBuffer is 0xdcbc59fa, the answer an accelerated implementation is compared with. |
| `Crc32c.StrideIsSixteen` | ios/Pods/leveldb-library/util/crc32c.cc:293-300 | Four lookups in the stride tables move a word past sixteen zero bytes. |
| `Crc32c.WordSteps` | ios/Pods/leveldb-library/util/crc32c.cc:312-320 | Folding bytes one at a time is xoring them in as a word and stepping once for each byte. |
| `Crc32c.ExtendConcatenation` | ios/Pods/leveldb-library/util/crc32c.h:14-17 | Extending by one piece and then another is extending by their concatenation. |
| `NanopbFields.FieldIter.Next` | ios/Pods/nanopb/pb_common.c:29-85 | The iterator moves to the next field and wraps at the end, which it reports. |
| `NanopbFields.FieldIter.Find` | ios/Pods/nanopb/pb_common.c:87-104 | From any position the cyclic search finds the field with the tag if there is one, and otherwise returns to where it was. |
| `NanopbEncode.OStream.Write` | ios/Pods/nanopb/pb_encode.c:103-124 | Bytes are appended if they fit, in a sizing stream only counted; otherwise the write fails. |
| `NanopbEncode.OStream.EncodeVarint` | ios/Pods/nanopb/pb_encode.c:608-628 | The bytes written are the varint of the number, in a sizing stream too. |
| `NanopbEncode.EncodeArray` | ios/Pods/nanopb/pb_encode.c:147-236 | Packed, with the size found by a sizing pass or by multiplication, or one tagged entry after the other; it fails if an entry does. |
| `NanopbEncode.EncodeField` | ios/Pods/nanopb/pb_encode.c:341-426 | Required, optional, repeated and oneof fields are encoded if present; proto3 defaults are left out. |
| `NanopbEncode.EncodeSubmessage` | ios/Pods/nanopb/pb_encode.c:717-765 | The size of the submessage found by a first pass is the number of bytes of the second, so the message after it is well delimited. |
| `NanopbEncode.Encode` | ios/Pods/nanopb/pb_encode.c:528-550 | Every field is encoded in order, or the encoding fails for want of room or for an entry that cannot be encoded. |
| `NanopbEncode.GetEncodedSize` | ios/Pods/nanopb/pb_encode.c:567-576 | The size is the number of bytes encoding writes; it fails exactly if the message cannot be encoded. |
| `NanopbEncode.EncodeToBuffer` | ios/Pods/nanopb/pb_encode.c:528-550 | A buffer is filled exactly if the message can be encoded and its size is at most that of the buffer. |
| `NanopbDecode.IStream.ReadByte` | ios/Pods/nanopb/pb_decode.c:141-157 | The next byte is taken, or the stream is left as it is at its end. |
| `NanopbDecode.IStream.DecodeVarint32` | ios/Pods/nanopb/pb_decode.c:187-247 | The loop reads a 32-bit varint as the decoder over bytes does, excess bytes included. |
| `NanopbDecode.IStream.DecodeVarint` | ios/Pods/nanopb/pb_decode.c:255-275 | The loop reads a varint of at most 64 bits, or fails. |
| `NanopbDecode.IStream.SkipField` | ios/Pods/nanopb/pb_decode.c:321-331 | A field of any wire type is passed over; an unknown type fails. |
| `NanopbDecode.IStream.MakeSubstream` | ios/Pods/nanopb/pb_decode.c:372-385 | The substream covers exactly the length that prefixes it, and the parent stands after it. |
| `NanopbDecode.DecodeArray` | ios/Pods/nanopb/pb_decode.c:428-464 | Packed and single entries are added to the array until it is full; one more fails. |
| `NanopbDecode.DecodeStaticField` | ios/Pods/nanopb/pb_decode.c:406-483 | The value of a field goes to its slot, its flag, its array or its union. |
| `NanopbDecode.AllSeen` | ios/Pods/nanopb/pb_decode.c:1054-1078 | The test of whole words and of the last partial word holds exactly if every required field was seen. |
| `NanopbDecode.DecodeNoInit` | ios/Pods/nanopb/pb_decode.c:934-1082 | With one cyclic iterator for all lookups and a bitmap for required fields, decoding gives what the decoder over bytes gives, or fails where that does; what it refuses is in NanopbRefusals. |
| `NanopbDecode.Decode` | ios/Pods/nanopb/pb_decode.c:1084-1096 | Decoding starts from the defaults of every field. |
| `NanopbRefusals.EmptyInput` | ios/Pods/nanopb/pb_decode.c:1054-1078 | No bytes decode to the defaults if no field is required, and are refused otherwise. |
| `NanopbRefusals.LeftOut` | ios/Pods/nanopb/pb_decode.c:1021-1078 | For every message and field, the encoding without the bytes of that field is refused if and only if the field is one of the first 64 required ones; otherwise all other fields come back. |
| `NanopbRefusals.OtherItems` | ios/Pods/nanopb/pb_decode.c:997-1046 | For every message and array without a count, the encoding with other entries in that array is refused if and only if there are some but fewer than the array holds. |
| `NanopbLimits.DecodedInRoom` | ios/Pods/nanopb/pb_decode.c:406-483 | Whatever bytes are decoded, the message is within the limits of its descriptor, submessages included: entries of arrays, lengths of strings and bytes, and ranges of numbers. |
| `NanopbLimits.UnknownSkipped` | ios/Pods/nanopb/pb_decode.c:966-995 | A value written for any other descriptor under a tag this one does not have is skipped without effect, whatever its type. |
| `NanopbRoundTrip.Varint32Back` | ios/Pods/nanopb/pb_decode.c:187-247 | The 32-bit reader gives back every 32-bit number. |
| `NanopbLimits.Varint32Exact` | ios/Pods/nanopb/pb_decode.c:187-247 | Which 64-bit numbers the 32-bit reader accepts, by their low 32 bits: those that fit, and those with bits 31 and 63 set whose bits from 35 on are, in groups of seven, all ones or all zeros. |
| `NanopbLimits.NegativeBack` | ios/Pods/nanopb/pb_decode.c:219-238 | A negative 32-bit number written with 64 bits is read back modulo 2^32. |
| `NanopbLimits.OtherNumberRead` | ios/Pods/nanopb/pb_decode.c:219-243 | A number whose bit 32 is zero is taken for a sign extension all the same. |
| `NanopbLimits.WireBytes` | ios/Pods/nanopb/pb_encode.c:608-700 | The bytes of some tags, varints, strings and fixed numbers, and the zigzag order. |
| `NanopbRoundTrip.NumberBack` | ios/Pods/nanopb/pb_decode.c:1280-1445 | Every number that fits its field comes back: signed, unsigned, zigzag, fixed and boolean. |
| `NanopbRoundTrip.FieldBack` | ios/Pods/nanopb/pb_decode.c:934-1033 | Decoding the bytes of one field moves the message on by that field, whatever follows, also while another field is missing. |
| `NanopbRoundTrip.RoundTrip` | ios/Pods/nanopb/pb_decode.c:934-1096 | A well-formed message can be encoded, and what was encoded decodes, using all bytes, to a message with the same present fields and values. |
| `NanopbRoundTrip.EncodeAndDecode` | ios/Pods/nanopb/pb_decode.c:1084-1096 | Encoding into a buffer and decoding from it returns such a message exactly if the buffer is large enough. |

## Left out

Data and order:

- User keys and skip-list keys are real numbers: every total order on countably many keys embeds in
  them, so any comparator is covered. Block iterators compare by a rank into the reals.
- Sequence numbers stay below the largest one, as in the code, which never wraps them; the proofs about
  snapshots need the last sequence number to be smaller than `MAX_SEQUENCE_NUMBER`.
- Versions are values. Reference counts of versions and files, seek statistics and compaction scores are
  left out: any file may be picked.
- A held snapshot list is a sequence of numbers; the doubly linked list of `snapshot.h` is not modelled
  in place.

Engine:

- Compactions.Compaction.SetupOtherInputs: `compact_pointer_`, which only guides the next pick, is left out.
- CompactionRun.FinishCompactionOutputFile: the reopening of the table and the byte counters are left out.
- CompactionRun.DoCompactionWork: the estimated size of an open file is a parameter, a function of its entries; a
  flush inside a running compaction is a step before or after it.
- Engine.RunKeepsSnapshotReads: promises nothing for a run with an uncovering compaction; see Findings.
- DBImpls.DBImpl.Write: one group by itself; queue and log are in `WriteQueue`, and `CommittedWrites` joins the two.
- DBImpls.DBImpl.SwitchMemTables: the new log file and the conditions for slowing down and waiting are left out.
- DBImpls.DBImpl.CompactMemTable: log numbers are left out.
- DBImpls.DBImpl.PickCompaction: level and file are parameters, so scores and seek counts are left out.
- DBImpls.DBImpl.CompactRange: one background turn; the outer loop over levels and the restart from the
  last key are left out.
- I/O errors, shutdown, corrupted files, obsolete-file deletion, info logs and the locking of
  `DBImpl` other than the write path are left out. Opening a database from its write-ahead logs is left
  out; recovery of the version from the manifest is modelled.
- WriteQueue.AcknowledgedIsWritten: the log is a sequence of records; the bytes that a failed append may
  leave behind, and the memtable switch inside `MakeRoomForWrite`, are not modelled there.
- Manifests.LogAndApply: writing the record is in `ManifestFile`; log, file and sequence number fields are left out.
- Manifests.Recover: the recovered counters and the reuse of the manifest are left out.
- ManifestFiles.RecoverFile: `CURRENT`, and the counters a whole manifest must hold, are left out.
- ManifestRecords.RecoverFromRecords: the file named in a record is looked up by a parameter; checks of
  the comparator name and of missing log numbers are left out.

Iterators:

- MergingIterators.MergingIterator.Next: children share no internal key, which unique sequence numbers
  give; the factory's special cases for no child and one child are left out.
- DBScans.NewInternalIterator: the children are cursors over the sorted runs of the memtables and files; the table
  cache and the release of references are left out.
- TwoLevelIterators.TwoLevelIterator.Seek: reading a block cannot fail.

Files:

- LogReader.Reader.ReadPhysicalRecord: read errors and the skipping before the initial offset are left out.
- LogReader.Reader.ReadRecord: the initial offset is 0, so resynchronising and `LastRecordOffset` are
  left out. Checksums are a parameter of the log, so the round trips hold for every checksum function.
- BlockIters.Iter.Seek: for well-formed blocks smaller than 4 GB; the corruption branches cannot be
  reached there.
- Tables.TableBuilder.Flush: compression, the trailer of a block and write errors are left out.
- Tables.TableBuilder.Finish: the meta-index block, the footer and the bytes of handles are left out.
- Tables.Table.InternalGet: blocks stand for their entries, as the block iterator is proved to read them.
  The size of a written block, compression, the meta-index, the footer and the bytes of block handles are
  left out, and a filter block is smaller than 4 GB. The internal filter policy, which strips the tag of
  a key, is the user key passed on.
- Blooms.CreateFilter: the hash is a parameter, and 0.69 times a number is taken without rounding first.
- Crc32c.Extend: 32-bit words are sets of bits. The tables are those their recurrences compute; that
  the printed constants equal them, and hardware acceleration, are not part of this model.
- Compression, `TableCache`, `Env`, `Arena` and `Histogram`, the application itself and its other libraries
  are left out.

Skip list and cache:

- SkipLists.InsertWhileReading: one insertion beside one search, each store atomic and seen in order;
  the memory model, the arena and the choice of heights are left out.
- LRUCaches.LRUCache.Insert: one shard, its mutex left out. Hash chains are sequences, the number of
  buckets a modulus, and the sharded front and `NewId` are left out.

nanopb:

- NanopbFields.FieldIter.Next: positions stand for the data and size pointers.
- NanopbEncode.EncodeArray: arrays of pointers are left out.
- NanopbEncode.EncodeField: callback and pointer fields are left out.
- NanopbEncode.Encode: the extension placeholder is left out.
- NanopbDecode.DecodeNoInit: callback fields, extensions and pointer fields are left out. Struct offsets
  are slots, and the message is returned instead of updated in place. The configuration is the one
  compiled, with 64 required fields at most and four bytes in front of the content of a bytes field.
- NanopbRefusals.LeftOut: for encodings smaller than 4 GB, as are those of NanopbRefusals.OtherItems.
- NanopbLimits.DecodedInRoom: for descriptors whose default values fit their fields.
- NanopbDecode.DecodeArray: a packed array that overflows closes its substream before failing; the stream
  after a failure is not specified.
- NanopbEncode.EncodeToBuffer: the bytes already written when encoding fails are not returned.
- NanopbRoundTrip.RoundTrip: for encodings smaller than 4 GB, and for messages within the limits of their
  descriptor: numbers that fit their field, strings without a zero byte, arrays within their size. Values
  of absent fields are not compared.

# A model of LevelDB 1.20 and of nanopb 0.3.9.1

The storage engine and the protocol buffer codec vendored by this repository (`Gifting/Pods/leveldb-library` and
`Gifting/Pods/nanopb`), modelled layer by layer and proved against simple specifications. All modules verify together:
`dafny verify dfyconfig.toml`.

What each layer is measured against:

| layer | modules | specification |
|---|---|---|
| whole engine | `History`, `Engine`, `Runs`, `Database`, `Recovery`, `Scans` | the list of all writes, read as a map at a sequence number |
| tables on levels | `Version`, `Inputs`, `Picking`, `Compaction`, `Installing`, `VersionReads`, `Resurfacing`, `BoundaryKeys`, `SplitKeyRun` | the set of entries written, seen from a snapshot |
| version edits | `Builder`, `Manifests` | the versions installed one after the other |
| concurrency | `GroupCommit`, `WriterThreads`, and the readers in `SkipLists` | writers served one by one; a search at one instant |
| cursors | `Cursor`, `Merging`, `TwoLevel`, `BlockIteration` | an index into a sorted sequence |
| files | `Lifetimes`, `Collecting` | a reference counts one holder; a table that somebody may read is in the directory |
| formats | `Coding`, `LogFormat`, `LogReader`, `LogDamage`, `BlockFormat`, `Filters`, `Tables`, `Batches`, `EditCodec` | reading undoes writing |
| memory | `SkipLists`, `Caching`, `CacheLinks` | a sorted list; a table of counted references |
| messages | `PbScalars`, `PbFields`, `PbEncoding`, `PbDecoding`, `PbMessages` | one byte string per message, which decoding undoes |

How the engine is modelled. User keys are byte strings in bytewise order. An entry is a user key, a
sequence number, a type and a value; a table is its metadata and its sorted run of entries; a version is
seven lists of tables. `Engine.Db` holds everything a running database holds in memory (memtable, immutable
memtable, current version, counters, snapshots, the compaction under way) and on disk (manifest and logs).
Its steps are: a write group reaches the log, a write group reaches the memtable, the memtable is switched,
the immutable memtable is flushed, a compaction starts, a compaction finishes, a table is moved, a snapshot is
taken or released, and a crash followed by recovery, which reads nothing but the records of the manifest and the logs.
Steps interleave in any order; in particular flushes and writes happen between the start and the end of a compaction.
The methods of `Database.DBImpl` and `Recovery.Recover` are the code behind the steps: each is proved to perform
exactly its step. A ghost history records every write acknowledged so far. `Engine.Step` is any step of the code;
`Engine.Next` is the same except that the inputs of a compaction let nothing resurface, which is the first of the facts
below. The statements about all runs are about runs of `Next`, with outputs cut anywhere, also inside a user key.

Four facts about the code that the proofs brought out:

- **A user key split over two tables.** `DoCompactionWork` may end an output between two entries of one user
  key when a snapshot keeps both alive, and `SetupOtherInputs` does not pull in the neighbouring table that starts
  with the same user key. Such outputs do no harm by themselves, and the engine's runs contain them. But a later
  compaction or trivial move of the first of the two tables can make a value reappear that was overwritten or deleted.
  `SplitKeyRun.DeletedValueReturns` is such a run, from an empty database: one put, one held snapshot, one delete, one
  compaction, one move, and `Get` finds the deleted value. In `SplitKeyRun.MarkerUncoversValue` the inputs of the level
  end between user keys, but a dropped deletion marker is the last entry of an input of the next level, and the table
  after that one holds the value.
  `Resurfacing.CompactionIsRightIff` (and `MoveIsRightIff` for the trivial move) is the exact condition, for every job and
  whatever was flushed since it started: readers at snapshots from the smallest one on are told what they were told
  before if and only if no entry of an input that some such snapshot reads leaves behind, outside the inputs on its own
  level, an older entry that says something else, and no dropped deletion marker leaves behind a value on the next level.
  `Resurfacing.OnlyContinuedKeysResurface`: this takes an input whose last user key the next table of its level goes on with.
  The guard of `Engine.Next` implies that condition (`Resurfacing.GuardIsEnough`) and fails only where an input entry that
  is still read leaves an older one of its user key behind, whatever that one says (`GuardFailsOnlyWhere`). The code does
  not check it. It need not, if every input ends between user keys (`BoundaryKeys.UnsplitNeedsNoGuard`), and so never in a
  database whose compactions start while no snapshot is held (`BoundaryKeys.FreeRunsAreRuns`).
- **A varint that is too large.** `pb_decode_varint32` asks whether the fifth byte fits only if it is the last
  one: 80 80 80 80 F0 00, which spells 0x7_0000_0000, is read as zero.
  `PbScalars.Varint32IsNarrowedIff` says for every input whether it reads what the 64-bit decoder reads, narrowed to 32 bits.
- **Decoding a manifest record into a used object.** `VersionEdit::Clear` keeps the compaction pointers, so
  `DecodeFrom` undoes `EncodeTo` if and only if the object held none: `EditCodec.EditRoundTripIff`.
- **A text that fills its buffer.** `pb_enc_string` writes a string without a terminator in full, and `pb_dec_string`
  refuses it, as it leaves no room for one. An encoded message is therefore decoded if and only if every text in it is
  shorter than its buffer, at any depth: `PbMessages.MessageRoundTrip`.

How messages are modelled. A message type is its list of field descriptors, a struct the list of its fields; a
submessage is a struct in a struct. `PbEncoding.EncMessage` and `PbDecoding.DecMessage` say which bytes a struct has and
what any bytes do to a struct. The encoder and decoder are methods over streams that are proved to do exactly that,
with the sizing pass, the iterator and the bitmap of required fields that the code has.

## Model

| member | source | states |
|---|---|---|
| Bytes.Order | Gifting/Pods/leveldb-library/util/comparator.cc:25-27 | bytewise comparison is a strict total order, also between a string and its prefixes |
| InternalKeys.IOrder | Gifting/Pods/leveldb-library/db/dbformat.cc:50-66 | internal keys (user key up, sequence and type down) are totally ordered |
| InternalKeys.FindIsNewest | Gifting/Pods/leveldb-library/db/memtable.cc:108-145 | looking only at the entry Seek lands on gives the newest entry of the user key visible at the snapshot, or none if there is none |
| Version.FindFile | Gifting/Pods/leveldb-library/db/version_set.cc:86-105 | the binary search returns the first table whose largest key is at or after the target, and all later ones are too |
| Version.Level0Get | Gifting/Pods/leveldb-library/db/version_set.cc:356-380 | the answer at level 0 comes from the highest-numbered table that covers the key and holds a visible entry |
| Version.Get | Gifting/Pods/leveldb-library/db/version_set.cc:332-429 | the search over all levels gives the answer of the first level that has one |
| Version.AnswerIsNewest | Gifting/Pods/leveldb-library/db/version_set.cc:332-429 | if newer entries of a user key are searched first and levels from 1 on are sorted, that answer is the newest visible entry among all entries of all tables |
| Inputs.GetOverlappingInputs | Gifting/Pods/leveldb-library/db/version_set.cc:531-572 | the restarting loop terminates and returns exactly the tables overlapping a range that includes the given one, that no overlapping level-0 table sticks out of, and that is the least such range |
| Inputs.SomeFileOverlapsRange | Gifting/Pods/leveldb-library/db/version_set.cc:121-159 | true exactly when some table overlaps the range, by scan or by binary search |
| Inputs.PickLevelForMemTableOutput | Gifting/Pods/leveldb-library/db/version_set.cc:502-529 | a level above 0 is picked only if no level down to it overlaps the new table |
| Inputs.GetRange | Gifting/Pods/leveldb-library/db/version_set.cc:1224-1245 | smallest and largest are bounds of all inputs and each is met by one of them |
| Picking.SetupOtherInputs | Gifting/Pods/leveldb-library/db/version_set.cc:1345-1411 | the inputs at the next level are exactly the tables overlapping the range of the inputs at this level, also after the set has been expanded, and level-0 inputs stay closed under overlap |
| Picking.PickCompaction | Gifting/Pods/leveldb-library/db/version_set.cc:1291-1343 | the picked job satisfies what later steps need of inputs, whichever table it starts from |
| Compaction.LevelPointers.IsBaseLevelForKey | Gifting/Pods/leveldb-library/db/version_set.cc:1484-1503 | with pointers that only move forward, the answer is whether no deeper level has a table covering the user key |
| Compaction.DoCompactionWork | Gifting/Pods/leveldb-library/db/db_impl.cc:900-972 | the outputs, one after the other, hold exactly the entries that are not dropped, in order, wherever outputs are cut |
| Compaction.KeptExactly | Gifting/Pods/leveldb-library/db/db_impl.cc:928-955 | what is kept are exactly the entries that no newer entry at or below the smallest snapshot hides and that are no deletion markers at or below it for which no deeper level has a table |
| Compaction.CompactionPreservesReads | Gifting/Pods/leveldb-library/db/db_impl.cc:900-972 | for every user key and every snapshot at or above the smallest one, what is kept reads, together with all that is no input, like what was merged, if and only if no dropped deletion marker uncovers a value outside the inputs |
| Installing.ReplacedShape | Gifting/Pods/leveldb-library/db/db_impl.cc:866-885 | replacing inputs by outputs, cut anywhere, in a version that has changed since the inputs were pinned keeps levels sorted, numbers unique, and newer entries of a key that is still read above older ones |
| VersionReads.CompactionKeepsFaithful | Gifting/Pods/leveldb-library/db/db_impl.cc:866-1040 | a version that reads like the history before a compaction is installed reads like it afterwards, also when outputs split a user key, if the job passes over nothing and uncovers nothing |
| VersionReads.FlushKeepsFaithful | Gifting/Pods/leveldb-library/db/db_impl.cc:488-565 | a flushed memtable extends what the tables say by exactly the flushed writes, at level 0 or at the deeper level that was picked |
| VersionReads.FlushKeepsFit | Gifting/Pods/leveldb-library/db/db_impl.cc:488-565 | a flush during a compaction does not disturb the inputs the compaction has pinned |
| VersionReads.ReplayKeepsFaithful | Gifting/Pods/leveldb-library/db/db_impl.cc:365-486 | tables written from the logs extend what the tables say by exactly the logged writes |
| Builder.VersionBuilder.Apply | Gifting/Pods/leveldb-library/db/version_set.cc:665-708 | the builder's changes become the old ones followed by the edit: an added table is not deleted any more |
| Builder.VersionBuilder.SaveLevel | Gifting/Pods/leveldb-library/db/version_set.cc:711-772 | merging base and added tables gives one sorted level holding all of them that are not deleted |
| Builder.ReplayRebuildsVersion | Gifting/Pods/leveldb-library/db/version_set.cc:905-1025 | for any list of edits that add each number at most once per level, applying all of them and saving once gives the tables that applying and saving each in turn gives |
| Manifests.Recover | Gifting/Pods/leveldb-library/db/version_set.cc:905-1025 | for any manifest whose edits add each number once per level, the loop that puts all records into one builder and saves it once gives the tables that saving after every record would give, in level order, with the counters last set; it fails exactly if a counter was never set |
| Manifests.ReplayIsInstalled | Gifting/Pods/leveldb-library/db/version_set.cc:905-1025 | that version is the very one LogAndApply installed last |
| Manifests.RecordKeeps | Gifting/Pods/leveldb-library/db/version_set.cc:820-903 | every record LogAndApply writes, of tables with new numbers or tables that move down, keeps the manifest replayable and in step with the version |
| Manifests.WriteSnapshot | Gifting/Pods/leveldb-library/db/version_set.cc:1102-1129 | the loops over levels and tables write the record that lists all tables, level by level |
| Manifests.SnapshotAdds | Gifting/Pods/leveldb-library/db/version_set.cc:1102-1129 | that record adds exactly the tables of the version, each at its level |
| Manifests.SnapshotRebuilds | Gifting/Pods/leveldb-library/db/version_set.cc:1102-1129 | replaying that record alone gives the version back |
| Builder.ApplyEdit | Gifting/Pods/leveldb-library/db/version_set.cc:820-903 | a builder given one edit and saved: the new version holds at each level exactly the old tables that are not deleted and the added ones, in order |
| Engine.ReplayIsTail | Gifting/Pods/leveldb-library/db/db_impl.cc:274-363 | in every state the logs from the manifest's log number on hold exactly the writes that are not in tables, in order, including a group that was logged but not applied |
| Engine.RecoverKeeps | Gifting/Pods/leveldb-library/db/db_impl.cc:274-486 | recovery from the replayed manifest and the logs alone restores the invariant with the same history and starts from the very version that was current, whatever was under way |
| Engine.FlushKeeps | Gifting/Pods/leveldb-library/db/db_impl.cc:534-565 | a flush keeps the invariant; its log is not needed any more although the memtable's still is |
| Engine.FinishKeeps | Gifting/Pods/leveldb-library/db/db_impl.cc:866-1040 | a finished compaction keeps the invariant, wherever its outputs were cut and with any writes, switches and flushes since it started |
| Engine.NextKeeps | Gifting/Pods/leveldb-library/db/db_impl.cc:274-1379 | every step of the engine keeps the invariant, if the inputs of compactions let nothing resurface when they are chosen |
| Runs.GetIsRight | Gifting/Pods/leveldb-library/db/db_impl.cc:1109-1154 | memtable, immutable memtable and tables searched in this order give what the map of all writes says at the snapshot |
| Runs.EveryReadIsRight | Gifting/Pods/leveldb-library/db/db_impl.cc:1109-1154 | so in every state of every run, for every key and every snapshot reads are promised for |
| Runs.SnapshotsAreStable | Gifting/Pods/leveldb-library/db/db_impl.cc:1175-1184 | a read at a held snapshot gives the same value in every later state of the run in which it is still held |
| Runs.CrashKeepsWrites | Gifting/Pods/leveldb-library/db/db_impl.cc:274-486 | after a crash of the process, no acknowledged write is lost, a group that was logged but not acknowledged is there whole, and the last sequence number is that of the history |
| Runs.LaterWritesAreInvisible | Gifting/Pods/leveldb-library/db/db_impl.cc:1109-1154 | writes after a snapshot do not change what is read at it |
| Runs.PinnedReadIsRight | Gifting/Pods/leveldb-library/db/db_impl.cc:1109-1154 | a read that pins memtables and version in one state and finishes in any later one, after the memtable has grown or been switched, answers as of the state in which it began |
| BoundaryKeys.NoSplitInRun | Gifting/Pods/leveldb-library/db/db_impl.cc:900-972 | if no input entry is newer than the smallest snapshot, at most one entry of a user key is kept and no user key is split over two outputs |
| BoundaryKeys.NoSnapshotsAtStart | Gifting/Pods/leveldb-library/db/db_impl.cc:900-904 | that premise holds of every compaction started while no snapshot is held |
| BoundaryKeys.UnsplitNeedsNoGuard | Gifting/Pods/leveldb-library/db/version_set.cc:1345-1389 | whatever inputs are picked, nothing resurfaces if the user keys they end with do not go on in a table left behind on their level |
| BoundaryKeys.FreeRunsAreRuns | Gifting/Pods/leveldb-library/db/db_impl.cc:686-769 | if compactions start only while no snapshot is held, every step of the code is one the engine's statements cover, and no user key is ever split over two tables of a sorted level |
| Resurfacing.CompactionIsRightIff | Gifting/Pods/leveldb-library/db/db_impl.cc:866-1040 | for any job that still fits the version, installing what DoCompactionWork wrote leaves the answer of every search at every snapshot from the smallest one on as it was if and only if no input entry still read leaves an older one on its level that says something else and no dropped marker uncovers a value of the next level |
| Resurfacing.MoveIsRightIff | Gifting/Pods/leveldb-library/db/db_impl.cc:711-729 | the same for the trivial move, where only the first can happen |
| Resurfacing.OnlyContinuedKeysResurface | Gifting/Pods/leveldb-library/db/version_set.cc:1345-1389 | this takes an input whose last user key goes on in the next table of its level, which is left behind |
| Resurfacing.GuardIsEnough | Gifting/Pods/leveldb-library/db/version_set.cc:1345-1389 | the guard of the engine's runs implies that exact condition |
| Resurfacing.GuardFailsOnlyWhere | Gifting/Pods/leveldb-library/db/version_set.cc:1345-1389 | where the guard fails, an input entry that is still read leaves an older entry of its user key behind |
| SplitKeyRun.DeletedValueReturns | Gifting/Pods/leveldb-library/db/db_impl.cc:686-729 | a run from an empty database in which a snapshot held during a compaction and one trivial move after it make Get return a value that was deleted |
| SplitKeyRun.MarkerUncoversValue | Gifting/Pods/leveldb-library/db/db_impl.cc:940-955 | a version and picked inputs that end between user keys on their own level, in which a dropped marker uncovers a value of the next level |
| Database.DBImpl.Get | Gifting/Pods/leveldb-library/db/db_impl.cc:1109-1154 | the method returns what the map of all writes says |
| Database.DBImpl.LogGroup | Gifting/Pods/leveldb-library/db/db_impl.cc:1212-1241 | the step that appends a group to the log under the next sequence numbers |
| Database.DBImpl.ApplyGroup | Gifting/Pods/leveldb-library/db/db_impl.cc:1241-1256 | the step that inserts the group into the memtable, in order, and advances the last sequence number |
| Database.DBImpl.MakeRoom | Gifting/Pods/leveldb-library/db/db_impl.cc:1355-1377 | the step that switches to a new memtable and a new log |
| Database.DBImpl.CompactMemTable | Gifting/Pods/leveldb-library/db/db_impl.cc:488-565 | the step that writes the immutable memtable out and records the new log number; an empty one leaves no table |
| Database.DBImpl.BackgroundCompaction | Gifting/Pods/leveldb-library/db/db_impl.cc:686-769 | the step of the code that moves a single table, or pins inputs and fixes the smallest snapshot; the state stays valid if nothing resurfaces from those inputs |
| Database.DBImpl.FinishRunning | Gifting/Pods/leveldb-library/db/db_impl.cc:887-1040 | the step that writes outputs from the merged inputs, whatever they are, and installs them |
| Builder.SameOrder | Gifting/Pods/leveldb-library/db/version_set.cc:606-618 | the order of tables by smallest key and number makes the list of a set of tables unique |
| Recovery.RecoverLogFile | Gifting/Pods/leveldb-library/db/db_impl.cc:365-486 | wherever the memtable fills up, the tables written hold the records of the log in order, with increasing numbers, and the largest sequence number is found |
| Recovery.Recover | Gifting/Pods/leveldb-library/db/db_impl.cc:274-363 | DB::Open after a crash is the crash-and-recover step: the records of the manifest are replayed, then the logs it leaves, and a snapshot of the result begins the new manifest |
| Cursor.RowsAreReads | Gifting/Pods/leveldb-library/db/db_iter.cc:173-203 | the table an iterator shows has a row for a key exactly when a read of the key finds a value, with that value |
| Cursor.RowsIncrease | Gifting/Pods/leveldb-library/db/db_iter.cc:173-203 | each live user key has one row, in key order |
| Cursor.DBIter.Key | Gifting/Pods/leveldb-library/db/db_iter.cc:66-69 | the key of the row the cursor stands on, in either direction |
| Cursor.DBIter.Value | Gifting/Pods/leveldb-library/db/db_iter.cc:70-73 | the value of that row |
| Cursor.DBIter.FindNextUserEntry | Gifting/Pods/leveldb-library/db/db_iter.cc:173-203 | stops at the first row from here on, after the key to skip if there is one, past deletions, overwritten and too new entries |
| Cursor.DBIter.FindPrevUserEntry | Gifting/Pods/leveldb-library/db/db_iter.cc:232-272 | stops behind the last row up to here, having saved its key and value |
| Cursor.DBIter.Next | Gifting/Pods/leveldb-library/db/db_iter.cc:146-171 | goes to the next row, also when the direction changes |
| Cursor.DBIter.Prev | Gifting/Pods/leveldb-library/db/db_iter.cc:205-230 | goes to the previous row, also when the direction changes |
| Cursor.DBIter.Seek | Gifting/Pods/leveldb-library/db/db_iter.cc:274-286 | goes to the first row at or after the target |
| Cursor.DBIter.SeekToFirst | Gifting/Pods/leveldb-library/db/db_iter.cc:288-297 | goes to the first row, or nowhere if there is none |
| Cursor.DBIter.SeekToLast | Gifting/Pods/leveldb-library/db/db_iter.cc:299-304 | goes to the last row, or nowhere if there is none |
| Scans.ScanIsContents | Gifting/Pods/leveldb-library/db/db_impl.cc:1067-1166 | in every state, the rows of an iterator over memtables and tables are exactly the contents at its snapshot, in key order |
| Scans.ScansAreStable | Gifting/Pods/leveldb-library/db/db_impl.cc:1156-1166 | two iterators at the same snapshot show the same rows whatever happened between the states they were made in |
| Scans.InputsCanBeMerged | Gifting/Pods/leveldb-library/db/version_set.cc:1258-1289 | no entry is in two inputs of a compaction, so the merge cursor over them yields exactly what the compaction reads |
| Merging.MergingIterator.Next | Gifting/Pods/leveldb-library/table/merger.cc:59-83 | the next position of the merge of all children, also when the direction changes |
| Merging.MergingIterator.Prev | Gifting/Pods/leveldb-library/table/merger.cc:85-112 | the previous position, also when the direction changes |
| Merging.MergingIterator.Seek | Gifting/Pods/leveldb-library/table/merger.cc:51-57 | the first position at or after the target |
| Merging.MergingIterator.FindSmallest | Gifting/Pods/leveldb-library/table/merger.cc:155-168 | if every child stands at its first entry from a position of the merge on, the cursor stands at that position |
| Merging.MergingIterator.FindLargest | Gifting/Pods/leveldb-library/table/merger.cc:170-183 | if every child stands at its last entry before a position, the cursor stands just before that position |
| Merging.RankStep | Gifting/Pods/leveldb-library/table/merger.cc:59-112 | moving past one position of the merge moves past its entry in the child that holds it and past nothing in the others |
| Merging.MergingIterator.Current | Gifting/Pods/leveldb-library/table/merger.cc:114-122 | the entry at the position of the merge |
| TwoLevel.TwoLevelIterator.Next | Gifting/Pods/leveldb-library/table/two_level_iterator.cc:112-116 | the next position of the joined blocks, over any number of empty blocks |
| TwoLevel.TwoLevelIterator.Prev | Gifting/Pods/leveldb-library/table/two_level_iterator.cc:118-122 | the previous position, over any number of empty blocks |
| TwoLevel.TwoLevelIterator.Seek | Gifting/Pods/leveldb-library/table/two_level_iterator.cc:91-96 | the first position at or after the target, when index keys separate the blocks |
| TwoLevel.TwoLevelIterator.SkipEmptyDataBlocksForward | Gifting/Pods/leveldb-library/table/two_level_iterator.cc:125-136 | terminates at the first entry of a later block, or off the end |
| TwoLevel.TwoLevelIterator.SkipEmptyDataBlocksBackward | Gifting/Pods/leveldb-library/table/two_level_iterator.cc:138-149 | terminates at the last entry of an earlier block, or off the front |
| Coding.EncodeVarint32 | Gifting/Pods/leveldb-library/util/coding.cc:47-73 | the five unrolled cases write the base-128 groups of the value, least significant first |
| Coding.EncodeVarint64 | Gifting/Pods/leveldb-library/util/coding.cc:81-90 | the loop writes the same bytes |
| Coding.PbEncodeVarint | Gifting/Pods/nanopb/pb_encode.c:574-594 | so does the loop that marks every byte and unmarks the last |
| Coding.VarintLength | Gifting/Pods/leveldb-library/util/coding.cc:103-110 | the number of those bytes |
| Coding.GetVarint32 | Gifting/Pods/leveldb-library/util/coding.cc:112-141 | for any input, fast path and loop read up to five groups, drop what does not fit 32 bits, and fail exactly if no group ends in time |
| Coding.GetVarint64 | Gifting/Pods/leveldb-library/util/coding.cc:143-171 | the same for ten groups and 64 bits |
| Coding.PbDecodeVarint | Gifting/Pods/nanopb/pb_decode.c:250-270 | for any input the other decoder gives the same result as GetVarint64 |
| Coding.VarintRoundTrip | Gifting/Pods/leveldb-library/util/coding.cc:47-171 | decoding undoes encoding for every value in range and every suffix |
| Coding.VarintTruncated | Gifting/Pods/leveldb-library/util/coding.cc:112-171 | no proper prefix of an encoding decodes |
| Coding.ZigZagRoundTrip | Gifting/Pods/nanopb/pb_encode.c:596-605 | for every int64 the shift and complement map it to its zigzag code and back |
| Coding.FixedRoundTrip | Gifting/Pods/leveldb-library/util/coding.cc:9-45 | fixed-width encoding, least significant byte first, is undone by decoding |
| Coding.PrefixedRoundTrip | Gifting/Pods/leveldb-library/util/coding.cc:98-101 | a length-prefixed string is read back whatever follows |
| Coding.GetLengthPrefixedSlice | Gifting/Pods/leveldb-library/util/coding.cc:182-192 | fails exactly if the length is malformed or more than what is left |
| LogFormat.UnmaskMask | Gifting/Pods/leveldb-library/util/crc32c.h:31-40 | Unmask undoes Mask on 32-bit values |
| LogFormat.Writer.AddRecord | Gifting/Pods/leveldb-library/db/log_writer.cc:36-82 | the file grows by the fragments of the record, cut at block boundaries, with trailers filled with zeros |
| LogFormat.LogAppend | Gifting/Pods/leveldb-library/db/log_writer.cc:36-82 | a log of records followed by the encoding of one more is the log of one more record |
| LogReader.Reader.ReadPhysicalRecord | Gifting/Pods/leveldb-library/db/log_reader.cc:199-281 | for any file, block-wise buffering reads the fragment that starts at the reader's position, classifies damage and counts reports |
| LogReader.Reader.ReadRecord | Gifting/Pods/leveldb-library/db/log_reader.cc:60-182 | for any file, the reassembly loop returns the next logical record of the file, with the reports the damage before it deserves |
| LogReader.RecordRead | Gifting/Pods/leveldb-library/db/log_reader.cc:60-281 | a record whose file may end anywhere inside it is returned whole or not at all, without a report |
| LogReader.TruncatedLog | Gifting/Pods/leveldb-library/db/log_reader.cc:60-281 | reading any prefix of a log returns exactly the records whose last fragment lies in the prefix, in order, and reports no corruption |
| LogReader.LogRoundTrip | Gifting/Pods/leveldb-library/db/log_reader.cc:60-281 | reading a whole log returns all records |
| BlockFormat.BlockBuilder.Add | Gifting/Pods/leveldb-library/table/block_builder.cc:73-107 | the buffer holds the old entries and the new one, prefix-compressed against its predecessor, with a restart point every interval |
| BlockFormat.BlockBuilder.Finish | Gifting/Pods/leveldb-library/table/block_builder.cc:63-71 | the block is the entries, the restart array and its length |
| BlockFormat.ExtendedIsLaid | Gifting/Pods/leveldb-library/table/block_builder.cc:73-107 | one more entry leaves all earlier entries where they are |
| BlockIteration.DecodeEntry | Gifting/Pods/leveldb-library/table/block.cc:53-77 | for any bytes, the one-byte fast path and the general path give the same three lengths or fail together |
| BlockIteration.DecodesEntry | Gifting/Pods/leveldb-library/table/block.cc:53-77 | decoding an entry the builder wrote gives its lengths and what follows |
| BlockIteration.NewIterator | Gifting/Pods/leveldb-library/table/block.cc:256-266 | opening a finished block finds its entries and restart points |
| BlockIteration.Iter.ParseNextKey | Gifting/Pods/leveldb-library/table/block.cc:226-253 | rebuilds the next key from the shared prefix, and ends exactly at the restart array |
| BlockIteration.Iter.Next | Gifting/Pods/leveldb-library/table/block.cc:139-142 | the next entry that was added |
| BlockIteration.Iter.Prev | Gifting/Pods/leveldb-library/table/block.cc:144-163 | the previous entry, by rescanning from a restart point; off the front from the first |
| BlockIteration.Iter.Seek | Gifting/Pods/leveldb-library/table/block.cc:165-203 | the first entry at or after the target, for any transitive comparator |
| BlockIteration.Iter.SeekToLast | Gifting/Pods/leveldb-library/table/block.cc:210-215 | the last entry |
| Separators.FindShortestSeparator | Gifting/Pods/leveldb-library/util/comparator.cc:29-51 | a string no longer than the start, at or after it and before the limit |
| Separators.FindInternalSeparator | Gifting/Pods/leveldb-library/db/dbformat.cc:68-85 | a key at or after the start and before the limit which, unless it is the start, has a user key strictly between theirs |
| Separators.FindInternalSuccessor | Gifting/Pods/leveldb-library/db/dbformat.cc:87-100 | a key at or after the given one |
| Filters.CreateFilter | Gifting/Pods/leveldb-library/util/bloom.cc:35-61 | every key put into the filter matches it, for any hash function |
| Filters.KeyMayMatch | Gifting/Pods/leveldb-library/util/bloom.cc:63-87 | the probe loop answers whether all probed bits are set |
| Filters.FilterBlockBuilder.StartBlock | Gifting/Pods/leveldb-library/table/filter_block.cc:22-28 | no key changes the filter it belongs to, and the next key goes to the filter of the block's offset |
| Filters.NoFalseNegatives | Gifting/Pods/leveldb-library/table/filter_block.cc:78-109 | a finished filter block never rejects a key added while a block with the asked offset was written |
| Tables.InternalGet | Gifting/Pods/leveldb-library/table/table.cc:226-256 | index, filter and one data block give what searching all entries of the table gives |
| Tables.LookupIsLocal | Gifting/Pods/leveldb-library/table/table.cc:226-256 | although the first entry at or after the target may lie in the next block, it then has another user key |
| Tables.TableIsSeparated | Gifting/Pods/leveldb-library/table/table.cc:220-224 | the index keys of a table separate its blocks, so the two-level cursor over it walks its contents |
| Tables.TableBuilder.Add | Gifting/Pods/leveldb-library/table/table_builder.cc:92-121 | the table being built holds one more entry, and index entries and filters so far fit it |
| Tables.TableBuilder.Finish | Gifting/Pods/leveldb-library/table/table_builder.cc:199-254 | the finished table holds the entries added and can be searched |
| Caching.LRUCache.Lookup | Gifting/Pods/leveldb-library/util/cache.cc:255-262 | hands out the cached handle, counted, and protects it from eviction |
| Caching.LRUCache.Release | Gifting/Pods/leveldb-library/util/cache.cc:264-267 | the last release of a cached handle makes it the newest for eviction; that of an uncached one frees it |
| Caching.LRUCache.Insert | Gifting/Pods/leveldb-library/util/cache.cc:269-303 | displaces an equal key, then evicts least recently released entries, no more than needed, until the charge fits or none is left to evict |
| Caching.LRUCache.Erase | Gifting/Pods/leveldb-library/util/cache.cc:318-321 | the key leaves the table; its handle lives on for the clients that have it |
| Caching.LRUCache.Prune | Gifting/Pods/leveldb-library/util/cache.cc:323-333 | everything no client has is freed, nothing else |
| Caching.LRUCache.Destroy | Gifting/Pods/leveldb-library/util/cache.cc:209-219 | every cached handle's deleter has run once |
| Caching.WithoutIs | Gifting/Pods/leveldb-library/util/cache.cc:242-245 | unlinking a handle takes its charge, and only its, from the sum |
| SkipLists.SkipList.FindGreaterOrEqual | Gifting/Pods/leveldb-library/db/skiplist.h:262-281 | the first node at or after the key, and at every level the last node before it |
| SkipLists.SkipList.FindLessThan | Gifting/Pods/leveldb-library/db/skiplist.h:285-302 | the last node before the key |
| SkipLists.SkipList.FindLast | Gifting/Pods/leveldb-library/db/skiplist.h:305-322 | the last node |
| SkipLists.SkipList.Contains | Gifting/Pods/leveldb-library/db/skiplist.h:373-380 | whether a node has the key |
| SkipLists.SkipList.Insert | Gifting/Pods/leveldb-library/db/skiplist.h:337-370 | the new node stands at its place in each of its levels, and the other levels are as before |
| SkipLists.SkipList.Link | Gifting/Pods/leveldb-library/db/skiplist.h:363-369 | after every round of the linking loop each level is sorted and a sublist of the one below |
| SkipLists.LinkIsStep | Gifting/Pods/leveldb-library/db/skiplist.h:363-369 | such a round changes what readers see by one key entering one level |
| SkipLists.ViewIsOk | Gifting/Pods/leveldb-library/db/skiplist.h:363-369 | what readers see of a list, also between two links of an insert, is sorted on every level and each level is part of the one below |
| SkipLists.SearchIsLinearizable | Gifting/Pods/leveldb-library/db/skiplist.h:262-281 | a search interleaved in any way with such rounds returns what a search at one instant of the run would have, and nothing later than what was there when it began |
| Batches.WriteBatch.Put | Gifting/Pods/leveldb-library/db/write_batch.cc:98-103 | the batch has one more operation and the count says so |
| Batches.WriteBatch.Append | Gifting/Pods/leveldb-library/db/write_batch.cc:141-145 | the operations of the other batch follow |
| Batches.WriteBatch.SetSequence | Gifting/Pods/leveldb-library/db/write_batch.cc:94-96 | the sequence number is replaced and the operations stay |
| Batches.WriteBatch.Iterate | Gifting/Pods/leveldb-library/db/write_batch.cc:42-80 | for any bytes, the operations up to the first malformed one are handed out, and the status is good exactly if there was none and the count is right |
| Batches.BatchRoundTrip | Gifting/Pods/leveldb-library/db/write_batch.cc:42-108 | a batch gives back its operations, sequence number and count |
| Batches.InsertInto | Gifting/Pods/leveldb-library/db/write_batch.cc:110-134 | the entries added carry consecutive sequence numbers from the batch's own on |
| GroupCommit.BuildBatchGroup | Gifting/Pods/leveldb-library/db/db_impl.cc:1269-1314 | the longest group within the size limit that puts no sync writer behind a leader that is not, with all batches in queue order |
| GroupCommit.LoggedOnceInOrder | Gifting/Pods/leveldb-library/db/db_impl.cc:1194-1265 | in every run, with writers arriving at any time, the log holds the batches of the writers served so far once each in the order of their arrival |
| GroupCommit.SyncWritersAreSynced | Gifting/Pods/leveldb-library/db/db_impl.cc:1217-1231 | a sync writer that has returned is in a record that was synced |
| GroupCommit.SyncedWritesSurvive | Gifting/Pods/leveldb-library/db/db_impl.cc:1217-1231 | if the machine goes down and the log loses any records behind the last sync, what is left is the batches of the first writers, in order, and every sync writer that has returned is among them |
| GroupCommit.BatchesAreAtomic | Gifting/Pods/leveldb-library/db/db_impl.cc:1212-1256 | each batch has consecutive sequence numbers, all at or below the last sequence number once its writer has returned and all above it before |
| WriterThreads.OneLeader | Gifting/Pods/leveldb-library/db/db_impl.cc:1194-1206 | with each thread waiting, testing and waking up on its own, at most one is past the wait at any time, and it is the one at the front of the queue |
| WriterThreads.PopGroup | Gifting/Pods/leveldb-library/db/db_impl.cc:1250-1264 | the loop that pops the group marks all of it but the leader as done and wakes them, writers without a batch included, and wakes the new front |
| WriterThreads.DoneExactlyOnce | Gifting/Pods/leveldb-library/db/db_impl.cc:1194-1264 | a thread that has left the queue led its group or was marked done exactly once; one in the queue was not, and has not returned |
| WriterThreads.NobodyIsForgotten | Gifting/Pods/leveldb-library/db/db_impl.cc:1200-1264 | no wake-up is lost: a thread that is done or at the front is not asleep |
| WriterThreads.ThreadsRefineCommit | Gifting/Pods/leveldb-library/db/db_impl.cc:1194-1264 | every run of the threads is a run of the protocol in which one leader acts at a time |
| WriterThreads.ReturnedIsLogged | Gifting/Pods/leveldb-library/db/db_impl.cc:1194-1264 | the batch of a thread that has returned is in the log, once and in order of arrival, and synced if it asked for that |
| EditCodec.VersionEdit.EncodeTo | Gifting/Pods/leveldb-library/db/version_edit.cc:41-86 | the fields that are set, in the order of the code |
| EditCodec.VersionEdit.DecodeFrom | Gifting/Pods/leveldb-library/db/version_edit.cc:109-212 | for any bytes, the fields up to the first malformed one are set, and the status is good exactly if there was none |
| EditCodec.EditRoundTrip | Gifting/Pods/leveldb-library/db/version_edit.cc:41-212 | an encoded record comes back, after the compaction pointers the object already held |
| EditCodec.EditRoundTripIff | Gifting/Pods/leveldb-library/db/version_edit.cc:26-39 | it comes back exactly if and only if the object held none |
| LogDamage.DamagedLog | Gifting/Pods/leveldb-library/db/log_reader.cc:60-281 | whatever happened to the bytes of a log, cut short or not, if the checksum of every damaged fragment fails then reading returns a subsequence of the records written |
| LogDamage.NextRecord | Gifting/Pods/leveldb-library/db/log_reader.cc:60-182 | from any place and with any fragments already collected, the next record returned is the one begun or a later one, never a mixture |
| LogDamage.SkipBlock | Gifting/Pods/leveldb-library/db/log_reader.cc:253-267 | dropping the rest of a block brings the reader to the first fragment of the next block, possibly in the middle of a record |
| LogDamage.UndamagedShows | Gifting/Pods/leveldb-library/db/log_reader.cc:60-281 | a file that holds the encoding of the records, as far as it goes, meets the hypothesis about damage, from any fragment on |
| LogDamage.TruncatedShows | Gifting/Pods/leveldb-library/db/log_reader.cc:60-281 | so does a log cut short anywhere |
| Lifetimes.VersionSet.Ref | Gifting/Pods/leveldb-library/db/version_set.cc:482-484 | a version counts one more holder |
| Lifetimes.VersionSet.Unref | Gifting/Pods/leveldb-library/db/version_set.cc:486-493 | the last holder to go deletes the version, and with it exactly the files no other version names; counts stay right |
| Lifetimes.VersionSet.Build | Gifting/Pods/leveldb-library/db/version_set.cc:820-841 | the new version names the files of the current one as changed by the edit; the builder's own references are gone, every file counts the versions naming it |
| Lifetimes.VersionSet.AppendVersion | Gifting/Pods/leveldb-library/db/version_set.cc:803-818 | the version becomes current, holding the set's reference instead of the old one, which lives on only if somebody else holds it |
| Lifetimes.VersionSet.AddLiveFiles | Gifting/Pods/leveldb-library/db/version_set.cc:1185-1196 | the result is the given numbers and those of all files of all versions in the list, no others |
| Lifetimes.HeldZero | Gifting/Pods/leveldb-library/db/version_set.cc:66-84 | the count of a file is zero exactly if no version names it |
| Lifetimes.KeptPlaces | Gifting/Pods/leveldb-library/db/version_set.cc:759-772 | MaybeAddFile leaves out exactly the deleted (level, number) pairs |
| Collecting.DBImpl.DeleteObsoleteFiles | Gifting/Pods/leveldb-library/db/db_impl.cc:218-272 | of the tables it leaves exactly those that a version in the list names or that are being written; logs and manifests go by their numbers; every table that a read, a compaction or the current version needs stays |
| Collecting.DBImpl.FinishFlush | Gifting/Pods/leveldb-library/db/db_impl.cc:488-553 | a flushed table is no longer pending before its version is installed, and yet never without protection from the next collection |
| Collecting.DBImpl.Install | Gifting/Pods/leveldb-library/db/version_set.cc:886-890 | installing keeps the tables of every version held, of the compaction's inputs and of its outputs in the directory |
| Collecting.DBImpl.ApplyResults | Gifting/Pods/leveldb-library/db/db_impl.cc:866-885 | the tables a compaction's edit adds, written or moved, are in the directory |
| Collecting.DBImpl.EndCompaction | Gifting/Pods/leveldb-library/db/db_impl.cc:771-786 | when a compaction lets go of its inputs and outputs, all that is still read stays and the rest is collected |
| Collecting.DBImpl.ReleaseVersion | Gifting/Pods/leveldb-library/db/db_impl.cc:1056-1064 | the end of a read takes away nothing that another holder needs |
| Collecting.OnlyCurrentIsLeft | Gifting/Pods/leveldb-library/db/db_impl.cc:218-272 | when nobody reads and nothing runs, a collection leaves the current version's tables and no others |
| CacheLinks.LruAppend | Gifting/Pods/leveldb-library/util/cache.cc:247-253 | on a circular list of these elements, the four assignments add the handle as the newest |
| CacheLinks.LruRemove | Gifting/Pods/leveldb-library/util/cache.cc:242-245 | the two assignments take the handle out, wherever in the list it is, and keep the order of the others |
| CacheLinks.LruMove | Gifting/Pods/leveldb-library/util/cache.cc:221-240 | taking a handle out of one of two disjoint rings and appending it to the other leaves both well linked, the one without it, the other with it as the newest |
| CacheLinks.OldestIsFirst | Gifting/Pods/leveldb-library/util/cache.cc:293-294 | the list is empty exactly if its head is linked to itself, and otherwise the head's next is the oldest |
| CacheLinks.HandleTable.FindPointer | Gifting/Pods/leveldb-library/util/cache.cc:116-123 | the slot of the handle of that hash and key, or the last of its chain if the table has none |
| CacheLinks.HandleTable.Insert | Gifting/Pods/leveldb-library/util/cache.cc:80-94 | the table has the new handle, and instead of a handle of the same key if there was one, which is returned; no more handles than chains |
| CacheLinks.HandleTable.Remove | Gifting/Pods/leveldb-library/util/cache.cc:96-104 | the table is without the handle of that key, which is returned, or unchanged if there is none |
| CacheLinks.HandleTable.Resize | Gifting/Pods/leveldb-library/util/cache.cc:125-149 | relinking every chain into a new array loses and doubles no handle, and every handle is in its new bucket |
| CacheLinks.HandleTable.Lookup | Gifting/Pods/leveldb-library/util/cache.cc:76-78 | the handle of that key if the table has one, null if not |
| PbScalars.PbDecodeVarint32 | Gifting/Pods/nanopb/pb_decode.c:182-242 | on any stream, with its eight-bit position counter that wraps, the loop accepts a varint exactly if no byte past 32 bits loses anything but a sign extension and a fifth byte that is the last has only the four bits that fit; it reads the bits collected and leaves what follows the last byte |
| PbScalars.Varint32IsNarrowedIff | Gifting/Pods/nanopb/pb_decode.c:182-242 | on any input the 32-bit decoder reads what the 64-bit one reads, where that is a 32-bit value or the sign extension of one, if and only if the bytes past the fourth are as described |
| PbScalars.TooLargeIsZero | Gifting/Pods/nanopb/pb_decode.c:205-233 | six bytes that spell a number above 32 bits are read as zero |
| PbScalars.Varint32RoundTrip | Gifting/Pods/nanopb/pb_decode.c:182-242 | every 32-bit value is read back, whatever follows |
| PbScalars.SignExtendedIsRead | Gifting/Pods/nanopb/pb_decode.c:216-225 | a negative value sign-extended to ten bytes is read as its low 32 bits |
| PbScalars.ScalarRoundTrip | Gifting/Pods/nanopb/pb_decode.c:1289-1389 | a number that fits a field of 1, 2, 4 or 8 bytes is read back by the field's own decoder, through its casts |
| PbFields.FieldIter.Next | Gifting/Pods/nanopb/pb_common.c:20-76 | one field on, or round to the first, with the count of required fields before it right |
| PbFields.FieldIter.Find | Gifting/Pods/nanopb/pb_common.c:78-95 | wherever the iterator stands, it finds the field of a tag exactly if there is one, and otherwise stays where it is |
| PbFields.Mark | Gifting/Pods/nanopb/pb_decode.c:991-992 | oring in one bit sets the flag of that field and no other |
| PbFields.AllMarked | Gifting/Pods/nanopb/pb_decode.c:1027-1045 | the comparison of whole words and remaining bits succeeds exactly if all of the first flags are set |
| PbFields.RequiredSeen | Gifting/Pods/nanopb/pb_decode.c:1006-1046 | the check, going on from wherever the iterator stands, succeeds exactly if each of the first 64 required fields was seen |
| PbFields.FlagsTell | Gifting/Pods/nanopb/pb_decode.c:1006-1046 | the flags of the first 64 required fields say whether all of those fields were seen |
| PbEncoding.PbEncode | Gifting/Pods/nanopb/pb_encode.c:494-516 | on any stream, encoding succeeds exactly if the message can be encoded and fits, and then adds its bytes, or on a sizing stream their number |
| PbEncoding.EncodeSubmessage | Gifting/Pods/nanopb/pb_encode.c:682-730 | the writing pass writes exactly as many bytes as the sizing pass counted, so the length in front is right and the final comparison never fails |
| PbEncoding.EncodePacked | Gifting/Pods/nanopb/pb_encode.c:139-181 | a packed array is its tag, the size counted or computed beforehand, and the numbers of exactly that size |
| PbEncoding.GetEncodedSize | Gifting/Pods/nanopb/pb_encode.c:533-542 | the size of the encoding, at every depth, or failure if there is none |
| PbEncoding.FixedSize | Gifting/Pods/nanopb/pb_encode.c:145-153 | numbers of fixed width take 4 or 8 bytes each |
| PbDecoding.PbDecodeNoinit | Gifting/Pods/nanopb/pb_decode.c:901-1049 | the table-driven loop makes of any input what field-by-field reading says: known fields merged, unknown ones skipped, a zero ending the message, all of the first 64 required fields asked for |
| PbDecoding.DecodeField | Gifting/Pods/nanopb/pb_decode.c:401-475 | one field: its value, a packed array, or one more element of an array that has room |
| PbDecoding.DecodeValue | Gifting/Pods/nanopb/pb_decode.c:1289-1508 | one value of the field's type; a submessage is merged, in an array started from its defaults |
| PbDecoding.DecodePacked | Gifting/Pods/nanopb/pb_decode.c:422-447 | the numbers of a packed array are added as long as there is room, and all of the substream is used |
| PbDecoding.SkipField | Gifting/Pods/nanopb/pb_decode.c:316-326 | skips one value of the wire type, or fails if there is none |
| PbDecoding.ReadsInRange | Gifting/Pods/nanopb/pb_decode.c:1289-1389 | a number that is accepted fits the field |
| PbMessages.MessageRoundTrip | Gifting/Pods/nanopb/pb_decode.c:901-1063 | decoding an encoded struct gives it back, absent fields at their defaults, if and only if every text in it leaves room for its terminator |
| PbMessages.UnknownFieldsIgnored | Gifting/Pods/nanopb/pb_decode.c:933-962 | well-formed fields of unknown tags between the fields of any input change neither the result nor whether there is one |
| PbMessages.UnknownAmongEncoded | Gifting/Pods/nanopb/pb_decode.c:933-962 | the same at any field boundary of an encoded message |
| PbMessages.AfterWholeFields | Gifting/Pods/nanopb/pb_decode.c:919-997 | concatenated inputs are decoded one after the other into the same struct |
| PbMessages.DecodedIsReencoded | Gifting/Pods/nanopb/pb_encode.c:494-516 | whatever could be decoded can be encoded again, and that decodes to the same struct |
| PbMessages.DecodedFits | Gifting/Pods/nanopb/pb_decode.c:401-475 | a decoded struct keeps all declared sizes, and fields that did not come have their defaults |

## Left out

- I/O errors, background errors and corrupted internal keys: every call into the environment succeeds.
- Which table a compaction starts from: the compaction score, seek statistics and compaction pointers only choose it, and the model allows any.
- When an output is cut or a memtable is full: file sizes, grandparent overlap and memory usage are arbitrary decisions of the environment.
- Manual compaction, which may leave gaps between its input ranges while a flush runs.
- Reuse of logs and manifests (off by default), and the old `prev_log_number`.
- A log torn by a crash in mid-record: `LogReader.TruncatedLog` shows that its last record then never was logged; the logs of `Engine` and `GroupCommit` are sequences of whole records.
- Engine.NextKeeps: this and the statements about runs do not cover compactions and moves that the guard refuses, because after them reads can be wrong; what those do is `Resurfacing.CompactionIsRightIff` and `SplitKeyRun.DeletedValueReturns`. The guard also refuses a few that are right, as they leave behind an older entry that says the same.
- Runs.CrashKeepsWrites: every byte appended to a log survives, as after a crash of the process. What a crash of the machine leaves of the log in use is `GroupCommit.SyncedWritesSurvive`; that the older log of a memtable still being flushed may lose its unsynced end as well is not modelled.
- Running out of disk space, lost directory entries and the renaming of CURRENT.
- WriterThreads: a write that fails after the queue was joined, and the waiting of MakeRoomForWrite for the background thread, which is one giving up of the mutex here.
- Tables.TableBuilder: blocks are sequences of entries here; `BlockFormat` and `BlockIteration` model their bytes, and block handles, footer and compression are not modelled.
- Caching.LRUCache: the two circular lists are sequences here and the hash table is a map; `CacheLinks` proves that the pointer code, moves between the lists included, does to its lists and chains what is done to these, but the two are separate classes and are not put together. The hash function and the sharding over sixteen caches are not modelled.
- Starting a log reader at an initial offset other than 0.
- Coding.GetGroups: a group is added where the code ors it in; groups never overlap.
- SkipLists: the arena and the memory barriers; one pointer load or store is one step.
- Checksums and the Bloom hash are arbitrary functions.
- LogDamage.DamagedLog: that the checksum of a damaged fragment fails is assumed, as a hypothesis about the file.
- Lifetimes.VersionSet: the list of versions is a sequence, and in which order a version lists its files is left to `Builder`.
- PbMessages.MessageRoundTrip: for encodings below 4 GB, as a length is read as a 32-bit varint.
- PbDecoding.PbDecodeNoinit: the struct is a value, its fields numbered instead of found by byte offsets; on failure what was filled in so far is not described.
- PbEncoding.PbEncode: sizes are natural numbers where the code has `size_t`.
- nanopb's oneofs, proto3 fields without flags, fixed-count arrays, callbacks, extensions and pointer fields, and the default values of arrays.
- Read sampling, statistics, properties, repair, dumping and the C bindings, which do not change results.

# Verified models of LevelDB and nanopb

The repository ships two libraries in full source: LevelDB 1.22, a log-structured key-value store, and nanopb
0.3.9.7, a Protocol Buffers encoder and decoder driven by field descriptors. This project models their algorithms in
Dafny and proves what those algorithms are for.

## What is proved

**The store as a whole (`Db`, `DbState`, `Recovery`, `Runs`, `Scan`).** `DBImpl` is a class with the fields of the database:
memtable, immutable memtable, levels of table files, log files, manifest, writer queue, snapshots. Each method is one
step under the database mutex; inserting a group into the memtable is one step per operation, so readers, flushes and
compactions may fall between any two of them. A ghost history `hist` lists every operation put into a memtable. The
invariant `Valid` holds after every step, crashes included, and says: the published history is the acknowledged
batches, one after the other, in queue order; memtables, files and logs each hold exactly their part of it; the
manifest and the logs it names are enough to rebuild all of it. `Runs` makes this a statement about whole runs: every
kind of step is given as a relation between the states before and after it, `Runs.Perform` shows that the database
takes exactly such steps, and `Runs.Run` relates the answer of a read to the whole trace: it is what replaying the
acknowledged batches up to its snapshot leaves at the key, if no compaction of the run exposed a key. `Scan` lifts
reads to a full iteration through the user iterator, the merging iterator and the files.

**Compaction and its one condition (`CompactionWork`, `CompactionReads`, `CompactionRun`).** A compaction closes its
inputs at the upper boundary of its own level but not of the next one (`version_set.cc:1407-1411`). If the newest
visible entry of a user key is a deletion marker in the inputs that the compaction drops, and a file left out of the next
level still holds an older value of the same user key, that value becomes readable again. `ExposedBy` says exactly
this on the inputs; `CompactionPreservesReads` proves that reads at live snapshots are unchanged if and only if no key
is exposed; and `UnsplitExposesNothing` proves that nothing is exposed when no user key is split across two files of
the next level. `DeletedValueComesBack` gives a concrete version for which a key is exposed, and `LostDeletion` a
concrete run of the database from empty, at the end of which a deleted key reads as its old value. The ghost field
`intact` records that no compaction so far exposed a key (`Runs.IntactIff` proves exactly that of every run), and the
read guarantees of single steps are stated under it. Nothing is assumed that the code does not establish: `Runs.Run`
starts from an empty database and discharges the preconditions of every lemma on the way.

**Which files are compacted (`Inputs`, `Setup`).** The inputs of a compaction are characterised exactly and shown to be
determined: boundary closure is the least upward closed set that contains the picked files, a manual pick is the
overlap of its range cut at the byte limit, and expansion happens exactly under its four conditions.

**Bytes on disk.** `WriteBatch`, `Log` and `LogReader` follow a batch from its encoding through the log to recovery,
with the log cut anywhere; any burst of up to four changed bytes in a log record is caught by its checksum, and no
record is ever stitched together across a gap; `EditCodec` and `ManifestLog` do the same for version edits and the manifest, ending in the
file lists that the live database had.

**Structures underneath.** The skip list is modelled one link store at a time and its lock-free search is shown to be
linearizable at its last load. The merging, two-level, block and user iterators are each shown to be cursors over a
simple sequence in both directions. Prefix-compressed blocks, the fragmented log with torn tails, table lookup through
shortened index keys and Bloom filters, the LRU cache with its resizing hash table, and the manifest's edit encoding
are proved on bytes or on chains as the code handles them.

**nanopb.** Descriptors, messages and the wire form are defined independently; the two-pass encoder produces exactly
the wire form and its sizing pass is exact; decoding it gives the message back, with fewer fields in the decoder's
descriptor those fields; and decoding any bytes at all stays within the bounds of the message's C structure.
`KnownBytes` fixes the formats of both libraries to byte strings from their descriptions.

## Modelling choices

- User keys in the store modules are reals ordered by `<`; `DbFormat.BytewiseOrderEmbeds` proves that the bytewise
  comparator is an order embedding into the reals, so statements about real keys are statements about byte strings.
  Blocks, tables, logs, edits and the cache use byte strings directly.
- A table file is its sorted run of entries together with its metadata; block sizes, file cuts and memory usage are
  arbitrary choices, since no result may depend on them.
- The manifest of `Db` is the state its replay gives; `ManifestLog.WriteThenRecover` proves that replaying the bytes of a
  manifest gives the live version. Recovery in `Flush` installs its level-0 tables one at a time;
  `ManifestLog.OneEditOrMany` proves that this is the version of the code's single edit.
- The logs of `Db` are lists of records; `WriteBatch.WriteThenRecover` proves that a byte log of batches, cut anywhere,
  recovers as a prefix of its records, each whole. Compaction pointers are inputs of a step.
- Both libraries use the same base-128 varint and little-endian numbers; they are defined once, in `PbVarint` and `Coding`.
- The checksum is CRC32C as a bit-serial fold; hash functions are arbitrary functions; a block's comparator is given as an
  order embedding into the reals.
- Circular linked lists of the cache and the snapshot list are sequences; handles and skip-list nodes are indices into
  an arena.
- Where comments and code differ, the code is followed: the comment at the tombstone rule (`db_impl.cc:952-958`) says
  that older data in the compacted layers is dropped, which the boundary case above contradicts.

Check the project with `dafny verify dfyconfig.toml`.

## Model

| member | source | states |
|---|---|---|
| `DbFormat.LessIsTotalOrder` | WaterMyPlants/Pods/leveldb-library/db/dbformat.cc:51-67 | internal keys (user key up, sequence number down, kind down) are strictly and totally ordered; only equal keys tie |
| `DbFormat.VisibleIffAtOrAfterLookupKey` | WaterMyPlants/Pods/leveldb-library/db/dbformat.cc:121-139 | an entry of a user key is visible at a snapshot iff it is not before the lookup key for that snapshot |
| `DbFormat.BytewiseOrderEmbeds` | WaterMyPlants/Pods/leveldb-library/util/comparator.cc:25-27 | the bytewise comparator embeds into the reals: order and equality of byte strings are order and equality of their ranks |
| `Reads.ReplayIsRead` | WaterMyPlants/Pods/leveldb-library/db/db_impl.cc:1100-1145 | reading a history's entries at snapshot s (newest entry with sequence number at most s) is looking the key up in the map left by replaying the first s operations |
| `Version.SearchAnswers` | WaterMyPlants/Pods/leveldb-library/db/memtable.cc:100-133 | seeking the lookup key in a sorted run and comparing user keys finds the newest visible entry, or shows there is none |
| `Version.FindFile` | WaterMyPlants/Pods/leveldb-library/db/version_set.cc:88-106 | the binary search splits a sorted level exactly: files before the index end before the key, files from it on do not |
| `Version.OneFileAnswersLevel` | WaterMyPlants/Pods/leveldb-library/db/version_set.cc:365-382 | in a sorted level the single file found answers for the whole level |
| `Version.GetLevel0` | WaterMyPlants/Pods/leveldb-library/db/version_set.cc:349-365 | searching the level-0 files that hold the key, newest number first, stopping at the first hit, gives the newest visible entry of the level |
| `Version.Get` | WaterMyPlants/Pods/leveldb-library/db/version_set.cc:326-421 | under the version invariant the level-by-level early-exit search returns exactly the newest visible entry over all files, or nothing when there is none |
| `Picking.SomeFileOverlapsRange` | WaterMyPlants/Pods/leveldb-library/db/version_set.cc:122-158 | true iff some file shares a user key with the range, by scan or by one binary search, open bounds included |
| `Picking.OverlapInLevel` | WaterMyPlants/Pods/leveldb-library/db/version_set.cc:485-489 | the same for a level of a version |
| `Picking.GetOverlappingInputs` | WaterMyPlants/Pods/leveldb-library/db/version_set.cc:519-559 | every file that overlaps the range is picked; in level 0 the restart loop ends with the least closed range, so no unpicked file meets a picked one; elsewhere exactly the overlapping files, in order |
| `Picking.OverlapUnique` | WaterMyPlants/Pods/leveldb-library/db/version_set.cc:519-559 | the range determines the files: in level 0 those of the one least closed range that contains it |
| `Picking.TotalFileSizeConcat` | WaterMyPlants/Pods/leveldb-library/db/version_set.cc:60-66 | the total size is the sum: of two lists together both totals, of one file its size |
| `Picking.PickLevelForMemTableOutput` | WaterMyPlants/Pods/leveldb-library/db/version_set.cc:491-516 | level 0 if anything there overlaps; otherwise descend exactly while the next level is free of overlap and the one after below the byte limit, to level 2 at most; no file at or above the level overlaps |
| `Inputs.FindLargestKey` | WaterMyPlants/Pods/leveldb-library/db/version_set.cc:1326-1341 | the greatest largest-key of the files, false iff there are none |
| `Inputs.FindSmallestBoundaryFile` | WaterMyPlants/Pods/leveldb-library/db/version_set.cc:1344-1361 | the file with the smallest start after the key among those with the same user key, none iff there is no such file |
| `Inputs.AddBoundaryInputs` | WaterMyPlants/Pods/leveldb-library/db/version_set.cc:1378-1401 | terminates, adds only boundary files without repeating any, leaves no file of the level that starts after the inputs' largest key with the same user key, and adds nothing that some upward closed set containing the inputs lacks |
| `Inputs.CloseInputs` | WaterMyPlants/Pods/leveldb-library/db/version_set.cc:1403-1407 | the closed inputs are exactly the least set that contains the picked files and, with every file, the first one that starts right after it with the same user key; every entry left in the level is newer than every input entry of the same user key |
| `Setup.GetRange` | WaterMyPlants/Pods/leveldb-library/db/version_set.cc:1205-1225 | the least and greatest keys of the inputs; every input lies inside |
| `Setup.SetupOtherInputs` | WaterMyPlants/Pods/leveldb-library/db/version_set.cc:1403-1462 | the inputs are the closure of the picked files with the next level's files that overlap their hull; or the closed overlap of the joint hull, exactly if next-level files overlap, it has more files, the bytes stay below the limit, and the number of next-level files does not change |
| `Setup.SetupUnique` | WaterMyPlants/Pods/leveldb-library/db/version_set.cc:1403-1462 | the picked files and the limit determine the compaction |
| `Setup.PickFile` | WaterMyPlants/Pods/leveldb-library/db/version_set.cc:1284-1296 | the first file past the compaction pointer, or the first of all when none is |
| `Setup.PickCompaction` | WaterMyPlants/Pods/leveldb-library/db/version_set.cc:1270-1324 | exactly the compaction set up from the start file alone, or in level 0 from everything its range reaches; the start file is in it, its inputs are settled and its hull is exact |
| `Setup.AutomaticPickUnique` | WaterMyPlants/Pods/leveldb-library/db/version_set.cc:1270-1324 | the start file and the limit determine the automatic compaction |
| `Setup.CompactRange` | WaterMyPlants/Pods/leveldb-library/db/version_set.cc:1464-1495 | a manual compaction does nothing iff no file of the level overlaps the range; otherwise it is exactly the one set up from the overlapping files, all of them in level 0, elsewhere up to the first that brings their total to the byte limit |
| `Setup.ManualPickUnique` | WaterMyPlants/Pods/leveldb-library/db/version_set.cc:1464-1495 | the range and the limits determine the manual compaction |
| `Builder.VersionBuilder.Apply` | WaterMyPlants/Pods/leveldb-library/db/version_set.cc:650-692 | an edit's deletions and additions are accumulated level by level |
| `Builder.VersionBuilder.SaveTo` | WaterMyPlants/Pods/leveldb-library/db/version_set.cc:695-754 | the saved lists are sorted and hold exactly the base folded through every edit applied |
| `Builder.SaveLevel` | WaterMyPlants/Pods/leveldb-library/db/version_set.cc:703-735 | merging base and added files in key order while skipping deleted ones gives the sorted list of the surviving files |
| `Builder.SortedListUnique` | WaterMyPlants/Pods/leveldb-library/db/version_set.cc:703-735 | a set of files has one sorted list, so equal contents mean equal lists |
| `Builder.ManifestReplay` | WaterMyPlants/Pods/leveldb-library/db/version_set.cc:695-754 | at one level, a sorted list of the files that the base folded through the edits leaves is the list that applying the edits one at a time ends with |
| `ManifestLog.WriteThenRecover` | WaterMyPlants/Pods/leveldb-library/db/version_set.cc:801-1010 | any edits on any base, each (level, number) added at most once and not in the base: each edit is applied to the live version, encoded and logged, the log is cut anywhere; recovery decodes exactly the edits whose records end inside the cut into fresh edits, applies them to one builder, and saves the very lists the live database had after those edits, with the counters given last; it refuses iff an edit names another comparator or a counter is missing |
| `ManifestLog.WriteEdits` | WaterMyPlants/Pods/leveldb-library/db/version_set.cc:816-851 | the live version after each edit is the one version with that edit applied, and record i of the manifest is the encoding of edit i |
| `ManifestLog.ReadEdits` | WaterMyPlants/Pods/leveldb-library/db/version_set.cc:916-1001 | recovery succeeds iff every edit read is of this comparator and log number, next file and last sequence are all given; then it has the last given value of each and the base folded through the edits |
| `ManifestLog.RebuiltIsLive` | WaterMyPlants/Pods/leveldb-library/db/version_set.cc:886-1010 | sorted lists holding the base folded through the first n edits are, at every level, the live version after n edits |
| `ManifestLog.OneEditOrMany` | WaterMyPlants/Pods/leveldb-library/db/db_impl.cc:441-480 | one edit that adds several files gives the very lists that adding them one by one gives, as recovery's model does |
| `ManifestLog.KeyOfInjective` | WaterMyPlants/Pods/leveldb-library/db/dbformat.h:165-175 | different encoded internal keys are different keys |
| `EditCodec.EncodeTo` | WaterMyPlants/Pods/leveldb-library/db/version_edit.cc:41-85 | the bytes are the tagged items of the edit in their fixed order (single fields, pointers, deleted files by level and number, new files), whose reading gives the edit |
| `EditCodec.DecodeFrom` | WaterMyPlants/Pods/leveldb-library/db/version_edit.cc:107-205 | reading any sequence of well-formed items applies them in order to an edit that keeps its earlier compaction pointers; whatever is accepted has its levels and numbers within their widths |
| `EditCodec.GetBody` | WaterMyPlants/Pods/leveldb-library/db/version_edit.cc:97-193 | an item is accepted only with one of the eight known tags and with level, numbers and lengths in range; the body of an encoded item is read back and the rest left |
| `EditCodec.RoundTrip` | WaterMyPlants/Pods/leveldb-library/db/version_edit.cc:26-205 | the bytes written decode to the edit, behind the pointers already there, so to the same edit iff there were none (clearing does not reset the pointers) |
| `CompactionWork.BaseLevelCursor.IsBaseLevelForKey` | WaterMyPlants/Pods/leveldb-library/db/version_set.cc:1533-1552 | for keys asked in nondecreasing order the moving cursors answer as a scan of every deeper file would |
| `CompactionWork.DoCompactionWork` | WaterMyPlants/Pods/leveldb-library/db/db_impl.cc:890-1000 | the pass writes, in order, exactly the entries that neither drop rule removes, cut into files exactly where the given size and overlap tests say |
| `CompactionWork.HiddenByPrevious` | WaterMyPlants/Pods/leveldb-library/db/db_impl.cc:936-948 | comparing with the previous entry's sequence number decides rule (A): a newer input entry of the key is already visible at the oldest snapshot |
| `CompactionWork.OneOldVersionLeft` | WaterMyPlants/Pods/leveldb-library/db/db_impl.cc:936-948 | of the entries of a user key that the oldest snapshot can see, at most one survives |
| `CompactionReads.PreservedIffUnexposed` | WaterMyPlants/Pods/leveldb-library/db/db_impl.cc:936-962 | dropping hidden entries and obsolete markers leaves every read at or above the oldest snapshot unchanged iff no key is exposed |
| `CompactionReads.CompactionPreservesReads` | WaterMyPlants/Pods/leveldb-library/db/db_impl.cc:878-1000 | for any memory contents, version and good inputs: replacing the inputs by the survivors changes no read at a live snapshot iff no key is exposed |
| `CompactionReads.ClosedExposesNothing` | WaterMyPlants/Pods/leveldb-library/db/version_set.cc:1407-1411 | if no left-out file of the next level shares a user key with one of its inputs, nothing is exposed |
| `CompactionReads.UserDisjointIsClosed` | WaterMyPlants/Pods/leveldb-library/db/version_set.cc:1407-1411 | that holds whenever no user key is split across two files of the next level |
| `CompactionCounterexample.DeletedValueComesBack` | WaterMyPlants/Pods/leveldb-library/db/version_set.cc:1407-1411 | a version that satisfies the invariant, and good inputs, for which a deleted value becomes readable again whatever the cuts of the output, because the next level's inputs are not closed at the boundary |
| `CompactionCounterexample.PicksThem` | WaterMyPlants/Pods/leveldb-library/db/version_set.cc:1270-1324 | those inputs are the ones that picking a compaction of that version from its level-1 file returns |
| `LostDeletion.EveryRunLosesIt` | WaterMyPlants/Pods/leveldb-library/db/version_set.cc:1407-1411 | every run of 24 concrete steps (two writes, snapshot, deletion, flush, manual compaction that cuts between marker and value, release, write, flush, automatic compaction) ends in a state whose read of the deleted key returns its old value |
| `LostDeletion.ReadDeletedKey` | WaterMyPlants/Pods/leveldb-library/db/db_impl.cc:688-738 | the empty database takes those steps, and then Get returns the old value of a key whose last acknowledged operation is its deletion, and a compaction of the run exposed a key |
| `CompactionInput.MergedInput` | WaterMyPlants/Pods/leveldb-library/db/version_set.cc:1237-1268 | one child per level-0 input and one concatenating child per sorted level merge to the sorted run of exactly the input entries |
| `CompactionOutput.MakeFiles` | WaterMyPlants/Pods/leveldb-library/db/db_impl.cc:811-876 | output i has the i-th number, the i-th piece and its size, and the files are well formed, disjoint, and hold exactly the entries written |
| `CompactionRun.Compact` | WaterMyPlants/Pods/leveldb-library/db/db_impl.cc:860-1000 | a whole compaction installs the files that the cut survivors make, keeps the version invariant, invents nothing, and preserves the files' reads iff no key is exposed |
| `CompactionRun.TrivialMoveIff` | WaterMyPlants/Pods/leveldb-library/db/version_set.cc:1515-1523 | a compaction above the last two levels is a move exactly when it has one input and no different files of the level after the next that overlap its range add up to more than the limit |
| `CompactionRun.Move` | WaterMyPlants/Pods/leveldb-library/db/db_impl.cc:718-725 | a trivial move keeps the version invariant and every entry |
| `CompactionRun.UnsplitExposesNothing` | WaterMyPlants/Pods/leveldb-library/db/version_set.cc:1407-1411 | compacting into a level in which no user key is split exposes nothing |
| `Install.ReplacedInv` | WaterMyPlants/Pods/leveldb-library/db/db_impl.cc:860-876 | installing a compaction or a move keeps: well-formed sorted disjoint levels, unique numbers, and lower levels newer than higher ones on every shared user key |
| `Install.AddedInv` | WaterMyPlants/Pods/leveldb-library/db/db_impl.cc:510-525 | installing a flushed memtable at the picked level keeps the same invariant and adds exactly its entries |
| `Edits.LogAndApply` | WaterMyPlants/Pods/leveldb-library/db/version_set.cc:816-821 | the next version's lists are the current ones with the edit applied, sorted |
| `Edits.ApplyCompaction` | WaterMyPlants/Pods/leveldb-library/db/db_impl.cc:860-876 | deleting the inputs and adding the outputs gives the replaced version, invariant kept |
| `Edits.ApplyFlush` | WaterMyPlants/Pods/leveldb-library/db/db_impl.cc:535-556 | adding the flushed file gives the extended version, invariant kept |
| `MemTable.InsertInto` | WaterMyPlants/Pods/leveldb-library/db/write_batch.cc:132-137 | operation i of a record enters the memtable with the record's sequence number plus i |
| `MemTable.AgreeAfterAppend` | WaterMyPlants/Pods/leveldb-library/db/db_impl.cc:1206-1234 | adding a group's entries to a store that reads as a history makes it read as the extended history |
| `WriteGroups.BuildBatchGroup` | WaterMyPlants/Pods/leveldb-library/db/db_impl.cc:1260-1306 | the group is the longest prefix of the queue whose followers are admitted (no sync write behind a non-sync leader, byte limits); its operations are the batches in order; the scratch batch holds them iff there is more than one batch and is empty otherwise |
| `WriteGroups.GroupUnique` | WaterMyPlants/Pods/leveldb-library/db/db_impl.cc:1260-1306 | the queue determines the group |
| `WriteGroups.BatchRange` | WaterMyPlants/Pods/leveldb-library/db/write_batch.cc:144-148 | each batch occupies one contiguous range of sequence numbers, in queue order |
| `WriteGroups.SnapshotSeesWholeBatches` | WaterMyPlants/Pods/leveldb-library/db/db_impl.cc:1166-1169 | a sequence number between two writers has all of a batch below it or none of it |
| `WriteGroups.BoundarySeesWholeBatches` | WaterMyPlants/Pods/leveldb-library/db/db_impl.cc:1166-1169 | the history up to such a number contains every batch whole, as one range, or no part of it |
| `WriteBatch.Batch.Add` | WaterMyPlants/Pods/leveldb-library/db/write_batch.cc:98-109 | the bytes stay the encoding of sequence number, count and operations, with one more operation |
| `WriteBatch.Batch.Append` | WaterMyPlants/Pods/leveldb-library/db/write_batch.cc:144-148 | the bytes become the encoding of both batches' operations, one after the other |
| `WriteBatch.Batch.SetSequence` | WaterMyPlants/Pods/leveldb-library/db/write_batch.cc:94-96 | only the sequence number changes |
| `WriteBatch.Iterate` | WaterMyPlants/Pods/leveldb-library/db/write_batch.cc:42-80 | the operations of an encoded batch come back in order; whatever is accepted has as many operations as its header says |
| `WriteBatch.WriteThenRecover` | WaterMyPlants/Pods/leveldb-library/db/db_impl.cc:416-440 | any batches, encoded, logged, and the log cut anywhere: recovery gets exactly the batches whose records end inside the cut, each whole, with sequence number and operations; this is what a crash leaves of the logs in the database model |
| `Flush.WriteLevel0Table` | WaterMyPlants/Pods/leveldb-library/db/db_impl.cc:491-533 | writing out a memtable adds one file with exactly its entries at the level picked for it, or at level 0 in recovery, and keeps the invariant; an empty one leaves no file |
| `Flush.RecoverLogFile` | WaterMyPlants/Pods/leveldb-library/db/db_impl.cc:371-489 | replaying a log puts exactly its operations, with their sequence numbers, into level-0 tables, wherever the tables are cut |
| `Recovery.ReplayLogs` | WaterMyPlants/Pods/leveldb-library/db/db_impl.cc:316-369 | replaying the logs numbered at or above the manifest's, lowest first, restores the whole logged history, its last sequence number, and a fresh number above every log |
| `Recovery.LogsTorn` | WaterMyPlants/Pods/leveldb-library/db/db_impl.cc:1211-1234 | without a record that was still being written, the logs hold exactly the published history |
| `Db.DBImpl.constructor` | WaterMyPlants/Pods/leveldb-library/db/db_impl.cc:182-212 | a new database satisfies the invariant with an empty history |
| `Db.DBImpl.Enqueue` | WaterMyPlants/Pods/leveldb-library/db/db_impl.cc:1185-1193 | a writer joins the end of the queue |
| `Db.DBImpl.BeginWrite` | WaterMyPlants/Pods/leveldb-library/db/db_impl.cc:1202-1216 | the leader's group gets the next sequence numbers and its record is appended to the current log |
| `Db.DBImpl.InsertNext` | WaterMyPlants/Pods/leveldb-library/db/write_batch.cc:117-130 | one more operation of the group enters the memtable, invisible to readers until published |
| `Db.DBImpl.FinishWrite` | WaterMyPlants/Pods/leveldb-library/db/db_impl.cc:1232-1250 | the group is published at once; its writers, and only they, are acknowledged; the scratch batch is empty again |
| `Db.DBImpl.FinishEmptyWrite` | WaterMyPlants/Pods/leveldb-library/db/db_impl.cc:1200-1206 | a writer without a batch is acknowledged alone |
| `Db.DBImpl.MakeRoomForWrite` | WaterMyPlants/Pods/leveldb-library/db/db_impl.cc:1310-1370 | room iff the memtable has space and no switch is forced, or the switch is possible (no immutable memtable, fewer than 12 level-0 files); a switch moves memtable and log together |
| `Db.DBImpl.CompactMemTable` | WaterMyPlants/Pods/leveldb-library/db/db_impl.cc:535-566 | the immutable memtable becomes one file at the picked level, its entries join the files, and the manifest records the new version and the current log |
| `Db.DBImpl.DeleteObsoleteFiles` | WaterMyPlants/Pods/leveldb-library/db/db_impl.cc:223-278 | deletes exactly the logs below the manifest's number, none of which recovery needs |
| `Db.DBImpl.DoCompaction` | WaterMyPlants/Pods/leveldb-library/db/db_impl.cc:729-738 | the cut survivors replace the inputs, the manifest follows; reads at live snapshots stay right iff they were and this compaction exposes no key |
| `Db.DBImpl.DoMove` | WaterMyPlants/Pods/leveldb-library/db/db_impl.cc:718-725 | moves one file down, no read changes |
| `Db.DBImpl.CompactFrom` | WaterMyPlants/Pods/leveldb-library/db/db_impl.cc:688-738 | one step of automatic compaction from a file: exactly the inputs that the pick from that file determines, a move iff trivial, otherwise the cut survivors, installed in place of the inputs; nothing else changes; the reads flag is kept iff no key is exposed |
| `Db.DBImpl.CompactKeyRange` | WaterMyPlants/Pods/leveldb-library/db/db_impl.cc:696-738 | a manual compaction of exactly the inputs that the range and the limits determine, never a move; nothing at all changes iff no file of the level overlaps the range |
| `Db.DBImpl.GetSnapshot` | WaterMyPlants/Pods/leveldb-library/db/db_impl.cc:1166-1169 | records the last published sequence number |
| `Db.DBImpl.ReleaseSnapshot` | WaterMyPlants/Pods/leveldb-library/db/snapshot.h:79-86 | removes that snapshot and no other |
| `Db.DBImpl.Get` | WaterMyPlants/Pods/leveldb-library/db/db_impl.cc:1100-1145 | memtable, immutable memtable, files: the answer is the newest visible entry of the whole store; the snapshot sees every batch whole or not at all; and (no key exposed so far) the answer is the value that the acknowledged batches up to the snapshot leave at the key |
| `Db.DBImpl.CrashAndRecover` | WaterMyPlants/Pods/leveldb-library/db/db_impl.cc:1474-1515 | after a crash exactly the published history is back, with the record in flight whole or not at all, all of it in files; memory, queue and snapshots are empty; reads are as before |
| `Runs.Perform` | WaterMyPlants/Pods/leveldb-library/db/db_impl.cc:1185-1370 | each of twelve kinds of step changes exactly what the step relation says (arrival, room, logging a group, one insertion, publication, flush, log deletion, automatic and manual compaction, snapshot, release, crash) and nothing else; a step that is not enabled changes nothing; the invariant is kept |
| `Runs.Run` | WaterMyPlants/Pods/leveldb-library/db/db_impl.cc:1100-1370 | any steps from an empty database, as a trace of states that each satisfy the invariant: the known writers are arrivals in order, all of them if there is no crash; a read at the given snapshot sees whole batches and the newest visible entries, and returns what the acknowledged batches left there if no compaction of the run exposed a key; none did if no compaction met a next level with a split user key |
| `Runs.IntactIff` | WaterMyPlants/Pods/leveldb-library/db/db_impl.cc:688-738 | the flag under which reads are right is, at every point of every run, exactly that no compaction so far exposed a key |
| `Runs.UnsplitRunExposesNothing` | WaterMyPlants/Pods/leveldb-library/db/version_set.cc:1407-1411 | a run whose compactions never meet a split user key in their next level exposes nothing |
| `Runs.AcknowledgedForever` | WaterMyPlants/Pods/leveldb-library/db/db_impl.cc:1232-1250 | acknowledged writers stay acknowledged, in the same places, across all later steps and crashes |
| `Runs.SnapshotIsFrozen` | WaterMyPlants/Pods/leveldb-library/db/db_impl.cc:1166-1169 | a snapshot's number stands for exactly the batches acknowledged when it was taken, however the run goes on |
| `Runs.KnownArrived` | WaterMyPlants/Pods/leveldb-library/db/db_impl.cc:1185-1193 | at every point of every run the known writers are arrivals, each once and in order; without a crash, all of them |
| `MergingIterator.Iterator.SeekToFirst` | WaterMyPlants/Pods/leveldb-library/table/merger.cc:31-37 | stands at the first entry of the sorted union |
| `MergingIterator.Iterator.SeekToLast` | WaterMyPlants/Pods/leveldb-library/table/merger.cc:39-45 | stands at the last entry of the union |
| `MergingIterator.Iterator.Seek` | WaterMyPlants/Pods/leveldb-library/table/merger.cc:47-53 | stands at the first entry of the union at or after the target |
| `MergingIterator.Iterator.Next` | WaterMyPlants/Pods/leveldb-library/table/merger.cc:55-79 | one position on in the union, after a change of direction too |
| `MergingIterator.Iterator.Prev` | WaterMyPlants/Pods/leveldb-library/table/merger.cc:81-108 | one position back in the union, after a change of direction too |
| `TwoLevelIterator.Iterator.Seek` | WaterMyPlants/Pods/leveldb-library/table/two_level_iterator.cc:82-87 | stands at the first entry of the concatenation at or after the target, found with one index search and one block search |
| `TwoLevelIterator.Iterator.SeekToFirst` | WaterMyPlants/Pods/leveldb-library/table/two_level_iterator.cc:89-94 | stands at the first entry, empty blocks skipped |
| `TwoLevelIterator.Iterator.SeekToLast` | WaterMyPlants/Pods/leveldb-library/table/two_level_iterator.cc:96-101 | stands at the last entry, empty blocks skipped |
| `TwoLevelIterator.Iterator.Next` | WaterMyPlants/Pods/leveldb-library/table/two_level_iterator.cc:103-126 | one position on in the concatenation |
| `TwoLevelIterator.Iterator.Prev` | WaterMyPlants/Pods/leveldb-library/table/two_level_iterator.cc:109-139 | one position back in the concatenation |
| `DbIter.LiveIsRead` | WaterMyPlants/Pods/leveldb-library/db/db_iter.cc:35-40 | the live entries at a sequence number are exactly the pairs that point reads find |
| `DbIter.LiveKeysIncrease` | WaterMyPlants/Pods/leveldb-library/db/db_iter.cc:35-40 | live entries have distinct increasing user keys |
| `DbIter.DBIter.Next` | WaterMyPlants/Pods/leveldb-library/db/db_iter.cc:141-198 | moves to the next live entry, over invisible, overwritten and deleted ones and after a change of direction |
| `DbIter.DBIter.Prev` | WaterMyPlants/Pods/leveldb-library/db/db_iter.cc:200-267 | moves to the previous live entry, likewise |
| `DbIter.DBIter.Seek` | WaterMyPlants/Pods/leveldb-library/db/db_iter.cc:269-281 | stands on the first live entry with a key at or after the target |
| `DbIter.DBIter.SeekToFirst` | WaterMyPlants/Pods/leveldb-library/db/db_iter.cc:283-292 | stands on the first live entry |
| `DbIter.DBIter.SeekToLast` | WaterMyPlants/Pods/leveldb-library/db/db_iter.cc:294-299 | stands on the last live entry |
| `Scan.NewInternalIterator` | WaterMyPlants/Pods/leveldb-library/db/db_impl.cc:1062-1087 | memtables and files as children: a cursor over exactly the store's entries in order |
| `Scan.ScanForward` | WaterMyPlants/Pods/leveldb-library/db/db_impl.cc:1147-1157 | a full scan at a snapshot lists in key order exactly the map that the acknowledged batches leave (no key exposed so far) |
| `SkipList.List.FindGreaterOrEqual` | WaterMyPlants/Pods/leveldb-library/db/skiplist.h:260-282 | the first node at or after the key, with the predecessor at every level in use |
| `SkipList.List.FindLessThan` | WaterMyPlants/Pods/leveldb-library/db/skiplist.h:284-302 | the last node before the key, or the head |
| `SkipList.List.FindLast` | WaterMyPlants/Pods/leveldb-library/db/skiplist.h:304-322 | the last node, or the head |
| `SkipList.List.BeginInsert` | WaterMyPlants/Pods/leveldb-library/db/skiplist.h:337-361 | finds the predecessors, raises the height and allocates the node without disturbing any level |
| `SkipList.List.StoreOwnLink` | WaterMyPlants/Pods/leveldb-library/db/skiplist.h:362-366 | the new node's own link, set before it is reachable, keeps every level sorted and nested |
| `SkipList.List.PublishLink` | WaterMyPlants/Pods/leveldb-library/db/skiplist.h:367-368 | publishing one level adds the node to that level only and keeps every level sorted and contained in the one below |
| `SkipList.ReaderUndisturbed` | WaterMyPlants/Pods/leveldb-library/db/skiplist.h:353-368 | no store disturbs a search in progress |
| `SkipList.SearchWhileWriting` | WaterMyPlants/Pods/leveldb-library/db/skiplist.h:255-282 | a lock-free search with the scheduled stores of the writer between its loads, and any height it may have read: the list goes through exactly those stores, the search through exactly the loads between them, and it returns the first node at or after the target among those present at its last load; no key is lost and those gained were in progress or asked for |
| `SkipList.Write` | WaterMyPlants/Pods/leveldb-library/db/skiplist.h:337-368 | each step of the writer stores exactly one link or allocates one node; a step out of turn, or a key that is there, changes nothing |
| `SkipList.KeysStep` | WaterMyPlants/Pods/leveldb-library/db/skiplist.h:362-368 | a key becomes findable exactly at the store that publishes its node at the lowest level; no other store changes the keys |
| `SkipList.KeysGained` | WaterMyPlants/Pods/leveldb-library/db/skiplist.h:337-368 | over any run of stores no key is lost, and those gained were in progress at the start or asked for |
| `Crc.ExtendConcat` | WaterMyPlants/Pods/leveldb-library/util/crc32c.h:14-20 | extending the checksum of a prefix gives the checksum of the whole |
| `Crc.StepInjective` | WaterMyPlants/Pods/leveldb-library/util/crc32c.cc:276-380 | one byte's step is injective in the state and in the byte |
| `Crc.BurstDetected` | WaterMyPlants/Pods/leveldb-library/util/crc32c.cc:276-380 | strings that differ only in a window of up to four bytes have different checksums |
| `Crc.KnownValue` | WaterMyPlants/Pods/leveldb-library/util/crc32c.cc:276-380 | the checksum of 32 zero bytes is the standard's value |
| `Crc.MaskRoundTrip` | WaterMyPlants/Pods/leveldb-library/util/crc32c.h:29-39 | unmasking a masked checksum gives it back |
| `Crc.Fixed32RoundTrip` | WaterMyPlants/Pods/leveldb-library/util/coding.cc:9-18 | decoding an encoded 32-bit number gives it back |
| `Log.Writer.EmitPhysicalRecord` | WaterMyPlants/Pods/leveldb-library/db/log_writer.cc:82-108 | appends header (masked checksum of kind and payload, length, kind) and payload |
| `Log.Writer.AddRecord` | WaterMyPlants/Pods/leveldb-library/db/log_writer.cc:34-80 | appends one record, possibly empty, as physical records that never cross a block, split only where a block ends and never with nothing left; earlier bytes stay |
| `LogReader.Reader.ReadPhysicalRecord` | WaterMyPlants/Pods/leveldb-library/db/log_reader.cc:189-271 | on any prefix of a written log: the next physical record, or the end of the file exactly when that record is not wholly there; nothing reported |
| `LogReader.Reader.ReadRecord` | WaterMyPlants/Pods/leveldb-library/db/log_reader.cc:56-174 | the next logical record, or false at the tear with the partial one dropped silently |
| `LogReader.AcceptsExactly` | WaterMyPlants/Pods/leveldb-library/db/log_reader.cc:84-170 | after any sequence of delivered fragments, whole or not: a record is returned exactly for a full one or for a last fragment that ends an unbroken run from a first one, and is that run; fragments out of place, broken runs and unknown kinds are reported, nothing else is |
| `LogReader.CorruptionDetected` | WaterMyPlants/Pods/leveldb-library/db/log_reader.cc:244-256 | a written record with up to four neighbouring bytes of kind and payload changed is refused and reported once, except that an empty record whose kind became zero is passed over silently |
| `LogReader.ChecksumChanged` | WaterMyPlants/Pods/leveldb-library/db/log_reader.cc:244-256 | a written record with any other stored checksum is refused and reported |
| `LogReader.TornTailRoundTrip` | WaterMyPlants/Pods/leveldb-library/db/log_reader.cc:56-271 | write any records, cut the file anywhere, read: the file is a log of exactly the records with known ends, exactly the records that end inside the cut come back, in order, and no corruption is reported |
| `PbVarint.EncodeVarint` | WaterMyPlants/Pods/nanopb/pb_encode.c:608-628 | the bytes are the base-128 encoding of the value |
| `Block.BlockBuilder.Add` | WaterMyPlants/Pods/leveldb-library/table/block_builder.cc:72-105 | one more entry: stored whole at every multiple of the restart interval, otherwise without the longest prefix it shares with the previous key |
| `Block.BlockBuilder.Finish` | WaterMyPlants/Pods/leveldb-library/table/block_builder.cc:62-70 | entries, restart offsets, their number |
| `Block.FinishedAtMost` | WaterMyPlants/Pods/leveldb-library/table/block_builder.cc:62-105 | a finished block is at most nineteen bytes an entry and eight bytes larger than its keys and values |
| `BlockIter.GetVarint32` | WaterMyPlants/Pods/leveldb-library/util/coding.cc:112-128 | decodes an encoded 32-bit value and leaves the rest |
| `BlockIter.DecodeEntry` | WaterMyPlants/Pods/leveldb-library/table/block.cc:54-74 | the three sizes of a stored entry, on the fast and the slow path, never past the limit |
| `BlockIter.Iterator.ParseNextKey` | WaterMyPlants/Pods/leveldb-library/table/block.cc:224-251 | rebuilds the key of the next entry from the previous one; false iff there is none |
| `BlockIter.Iterator.Next` | WaterMyPlants/Pods/leveldb-library/table/block.cc:137-140 | one entry on |
| `BlockIter.Iterator.Prev` | WaterMyPlants/Pods/leveldb-library/table/block.cc:142-161 | the immediate predecessor; off the block from the first entry |
| `BlockIter.Iterator.Seek` | WaterMyPlants/Pods/leveldb-library/table/block.cc:163-201 | the first entry at or after the target, as a linear scan would find it |
| `BlockIter.Iterator.SeekToFirst` | WaterMyPlants/Pods/leveldb-library/table/block.cc:203-206 | the first entry |
| `BlockIter.Iterator.SeekToLast` | WaterMyPlants/Pods/leveldb-library/table/block.cc:208-213 | the last entry |
| `BlockIter.RoundTrip` | WaterMyPlants/Pods/leveldb-library/table/block_builder.cc:62-105 | any pairs and any restart interval: the block built holds exactly the pairs with restarts at the multiples of the interval; if it is below 2^32 bytes, as it is when keys and values leave room for nineteen bytes an entry and eight more, iterating it gives the pairs back in order |
| `Comparator.FindShortestSeparator` | WaterMyPlants/Pods/leveldb-library/util/comparator.cc:29-50 | the shared prefix and the next byte of start plus one, exactly if that byte is below 0xff and the result below the limit's byte; otherwise start; at or after start and before the limit |
| `Comparator.FindShortSuccessor` | WaterMyPlants/Pods/leveldb-library/util/comparator.cc:52-64 | the key up to its first byte below 0xff, that byte plus one; the key itself iff there is none |
| `Comparator.InternalSeparator` | WaterMyPlants/Pods/leveldb-library/db/dbformat.cc:69-86 | the separator of the user keys with the greatest trailer exactly if it is shorter, otherwise the start key; at or after the start key, before the limit; if changed, its user key is strictly between |
| `Comparator.InternalSuccessor` | WaterMyPlants/Pods/leveldb-library/db/dbformat.cc:88-101 | the successor of the user key with the greatest trailer exactly if it is shorter, otherwise the key |
| `Bloom.CreateFilter` | WaterMyPlants/Pods/leveldb-library/util/bloom.cc:28-54 | a bit is set exactly if it is a probe of some key; every key added matches; the size is exact |
| `Bloom.KeyMayMatch` | WaterMyPlants/Pods/leveldb-library/util/bloom.cc:56-80 | true iff every probed bit is set (or the encoding is reserved); false on an empty filter |
| `FilterBlock.FilterBlockBuilder.StartBlock` | WaterMyPlants/Pods/leveldb-library/table/filter_block.cc:21-27 | keys added so far go to the group of their own block offset |
| `FilterBlock.FilterBlockBuilder.GenerateFilter` | WaterMyPlants/Pods/leveldb-library/table/filter_block.cc:51-75 | the pending keys become the next group's filter |
| `FilterBlock.FilterBlockBuilder.Finish` | WaterMyPlants/Pods/leveldb-library/table/filter_block.cc:35-49 | filters, offset array, its position and the base, within a bound on the size |
| `FilterBlock.FilterMayMatch` | WaterMyPlants/Pods/leveldb-library/table/filter_block.cc:77-104 | true iff there is no filter for the offset, or every probe of the key is a probe of some key of the group; so a key added for a block at that offset is never ruled out |
| `Table.TableBuilder.Add` | WaterMyPlants/Pods/leveldb-library/table/table_builder.cc:94-123 | the key joins the current block, which is written exactly when it is full; the waiting index entry separates the previous block from the key |
| `Table.TableBuilder.Flush` | WaterMyPlants/Pods/leveldb-library/table/table_builder.cc:125-139 | the block is written, contents unchanged, its index entry pending; blocks lie one after the other, five bytes of trailer between them |
| `Table.TableBuilder.Finish` | WaterMyPlants/Pods/leveldb-library/table/table_builder.cc:198-253 | a table whose blocks lie one after the other, whose index separates them and whose filters hold every user key |
| `Table.InternalGet` | WaterMyPlants/Pods/leveldb-library/table/table.cc:216-244 | what one index search, one filter probe and one block search deliver is the first entry at or after the key in the whole table, delivered whenever it has the key's user key |
| `Table.BuildThenGet` | WaterMyPlants/Pods/leveldb-library/table/table_builder.cc:94-253 | every sorted input, every lookup key: the table built holds exactly the input, cut after every full block, and its index separates its blocks; if its filter block is below 2^32 bytes, as it is when a bound on the input's size is, the lookup agrees with a linear scan of the input |
| `Table.BlocksAreModest` | WaterMyPlants/Pods/leveldb-library/table/table_builder.cc:125-139 | data blocks as the block builder makes them are as small as that bound assumes |
| `HandleTable.Table.Lookup` | WaterMyPlants/Pods/leveldb-library/util/cache.cc:74-76 | the table is a map: finds the key's handle or nothing |
| `HandleTable.Table.Insert` | WaterMyPlants/Pods/leveldb-library/util/cache.cc:78-92 | maps the key to the new handle and returns the one it replaces; the array's length stays a power of two and at least the number of entries, growing only when exceeded |
| `HandleTable.Table.Remove` | WaterMyPlants/Pods/leveldb-library/util/cache.cc:94-102 | unmaps the key and returns its handle |
| `HandleTable.Rehash` | WaterMyPlants/Pods/leveldb-library/util/cache.cc:122-146 | moving every chained entry to the least power of two from 4 on that holds them keeps the same map |
| `LruCache.LRUCache.Insert` | WaterMyPlants/Pods/leveldb-library/util/cache.cc:266-303 | the caller holds the new handle; a cached handle with the same key leaves, deleted iff no client holds it; then the shortest prefix of the LRU list that makes the charge fit (or all of it) is evicted and deleted, oldest first; nothing else is deleted and every client keeps its references |
| `LruCache.LRUCache.Lookup` | WaterMyPlants/Pods/leveldb-library/util/cache.cc:252-259 | finds the handle of the key, counts one more reference and takes it off the LRU list if it was unreferenced |
| `LruCache.LRUCache.Release` | WaterMyPlants/Pods/leveldb-library/util/cache.cc:225-237 | gives one reference back; the deleter runs exactly when it was the last and the handle is not cached; a cached handle then goes to the end of the LRU list, which always is the unreferenced cached handles in the order of their last release |
| `LruCache.LRUCache.Ref` | WaterMyPlants/Pods/leveldb-library/util/cache.cc:217-223 | one more reference; an unreferenced handle moves to the in-use list |
| `LruCache.LRUCache.FinishErase` | WaterMyPlants/Pods/leveldb-library/util/cache.cc:307-316 | the handle leaves the cache and the usage; it is deleted exactly when no client holds it |
| `LruCache.LRUCache.Erase` | WaterMyPlants/Pods/leveldb-library/util/cache.cc:318-321 | an absent key changes nothing; otherwise the key is unmapped, its handle leaves both lists and the usage, and is deleted iff no client holds it; all else stays |
| `LruCache.OrderReleased` | WaterMyPlants/Pods/leveldb-library/util/cache.cc:217-237 | releasing a handle last puts it last in the order of last releases |
| `LruCache.LRUCache.EvictOldest` | WaterMyPlants/Pods/leveldb-library/util/cache.cc:293-300 | removes the head of the LRU list from list, table and usage, and deletes it |
| `LruCache.LRUCache.Prune` | WaterMyPlants/Pods/leveldb-library/util/cache.cc:323-333 | deletes exactly the LRU list, oldest first, and leaves the in-use list and every client's references alone |
| `PbVarint.DecodeVarint` | WaterMyPlants/Pods/nanopb/pb_decode.c:255-275 | decodes any encoded 64-bit value and leaves the rest |
| `PbVarint.DecodeVarint32` | WaterMyPlants/Pods/nanopb/pb_decode.c:187-247 | decodes any encoded 32-bit value and leaves the rest; end of stream iff there is no first byte |
| `PbVarint.ZigZagRoundTrip` | WaterMyPlants/Pods/nanopb/pb_encode.c:630-639 | zigzag coding of a 64-bit integer is undone by the decoder; odd codes are exactly the negative numbers; magnitudes halve |
| `PbVarint.SignedRoundTrip` | WaterMyPlants/Pods/nanopb/pb_decode.c:1332-1367 | two's complement coding is undone, in 64 bits and for 32-bit values in 32 |
| `PbEncode.PbWrite` | WaterMyPlants/Pods/nanopb/pb_encode.c:103-124 | succeeds iff there is room, counts every byte, and stores it unless the stream only sizes |
| `PbEncode.EncodeSubmessage` | WaterMyPlants/Pods/nanopb/pb_encode.c:717-765 | length and message; the second pass writes exactly as many bytes as the first counted, so the size check never fails |
| `PbEncode.PackedSize` | WaterMyPlants/Pods/nanopb/pb_encode.c:165-190 | the length written before a packed array is the length of its data |
| `PbEncode.EncodeArray` | WaterMyPlants/Pods/nanopb/pb_encode.c:147-236 | an empty array writes nothing, one over its bound fails, otherwise the packed or keyed items |
| `PbEncode.EncodeField` | WaterMyPlants/Pods/nanopb/pb_encode.c:341-426 | a field by its rule |
| `PbEncode.Encode` | WaterMyPlants/Pods/nanopb/pb_encode.c:528-550 | succeeds iff everything is within its bounds and there is room, and then the stream grew by exactly the message's wire form, stored or only counted |
| `PbRoundTrip.GetEncodedSize` | WaterMyPlants/Pods/nanopb/pb_encode.c:567-576 | the size computed in advance is the length of the wire form |
| `PbDecode.IterNext` | WaterMyPlants/Pods/nanopb/pb_common.c:20-76 | the next field, wrapping around, with the count of required fields before it |
| `PbDecode.IterFind` | WaterMyPlants/Pods/nanopb/pb_common.c:78-95 | from any position, finds the field with the tag iff there is one |
| `PbDecode.CheckRequired` | WaterMyPlants/Pods/nanopb/pb_decode.c:1032-1073 | passes iff every required field within the bitmap was seen, from any iterator position |
| `PbDecode.DecodeItem` | WaterMyPlants/Pods/nanopb/pb_decode.c:1321-1530 | the item just encoded is read back and the rest left |
| `PbDecode.DecodePacked` | WaterMyPlants/Pods/nanopb/pb_decode.c:418-447 | a packed array is read back item by item |
| `PbDecode.DecodeField` | WaterMyPlants/Pods/nanopb/pb_decode.c:406-483 | a chunk of a field continues what its slot holds |
| `PbDecode.SkipField` | WaterMyPlants/Pods/nanopb/pb_decode.c:321-331 | skipping by wire type removes exactly the payload of a chunk of any field of that wire type; other wire types are refused |
| `PbDecode.DecodeMessage` | WaterMyPlants/Pods/nanopb/pb_decode.c:928-1076 | any bytes: what is written fits the message's C structure; the encoding of a message, decoded with any part of its descriptor, is consumed entirely, unknown fields skipped, passes the required-field check and gives exactly that part back, if the announced lengths are 32-bit numbers |
| `PbRoundTrip.RoundTrip` | WaterMyPlants/Pods/nanopb/pb_encode.c:528-550 | every well-formed descriptor, message and buffer size: encoding succeeds iff the message fits, and decoding the bytes gives the message back with nothing left if the announced lengths are 32-bit numbers, as they are below 2^32 bytes |
| `PbRoundTrip.Decode` | WaterMyPlants/Pods/nanopb/pb_decode.c:1078-1101 | any bytes: every value decoded fits its field and no array is overrun; an encoding gives its message back |
| `PbRoundTrip.DecodePart` | WaterMyPlants/Pods/nanopb/pb_decode.c:960-990 | encoded with one descriptor and decoded with another that has some of its fields: exactly the slots of those fields come back and everything is consumed |
| `KnownBytes.ProtocolBuffers` | WaterMyPlants/Pods/nanopb/pb_encode.c:669-715 | the integer, string and packed-array examples of the Protocol Buffers encoding description |
| `KnownBytes.VersionEdits` | WaterMyPlants/Pods/leveldb-library/db/version_edit.cc:14-85 | the bytes of one item of each kind |
| `KnownBytes.WriteBatches` | WaterMyPlants/Pods/leveldb-library/db/write_batch.cc:98-109 | the bytes of a put and of a delete |
| `KnownBytes.BlockEntries` | WaterMyPlants/Pods/leveldb-library/table/block_builder.cc:72-105 | the bytes of a compressed entry and of a restart array |
| `KnownBytes.LogHeaders` | WaterMyPlants/Pods/leveldb-library/db/log_writer.cc:82-96 | length and kind bytes of a log record's header |

## Left out

- The Swift application: views, Core Data, Firebase and notifications over libraries whose source is not here.
- Input and output errors, background errors, failed syncs, shutdown during background work: every file operation succeeds.
- Machine crashes that lose unsynced bytes: a crash here is a process crash; a log keeps every complete record.
- Log reuse on recovery (`reuse_logs`), old-format previous-log numbers, repair.
- A memtable flush inside a running compaction (`db_impl.cc:908-918`): each compaction is one step.
- Compaction scoring, seek statistics, read sampling, approximate sizes, options clipping, and which level is compacted when.
- Corrupted blocks, tables, logs and edits: the branches that report corruption in block iterators and table readers are not modelled; the log reader's are.
- Reading a log from an offset other than 0, and resynchronisation.
- Db.DBImpl.BeginWrite: requires sequence numbers below 2^56 for its group, as the code asserts when it packs one (`dbformat.cc:15`) but does not test before; a run's step that would pass the limit is not enabled. 64-bit file numbers do not overflow.
- Db.DBImpl.DeleteObsoleteFiles: models the log files only; which table files, old manifests and temporary files are deleted, and the files kept for iterators and unfinished outputs, are not modelled.
- EditCodec.DecodeFrom: does not characterise which malformed inputs are refused, beyond what an accepted one satisfies.
- WriteBatch.Iterate: does not characterise which malformed inputs are refused, beyond what an accepted one satisfies.
- The byte format of block handles, footers and the metaindex block; compression; block and table caches as file plumbing.
- Sharding of the cache over sixteen LRU caches: each shard is the model.
- Picking.GetOverlappingInputs: bounds are user keys, as the code uses only the user part of its internal-key bounds.
- Version.TableGet: a file lookup is a search of its run; `Table.InternalGet` is the separate result that the table format answers such a search.
- nanopb pointer, callback and extension fields, fixed-count arrays, proto3 fields without presence, non-zero default values, and strings that fill their buffer without a terminator.
- PbRoundTrip.RoundTrip: says nothing about decoding when an announced length does not fit into 32 bits, which the decoder rejects.
- PbDecode.DecodeMessage: of input that is not the encoding of a message it says only that what is decoded fits; which malformed inputs are refused is not characterised.

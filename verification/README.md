# A verified model of the storage engine and the protobuf codec

The application keeps its data in LevelDB and exchanges it through nanopb. This project models the parts of both that
carry their promises and proves those promises with Dafny. Nothing of the original programs is executed here.

`dafny verify dfyconfig.toml` verifies the whole project.

## How it is built

The model follows the program. Code that changes things in place is a class or a method with loops; each is proved
against a function of the old state, and the theorems are about those functions. Protocols are state machines over their
steps, with theorems over every run.

| part | modules |
|---|---|
| Files, versions, compactions, lookups | InternalKeys, Files, Inputs, Compactions, Lookup, Versions, VersionOrder, Rewrites, CompactionReads |
| The database: writes, memtables, flushes, moves, compactions, snapshots | Database, DatabaseInvariant, DatabaseReads, Scores, DatabaseEdits, DatabaseImpl, Resurrection |
| Iterators | Iterators, TwoLevel, InternalIterators, Merging, DatabaseIterator, DatabaseScan, DatabaseIterators |
| The memtable's skip list and its lock-free readers | SkipLists |
| Writing in groups; deleting files | GroupCommit, FileGc |
| Log and recovery | Coding, Crc32c, Crc32cStrided, Crc32cPolynomials, Logs, LogReading, LogDamage, WriteBatches, Recovery |
| Manifest | KeyCoding, ManifestCodec, Manifests, ManifestRecovery, DatabaseManifest |
| Crashes from end to end | Journals, Reopening, Crashes |
| Tables | Blocks, BlockIterator, Comparators, Bloom, FilterBlocks, TableFormat, Tables, TableBuilders, TableReaders |
| Cache | HandleTables, IntrusiveLists, HandleLists, Caches |
| nanopb | PbMessages, PbFieldIter, PbEncode, PbDecode, PbRoundTrip, PbEvolution, PbInputs |
| All formats: faults in the bytes, and the bytes themselves | MalformedInputs, KnownBytes |

## Main results

1. Reads. In every state reachable by writes, flushes, trivial moves and compactions the early-stopping lookup returns
   exactly the newest entry at or below the snapshot (`DatabaseReads.ReachableIsInOrder`, `DatabaseImpl.DBImpl.Get`). The
   iterator put together as the source does, over a merging iterator over the memtables, the tables of level 0 and
   two-level iterators, shows exactly what lookups return, whatever moves are made (`DatabaseIterators.NewIterator`,
   `DatabaseIterators.Scan`, `DatabaseIterator.Drive`).
2. Compaction. It preserves reads if and only if a condition on its inputs holds that can be looked up beforehand
   (`CompactionReads.CompactionPreservesReads`). The condition can fail: `SetupOtherInputs` adds boundary files for the
   inputs of the compacted level (version_set.cc:1407 and 1422) but not for those of the next. When the file behind the
   last one taken from the next level begins with an older value of a user key, and a deletion in that level's inputs is
   the newest entry of that key that the oldest snapshot sees and is dropped, the key comes back. A run that leads there
   exists from every new database (`Resurrection.CompactionCanResurrect`).
3. Concurrency. Skip list readers miss nothing and never read an unwritten link in any interleaving; only the writer at the
   front of the queue works, no wake-up is lost, writers are completed first in first out, and readers see batches whole
   or not at all; no file in use is deleted, and none that is being built.
4. Crashes. After a crash at any point of any run the database can be opened again, and reading it is reading the crashed
   one at the end of the last batch that is whole in the log (`Crashes.CrashIsSurvived`). Behind this: from any prefix of
   a log exactly a prefix of the committed batches is recovered, with their numbers (`Recovery.CrashRecovers`); the
   manifest of any run, cut anywhere, gives the version after the last whole edit
   (`DatabaseManifest.RecoversTheDatabase`); and the recorded numbers select the logs still needed
   (`Journals.RunIsLogged`). The switch to a new log does not sync the one before (db_impl.cc:1356-1357); if a crash cuts
   that one too, there is a gap exactly under the condition of `Crashes.NoGapExactly`. Replay of a manifest by one builder
   agrees with applying the edits in turn if and only if no file is added while it is there
   (`Manifests.ReplayAgreesThroughout`); `ReplayCanDiffer` is an instance where they differ.
5. Formats. Blocks, write batches, edits and protobuf messages are read back as they were written, the last under a
   condition. A lookup in the bytes of a finished table file, through footer, index block with shortened keys, Bloom
   filter and one data block, gives the newest entry at or below it (`TableBuilders.TableBuilder.Finish`,
   `TableReaders.OpenTable.InternalGet`). A protobuf message is read back if and only if every string has its NUL inside its
   array (`PbRoundTrip.RoundTrip`): nanopb's encoder takes a string that fills its array (pb_encode.c:875-899) but its
   decoder wants room for the NUL (pb_decode.c:1468-1501). The fields may come in any order, and a decoder that does not
   know some of them gets the message without those (`PbEvolution.FieldsLeftOut`). That the formats are the ones other
   programs use follows from no round trip; it is stated byte for byte in `KnownBytes`.
6. Damage. With checksums on, no record of a log and no block of a table is handed on unless it matches its checksum, which
   is the remainder of a division by the Castagnoli polynomial (`Crc32cPolynomials.ValueIsRemainder`) and tells every damage
   of up to four neighbouring bytes; what a log reader does not hand on it reports (`LogDamage.RecordsAreChecked`,
   `LogDamage.NothingIsLost`). Faults in batches and edits are reported where they are (`MalformedInputs`).
7. Cache. Table, linked lists, reference counts, usage and deletions stay in agreement through every operation: what is
   cached is what callers put in, the usage is the sum of the charges they gave, and what goes is what they released
   longest ago (`Caches.InsertIsRight`, `Caches.UsageIsGiven`).

## Assumptions

- In the modules about levels, user keys are numbers that stand for places in the comparator's order. The bytewise order
  itself is the subject of Comparators, Tables and BlockIterator. Sequence numbers stay below 2^56 - 1.
- Atomics are sequentially consistent single steps. Flush and compaction are separate steps of the database; how they
  interleave matters for files and is modelled in FileGc.
- Choices that only affect speed are arbitrary: which level is compacted, when an output file is cut, the size of files
  and blocks, the height of a skip list node. Hash functions are arbitrary.
- A table file is its sorted entries in the modules about levels; its bytes are the subject of Blocks, TableFormat, Tables,
  TableBuilders and TableReaders.

## Model

| member | source | states |
|---|---|---|
| InternalKeys.SeekKeySplitsVersions | QFree/Pods/leveldb-library/db/dbformat.cc:51-67 | A lookup key is where the versions a snapshot may see begin: an entry of the user key is at or after it exactly if its sequence number is at most the snapshot |
| Files.FindFile | QFree/Pods/leveldb-library/db/version_set.cc:88-106 | Binary search: every file before the result ends before the key and no later one does |
| Files.SomeFileOverlapsRange | QFree/Pods/leveldb-library/db/version_set.cc:122-157 | True exactly if some file overlaps the range of user keys, in the form for disjoint files and in the other |
| Files.GetRange | QFree/Pods/leveldb-library/db/version_set.cc:1205-1224 | The least smallest and the greatest largest key of some files |
| Inputs.GetOverlappingInputs | QFree/Pods/leveldb-library/db/version_set.cc:519-559 | Above level 0 the files overlapping the request; at level 0 those overlapping the least range that contains the request and is closed under overlap, despite the restarts, which end |
| Inputs.LeastClosedIsUnique | QFree/Pods/leveldb-library/db/version_set.cc:544-556 | There is only one such least closed range |
| Inputs.OverlapSetIsUnique | QFree/Pods/leveldb-library/db/version_set.cc:519-559 | The request determines the files |
| Inputs.WideningProgresses | QFree/Pods/leveldb-library/db/version_set.cc:544-556 | Each restart leaves fewer files sticking out of the range |
| Inputs.FindLargestKey | QFree/Pods/leveldb-library/db/version_set.cc:1326-1340 | The largest key of the files, or nothing exactly if there are none |
| Inputs.FindSmallestBoundaryFile | QFree/Pods/leveldb-library/db/version_set.cc:1344-1362 | The least of the files that continue the last user key of the inputs, or nothing exactly if no file does |
| Inputs.AddBoundaryInputs | QFree/Pods/leveldb-library/db/version_set.cc:1378-1401 | Adds a chain of files, each the next to continue the user key the inputs end with; at its end no file of the level does |
| Inputs.BoundaryChainGrows | QFree/Pods/leveldb-library/db/version_set.cc:1388-1400 | No file is added twice and none of those the chain starts from: the keys only grow |
| Inputs.BoundaryInputsAreChosen | QFree/Pods/leveldb-library/db/version_set.cc:1403-1422 | With the boundary files added, no file of the level left out continues a user key of the inputs |
| Inputs.SetupOtherInputs | QFree/Pods/leveldb-library/db/version_set.cc:1403-1462 | The inputs of both levels: those of the level leave no user key continued in a file left out, those of the next are exactly the files overlapping their user keys; the first level is expanded exactly if that adds files, stays below the size limit and takes in as many files of the next |
| Inputs.PickFile | QFree/Pods/leveldb-library/db/version_set.cc:1284-1303 | The first file past the compaction pointer; the first of all when there is no pointer or no file is past it |
| Inputs.CompactRange | QFree/Pods/leveldb-library/db/version_set.cc:1464-1495 | A manual compaction takes inputs exactly if a file overlaps the range: above level 0 up to the first file at which their size reaches the limit, set up like all others |
| Compactions.Compaction.IsBaseLevelForKey | QFree/Pods/leveldb-library/db/version_set.cc:1533-1552 | With cursors that only move forward: true exactly if no deeper level has a file whose range holds the user key |
| Compactions.Compaction.ShouldDrop | QFree/Pods/leveldb-library/db/db_impl.cc:937-962 | An entry is dropped exactly if a newer one of its user key is at or below the oldest snapshot, or it is a deletion that old and the level is the base level of its key |
| Compactions.Compaction.DoCompactionWork | QFree/Pods/leveldb-library/db/db_impl.cc:878-1036 | Whatever cuts the output into files, the files hold exactly the entries not dropped, in order, and none of them is empty |
| CompactionReads.KeptExactly | QFree/Pods/leveldb-library/db/db_impl.cc:937-962 | Of the inputs those entries are kept that are above the oldest snapshot or the newest of their user key below it, but no deletion at or below it at its base level: so no two entries of a user key that old are kept |
| Lookup.FirstHitAnswers | QFree/Pods/leveldb-library/db/db_impl.cc:1125-1134 | A hit in newer data answers for older data too: why a lookup may stop there |
| Lookup.RunGetAnswers | QFree/Pods/leveldb-library/db/memtable.cc:100-134 | One seek in a sorted run finds the newest entry at or below the snapshot, and says so when there is none |
| Lookup.OneFilePerLevel | QFree/Pods/leveldb-library/db/version_set.cc:282-324 | In a sorted level one file answers, also when the entries of a user key go on in the next file |
| Lookup.Level0Get | QFree/Pods/leveldb-library/db/version_set.cc:282-305 | Level 0, newest file first, answers for all its files |
| Lookup.VersionGet | QFree/Pods/leveldb-library/db/version_set.cc:326-421 | The search level by level that stops at the first hit answers for the union of all levels |
| Versions.Builder.Apply | QFree/Pods/leveldb-library/db/version_set.cc:650-692 | What an edit does to the files a builder has added and deleted and to the compaction pointers of the version set |
| Versions.Builder.SaveTo | QFree/Pods/leveldb-library/db/version_set.cc:694-739 | Each level saved is the merge of base files and added files without the deleted ones |
| VersionOrder.SaveLevelContents | QFree/Pods/leveldb-library/db/version_set.cc:694-739 | A saved level is in order and holds every base or added file that is not deleted as often as they do |
| VersionOrder.OrderIsCanonical | QFree/Pods/leveldb-library/db/version_set.cc:593-605 | An ordered level is determined by the files in it |
| Rewrites.RewriteKeepsVersion | QFree/Pods/leveldb-library/db/version_set.cc:1403-1462 | A compaction or a trivial move keeps every level above 0 sorted and disjoint, numbers unique, and data getting older from level to level and from newer level-0 files to older ones |
| CompactionReads.NextLevelCatches | QFree/Pods/leveldb-library/db/version_set.cc:1408-1411 | An entry of a user key of the inputs is never left out of the inputs of the next level |
| CompactionReads.CompactionPreservesReads | QFree/Pods/leveldb-library/db/db_impl.cc:860-999 | A compaction preserves every read at every snapshot from the oldest on if and only if it drops no deletion of the next level's inputs that is the newest entry of its key at the oldest snapshot while the file behind those inputs begins with an older value of the key |
| CompactionReads.DeletedKeyComesBack | QFree/Pods/leveldb-library/db/version_set.cc:1403-1462 | In that case, exactly, the key reads as deleted before and as its old entry afterwards |
| CompactionReads.EntriesAreUnique | QFree/Pods/leveldb-library/db/version_set.cc:326-421 | In a version in order an entry is determined by its user key and sequence number |
| Resurrection.CompactionCanResurrect | QFree/Pods/leveldb-library/db/version_set.cc:1403-1462 | From any new database there is a run that ends with a compaction the code may do, after which a key that read as deleted reads as its old value |
| Resurrection.BoundaryComesBack | QFree/Pods/leveldb-library/db/version_set.cc:1403-1462 | Whenever the last step of a state in order is such a compaction, the key reads as deleted before it and as the old value after it |
| DatabaseInvariant.FlushKeepsVersion | QFree/Pods/leveldb-library/db/db_impl.cc:491-533 | A table flushed to the level picked keeps the version in order |
| DatabaseInvariant.StepKeepsInv | QFree/Pods/leveldb-library/db/db_impl.cc:535-566 | Every write, switch of memtables, flush, trivial move and compaction keeps the database in order |
| DatabaseReads.ReachableIsInOrder | QFree/Pods/leveldb-library/db/db_impl.cc:688-767 | Every state reachable by such steps, in any order, is in order |
| DatabaseReads.StepKeepsReads | QFree/Pods/leveldb-library/db/db_impl.cc:878-1036 | No step changes what a snapshot reads that is held or is as recent as the oldest held, compactions as far as CompactionPreservesReads allows |
| DatabaseReads.SnapshotReadsAreStable | QFree/Pods/leveldb-library/db/db_impl.cc:1166-1174 | From the call that takes a snapshot to its release it reads the same, whatever steps come between, other snapshots taken and released among them |
| DatabaseReads.SnapshotsHeld | QFree/Pods/leveldb-library/db/db_impl.cc:1166-1174 | Taking a snapshot holds the last sequence number once more than before, releasing one takes away just one occurrence of it, and no other step changes what is held |
| DatabaseReads.TakenIsHeld | QFree/Pods/leveldb-library/db/db_impl.cc:1166-1174 | So a snapshot taken is held in every state up to its release |
| DatabaseReads.WriteIsVisible | QFree/Pods/leveldb-library/db/db_impl.cc:1185-1256 | After a write the present reads the last operation of the batch on each of its keys |
| DatabaseReads.WriteLeavesOthers | QFree/Pods/leveldb-library/db/db_impl.cc:1185-1256 | and every other key reads after the write as it did before |
| DatabaseReads.CompactReadsExactly | QFree/Pods/leveldb-library/db/db_impl.cc:878-1036 | As a step of the database, a compaction preserves all reads from the oldest snapshot on if and only if it uncovers no such value |
| DatabaseImpl.MergeInputs | QFree/Pods/leveldb-library/db/version_set.cc:1237-1268 | The input of a compaction is the sorted union of its files |
| DatabaseImpl.PickLevelForMemTableOutput | QFree/Pods/leveldb-library/db/version_set.cc:491-516 | The deepest level up to two that nothing above or in it and little below it overlaps |
| DatabaseImpl.DBImpl.Write | QFree/Pods/leveldb-library/db/db_impl.cc:1185-1256 | Is the write step: operations are inserted under consecutive sequence numbers |
| DatabaseImpl.DBImpl.LogAndApply | QFree/Pods/leveldb-library/db/version_set.cc:801-884 | The edit is recorded in the manifest with the log numbers, the next file number and the last sequence number it is to have; the current version becomes the one the builder makes from it and the edit; compaction pointers and log numbers are those of the edit where it has any |
| DatabaseImpl.DBImpl.WriteLevel0Table | QFree/Pods/leveldb-library/db/db_impl.cc:491-533 | Writes the memtable under a new number, unless it is empty, and notes it in the edit at the level picked |
| DatabaseImpl.DBImpl.CompactMemTable | QFree/Pods/leveldb-library/db/db_impl.cc:535-566 | Is the flush step, recorded with the number of the log that is needed from now on |
| DatabaseImpl.DBImpl.IsTrivialMove | QFree/Pods/leveldb-library/db/version_set.cc:1515-1523 | True exactly for a lone input that overlaps little of the level after the next |
| DatabaseImpl.DBImpl.InstallCompactionResults | QFree/Pods/leveldb-library/db/db_impl.cc:860-876 | The outputs take the place of the inputs, and the edit that says so is recorded |
| DatabaseImpl.DBImpl.RunCompaction | QFree/Pods/leveldb-library/db/db_impl.cc:688-767 | Is the move step exactly for a trivial move that nobody asked for, and else the compaction step; its edit is recorded |
| DatabaseImpl.DBImpl.PickCompaction | QFree/Pods/leveldb-library/db/version_set.cc:1270-1322 | Compacts exactly if a level has come to its limit or a file was missed by too many seeks: around the first file past the compaction pointer of the level most over its limit, or else around that file; the step is a move or a compaction of the inputs set up, its edit is recorded, and the pointer ends behind them |
| DatabaseImpl.DBImpl.PickTarget | QFree/Pods/leveldb-library/db/version_set.cc:1274-1303 | Size goes before seeks: the file around which to compact, or none exactly if neither calls for it |
| Scores.Finalize | QFree/Pods/leveldb-library/db/version_set.cc:1049-1086 | The first of the levels with the highest score, where the score is how far a level has come to its limit |
| Scores.MaxBytesForLevel | QFree/Pods/leveldb-library/db/version_set.cc:42-53 | The limit of a level grows tenfold with each level |
| Scores.DueExactly | QFree/Pods/leveldb-library/db/version_set.cc:1049-1086 | A level is due with four files if it is level 0, and with ten to the power of its number megabytes else |
| DatabaseImpl.DBImpl.SetCompactPointer | QFree/Pods/leveldb-library/db/version_set.cc:1455-1461 | The next compaction of the level starts behind the largest key of these inputs |
| DatabaseImpl.DBImpl.ManualCompaction | QFree/Pods/leveldb-library/db/db_impl.cc:688-767 | Does nothing exactly if no file overlaps the range, and else a compaction step with the inputs CompactRange sets up |
| DatabaseImpl.DBImpl.Get | QFree/Pods/leveldb-library/db/db_impl.cc:1100-1145 | Memtable, immutable memtable, version, stopping at the first hit: the newest entry at or below the snapshot in the union of them all |
| DatabaseEdits.EditRewrites | QFree/Pods/leveldb-library/db/db_impl.cc:860-876 | Applying the edit of a compaction through the builder gives the rewritten version |
| DatabaseImpl.DBImpl.SwitchMemTable | QFree/Pods/leveldb-library/db/db_impl.cc:1345-1366 | Is the switch step: the memtable becomes the immutable one |
| DatabaseImpl.DBImpl.GetSnapshot | QFree/Pods/leveldb-library/db/db_impl.cc:1166-1169 | The method is the step of the state machine, returns the last sequence number, and that number is held once more than before |
| DatabaseImpl.DBImpl.ReleaseSnapshot | QFree/Pods/leveldb-library/db/db_impl.cc:1171-1174 | The method is the step of the state machine, and the snapshot is held once less; the others stay |
| Inputs.CompactAround | QFree/Pods/leveldb-library/db/version_set.cc:1305-1322 | For any file of the level, inputs that hold it, with all of level 0 that overlaps it |
| Versions.Builder.MaybeAddFile | QFree/Pods/leveldb-library/db/version_set.cc:741-754 | Adds the file exactly if it is not deleted |
| Iterators.RunIterator.Seek | QFree/Pods/leveldb-library/db/version_set.cc:171-173 | The first entry of a sorted run at or after the target |
| Iterators.RunIterator.Next | QFree/Pods/leveldb-library/db/version_set.cc:178-181 | One entry on, or past the end |
| Iterators.RunIterator.Prev | QFree/Pods/leveldb-library/db/version_set.cc:182-189 | One entry back, or past the end from the first |
| Merging.MergingIterator.SeekToFirst | QFree/Pods/leveldb-library/table/merger.cc:31-37 | The first entry of the union, over children that are runs or two-level iterators |
| Merging.MergingIterator.SeekToLast | QFree/Pods/leveldb-library/table/merger.cc:39-45 | The last entry of the union |
| TwoLevel.TwoLevelIterator.SeekToFirst | QFree/Pods/leveldb-library/table/two_level_iterator.cc:89-94 | The first entry of the concatenation, past empty blocks |
| TwoLevel.TwoLevelIterator.SeekToLast | QFree/Pods/leveldb-library/table/two_level_iterator.cc:96-101 | The last entry of the concatenation, past empty blocks |
| TwoLevel.TwoLevelIterator.InitDataBlock | QFree/Pods/leveldb-library/table/two_level_iterator.cc:146-161 | The data cursor is over the block the index names, the old one if that is the block it is over |
| DatabaseIterator.LiveIsWhatReadersGet | QFree/Pods/leveldb-library/db/db_iter.cc:141-299 | The entries an iterator shows are exactly the values readers at its snapshot get |
| DatabaseIterator.LiveIncreases | QFree/Pods/leveldb-library/db/db_iter.cc:141-299 | They are in order of the user keys, one for each |
| DatabaseIterator.DBIter.Next | QFree/Pods/leveldb-library/db/db_iter.cc:141-166 | From either direction, the next live entry |
| DatabaseIterator.DBIter.FindNextUserEntry | QFree/Pods/leveldb-library/db/db_iter.cc:168-198 | Finds the next live entry, past deleted and hidden ones |
| DatabaseIterator.DBIter.Prev | QFree/Pods/leveldb-library/db/db_iter.cc:200-225 | From either direction, the live entry before |
| DatabaseIterator.DBIter.FindPrevUserEntry | QFree/Pods/leveldb-library/db/db_iter.cc:227-267 | Finds the live entry before, reading backwards over all versions of its key |
| DatabaseIterator.DBIter.Seek | QFree/Pods/leveldb-library/db/db_iter.cc:269-281 | The first live entry at or after a user key |
| DatabaseIterator.DBIter.SeekToFirst | QFree/Pods/leveldb-library/db/db_iter.cc:283-292 | The first live entry |
| DatabaseIterator.DBIter.SeekToLast | QFree/Pods/leveldb-library/db/db_iter.cc:294-299 | The last live entry |
| DatabaseIterator.Drive | QFree/Pods/leveldb-library/db/db_iter.cc:141-299 | Any run of moves with any changes of direction ends where a cursor over the live entries would |
| Merging.MergingIterator.Seek | QFree/Pods/leveldb-library/table/merger.cc:47-53 | The first entry of the sorted union of the children at or after the target |
| Merging.MergingIterator.Next | QFree/Pods/leveldb-library/table/merger.cc:55-79 | The next entry of the union, from either direction |
| Merging.MergingIterator.Prev | QFree/Pods/leveldb-library/table/merger.cc:81-108 | The entry of the union before, from either direction |
| Merging.MergingIterator.FindSmallest | QFree/Pods/leveldb-library/table/merger.cc:148-161 | The child with the smallest current key |
| Merging.MergingIterator.FindLargest | QFree/Pods/leveldb-library/table/merger.cc:163-176 | The child with the largest current key |
| TwoLevel.SeekBoth | QFree/Pods/leveldb-library/table/two_level_iterator.cc:82-87 | A seek in the index and one in the block it names are one seek in the concatenation of the blocks |
| TwoLevel.LevelSeparates | QFree/Pods/leveldb-library/db/version_set.cc:211-228 | The files of a sorted level may be walked this way |
| TwoLevel.LevelJoins | QFree/Pods/leveldb-library/db/version_set.cc:223-228 | Their concatenation is sorted and has the entries of all of them |
| TwoLevel.TwoLevelIterator.Seek | QFree/Pods/leveldb-library/table/two_level_iterator.cc:82-87 | Lands where a seek in the concatenation lands, past empty blocks |
| TwoLevel.TwoLevelIterator.Next | QFree/Pods/leveldb-library/table/two_level_iterator.cc:103-107 | The next entry of the concatenation, past empty blocks |
| TwoLevel.TwoLevelIterator.Prev | QFree/Pods/leveldb-library/table/two_level_iterator.cc:109-113 | The entry of the concatenation before |
| TwoLevel.TwoLevelIterator.SkipEmptyDataBlocksForward | QFree/Pods/leveldb-library/table/two_level_iterator.cc:115-126 | Terminates, at the same place of the concatenation or its end |
| TwoLevel.TwoLevelIterator.SkipEmptyDataBlocksBackward | QFree/Pods/leveldb-library/table/two_level_iterator.cc:128-139 | Terminates, at the same place of the concatenation or outside |
| DatabaseScan.LevelRunIsJoined | QFree/Pods/leveldb-library/db/version_set.cc:223-228 | The iterator over a level walks the run of its files |
| DatabaseScan.MergeIsSorted | QFree/Pods/leveldb-library/db/db_impl.cc:1062-1087 | The union of runs that hold different keys is sorted and holds all their entries |
| DatabaseScan.SourcesMerge | QFree/Pods/leveldb-library/db/db_impl.cc:1062-1087 | In every state in order, memtables, level-0 files and levels can be merged: no two share an internal key |
| DatabaseScan.ScanShowsReads | QFree/Pods/leveldb-library/db/db_impl.cc:1147-1157 | The live entries of the merged sources of a database are exactly what reads at the snapshot get |
| DatabaseIterators.NewConcatenatingIterator | QFree/Pods/leveldb-library/db/version_set.cc:159-228 | A two-level iterator over the numbers and sizes of a level's files goes through the entries of the files one after the other |
| DatabaseIterators.NewLevelIterators | QFree/Pods/leveldb-library/db/version_set.cc:238-246 | One such iterator for every deeper level that has files |
| DatabaseIterators.NewInternalIterator | QFree/Pods/leveldb-library/db/db_impl.cc:1062-1087 | The merging iterator over memtables, tables of level 0 and levels ranges over the union of all of them |
| DatabaseIterators.NewIterator | QFree/Pods/leveldb-library/db/db_impl.cc:1147-1157 | The iterator given out ranges over exactly what reads at the snapshot get |
| DatabaseIterators.Scan | QFree/Pods/leveldb-library/db/db_iter.cc:141-198 | Driven from the first pair to the last, it shows every key and value a read at the snapshot gets, once, in the order of the keys, and no other |
| SkipLists.ReachableIsOk | QFree/Pods/leveldb-library/db/skiplist.h:336-368 | In every interleaving of an insertion, load by load and store by store, with any number of readers: all levels are sorted lists, each part of the one below, and every reader is right about what it has passed |
| SkipLists.SearchesAreRight | QFree/Pods/leveldb-library/db/skiplist.h:260-281 | A finished search is right about the keys in the list at its last load, which include all that were there when it began |
| SkipLists.ScansMissNothing | QFree/Pods/leveldb-library/db/skiplist.h:207-232 | A scan, from a key sought or from the first one, has every key from there on that was in the list when it began |
| SkipLists.BackwardScansMissNothing | QFree/Pods/leveldb-library/db/skiplist.h:213-240 | Prev is a search of its own: a scan backwards from any key or from the last one has, once it is at the front, every key up to its start that was there when it began |
| SkipLists.ReadersMayRead | QFree/Pods/leveldb-library/db/skiplist.h:260-281 | A reader is never at a link that has not been written |
| SkipLists.ReadNextProgresses | QFree/Pods/leveldb-library/db/skiplist.h:260-281 | While the list stands still every load brings a search nearer to its end |
| SkipLists.LevelsAreSublists | QFree/Pods/leveldb-library/db/skiplist.h:336-368 | In every such state, following the links of a level yields its keys in order, a sublist of the level below |
| SkipLists.SkipList.FindGreaterOrEqual | QFree/Pods/leveldb-library/db/skiplist.h:260-281 | The first key at or after the one asked for, and at every level the last place before it |
| SkipLists.SkipList.FindLessThan | QFree/Pods/leveldb-library/db/skiplist.h:283-302 | The last key before |
| SkipLists.SkipList.FindLast | QFree/Pods/leveldb-library/db/skiplist.h:304-322 | The last key |
| SkipLists.SkipList.Contains | QFree/Pods/leveldb-library/db/skiplist.h:370-378 | True exactly for the keys in the list |
| SkipLists.SkipList.Insert | QFree/Pods/leveldb-library/db/skiplist.h:336-368 | Adds the key, through a run of the state machine above |
| Coding.FixedInverts | QFree/Pods/leveldb-library/util/coding.cc:9-45 | Fixed-width numbers are read back |
| Coding.VarintRoundTrip | QFree/Pods/leveldb-library/util/coding.cc:112-190 | A varint is read back from the front of any input, within its number of bytes |
| Coding.LengthPrefixedRoundTrip | QFree/Pods/leveldb-library/util/coding.cc:98-190 | A string behind its length is read back from the front of any input |
| KeyCoding.InternalKeyRoundTrip | QFree/Pods/leveldb-library/db/dbformat.cc:20-23 | An internal key is read back from its bytes |
| KeyCoding.PartsInvert | QFree/Pods/leveldb-library/db/dbformat.h:165-175 | and a string of bytes that holds a tag is what its parts are stored as |
| KnownBytes.KeyBytes | QFree/Pods/leveldb-library/db/dbformat.cc:13-23 | An internal key is the user's bytes, the type and seven bytes of sequence number, the lowest first |
| Coding.PutVarint32 | QFree/Pods/leveldb-library/util/coding.cc:47-79 | The five cases write the varint |
| Coding.PutVarint64 | QFree/Pods/leveldb-library/util/coding.cc:81-96 | The loop writes the varint |
| Coding.ReadVarint | QFree/Pods/leveldb-library/util/coding.cc:112-179 | The loop reads what the recursive definition reads, or fails where that fails |
| KnownBytes.VarintExactly | QFree/Pods/leveldb-library/util/coding.cc:47-96 | A varint is the one shortest string of bytes with high bits set but in the last whose digits to the base 128 make up the number |
| KnownBytes.ReadExactly | QFree/Pods/leveldb-library/util/coding.cc:112-179 | A varint is read up to the first byte without a high bit if that is among the first five or ten, and else refused |
| KnownBytes.EndlessIsRefused | QFree/Pods/leveldb-library/util/coding.cc:112-179 | as it is when there is no such byte |
| KnownBytes.FixedBytes | QFree/Pods/leveldb-library/util/coding.cc:9-45 | Fixed-width numbers are stored low byte first |
| Crc32c.ExtendJoins | QFree/Pods/leveldb-library/util/crc32c.h:13-20 | Extending over A and then over B is one pass over A followed by B |
| Crc32c.UnmaskInverts | QFree/Pods/leveldb-library/util/crc32c.h:22-39 | Unmasking undoes masking |
| KnownBytes.MaskedBits | QFree/Pods/leveldb-library/util/crc32c.h:22-32 | Masking turns the checksum right by fifteen bits and adds 0xa282ead8 |
| Crc32cStrided.WordStep | QFree/Pods/leveldb-library/util/crc32c.cc:312-320 | Four byte steps are 32 shifts of the register with a word added in |
| Crc32cStrided.WordIsOr | QFree/Pods/leveldb-library/util/crc32c.cc:249-251 | The word the strided loop reads is its four bytes, the lowest first |
| Crc32cStrided.NextSwath | QFree/Pods/leveldb-library/util/crc32c.cc:293-310 | Four partial registers that each skip sixteen bytes and take up a word stand for one register that took up all four words |
| Crc32cStrided.ExtendStrided | QFree/Pods/leveldb-library/util/crc32c.cc:276-377 | The strided loop is the byte-at-a-time checksum, for every start value, length and alignment |
| Crc32cPolynomials.ValueIsRemainder | QFree/Pods/leveldb-library/util/crc32c.cc:20-376 | The checksum of a message is the remainder, the highest power first, of its bits, complemented at the start and the end, divided by the Castagnoli polynomial x^32 + 0x1edc6f41 |
| Crc32cPolynomials.RemainderIsUnique | QFree/Pods/leveldb-library/util/crc32c.cc:20-376 | There is only one remainder |
| Crc32cPolynomials.ShiftIsProduct | QFree/Pods/leveldb-library/util/crc32c.cc:20-59 | One shift of the register is a product with x, reduced |
| Logs.LogExtends | QFree/Pods/leveldb-library/db/log_writer.cc:23-80 | Records added one after the other, to the same or a reopened file, make one log |
| Logs.Writer.AddRecord | QFree/Pods/leveldb-library/db/log_writer.cc:34-80 | Appends the fragments of the record from the offset the file is at, with trailers and empty first fragments |
| Logs.Writer.EmitPhysicalRecord | QFree/Pods/leveldb-library/db/log_writer.cc:82-108 | Appends one physical record with its checksum, length and kind |
| KnownBytes.PieceBytes | QFree/Pods/leveldb-library/db/log_writer.cc:82-108 | Checksum, length and kind of a piece, byte by byte: masked CRC of kind and payload, low byte of the length first, kinds 1 to 4 |
| KnownBytes.RecordSize | QFree/Pods/leveldb-library/db/log_writer.cc:34-80 | A record written from the beginning of a block takes seven bytes for each 32761 of its own or less |
| LogReading.CutLogReads | QFree/Pods/leveldb-library/db/log_reader.cc:56-174 | Of a log cut at any byte exactly the records all of which is there are read, and nothing is reported |
| LogReading.CrashPrefix | QFree/Pods/leveldb-library/db/log_reader.cc:56-271 | From any prefix of the bytes written the records read are a prefix of those added, the longest that fits, with no corruption reported |
| LogReading.ContainedEndInTime | QFree/Pods/leveldb-library/db/log_reader.cc:56-174 | The records counted are exactly those that end in time |
| LogReading.Reader.ReadPhysicalRecord | QFree/Pods/leveldb-library/db/log_reader.cc:189-271 | Block by block, the next physical record of the file, or the end or a bad one |
| LogReading.Reader.ReadRecord | QFree/Pods/leveldb-library/db/log_reader.cc:56-174 | The next record, put together from its fragments, and what is reported on the way |
| LogDamage.PieceIsChecked | QFree/Pods/leveldb-library/db/log_reader.cc:189-271 | With checksums on, every physical record handed on matches the checksum stored in front of it |
| LogDamage.RecordsAreChecked | QFree/Pods/leveldb-library/db/log_reader.cc:56-271 | and every record read is one whole piece or a first piece, middle ones and a last one, following one another, all of which match |
| LogDamage.DamageIsReported | QFree/Pods/leveldb-library/db/log_reader.cc:244-256 | A piece that does not match is not returned; the rest of its block is reported and reading goes on behind it |
| LogDamage.BurstsAreFound | QFree/Pods/leveldb-library/util/crc32c.cc:276-376 | Damage to up to four neighbouring bytes always changes the checksum |
| LogDamage.DamagedPieceIsDropped | QFree/Pods/leveldb-library/db/log_reader.cc:244-256 | so a piece damaged like that is never read, and it is reported |
| LogDamage.NothingIsLost | QFree/Pods/leveldb-library/db/log_reader.cc:56-174 | The payload of every piece read is in the record returned or among the bytes reported |
| WriteBatches.IterateRoundTrip | QFree/Pods/leveldb-library/db/write_batch.cc:42-80 | Iterating over a batch hands on its updates, in order, and succeeds |
| WriteBatches.WriteBatch.Put | QFree/Pods/leveldb-library/db/write_batch.cc:98-103 | Appends the update and keeps the count right |
| WriteBatches.WriteBatch.Delete | QFree/Pods/leveldb-library/db/write_batch.cc:105-109 | Appends the deletion and keeps the count right |
| WriteBatches.WriteBatch.Append | QFree/Pods/leveldb-library/db/write_batch.cc:144-148 | Appends the updates of another batch |
| WriteBatches.WriteBatch.SetSequence | QFree/Pods/leveldb-library/db/write_batch.cc:94-96 | Changes the sequence number and nothing else |
| WriteBatches.WriteBatch.Iterate | QFree/Pods/leveldb-library/db/write_batch.cc:42-80 | Hands on the updates up to the first that is malformed, with the status of that |
| MalformedInputs.WrongCountIsReported | QFree/Pods/leveldb-library/db/write_batch.cc:75-79 | A batch with a count other than that of its updates is reported when all have been handed on |
| MalformedInputs.UnknownTagIsReported | QFree/Pods/leveldb-library/db/write_batch.cc:71-72 | and so is one with an unknown tag, when those before it have |
| MalformedInputs.CutBatchIsReported | QFree/Pods/leveldb-library/db/write_batch.cc:56-70 | and one that ends within an update, wherever that is |
| KnownBytes.BatchBytes | QFree/Pods/leveldb-library/db/write_batch.cc:5-14 | The bytes of a batch of a value and a deletion |
| Recovery.CrashRecovers | QFree/Pods/leveldb-library/db/db_impl.cc:371-489 | Replaying any prefix of a log adds exactly the updates of a prefix of the committed batches, under their original sequence numbers |
| Recovery.RecoverLogFile | QFree/Pods/leveldb-library/db/db_impl.cc:371-489 | The replay loop; with paranoid checks anything reported fails it; every entry replayed is in a table written on the way or in the memtable kept, in order |
| Recovery.InsertRecord | QFree/Pods/leveldb-library/db/db_impl.cc:418-453 | One record is one batch, or is reported |
| Recovery.LenientReplay | QFree/Pods/leveldb-library/db/db_impl.cc:411-460 | Of any records whatsoever: without paranoid checks replay never fails, takes the updates before a fault of every record under consecutive numbers, counts the records too short for a batch, and finds the largest number claimed |
| Recovery.ParanoidReplay | QFree/Pods/leveldb-library/db/db_impl.cc:411-460 | With paranoid checks it succeeds exactly if every record is a batch without a fault, and else ends with the first that is not |
| ManifestCodec.EditRoundTrip | QFree/Pods/leveldb-library/db/version_edit.cc:41-205 | Decoding an encoded edit gives it back, the internal keys in it stored as their bytes |
| ManifestCodec.EncodeTo | QFree/Pods/leveldb-library/db/version_edit.cc:41-85 | Appends the fields of the edit in their order |
| ManifestCodec.DecodeFrom | QFree/Pods/leveldb-library/db/version_edit.cc:107-205 | Reads fields to the end or the first that is malformed |
| MalformedInputs.FieldParts | QFree/Pods/leveldb-library/db/version_edit.cc:14-24 | The fields of an edit have the tags 1 to 7 and 9 |
| MalformedInputs.UnknownFieldIsRefused | QFree/Pods/leveldb-library/db/version_edit.cc:193-205 | Behind any fields, one with a tag other than 1 to 7 and 9 is refused |
| MalformedInputs.UnknownLevelIsRefused | QFree/Pods/leveldb-library/db/version_edit.cc:97-105 | and so is one for a level other than the seven |
| MalformedInputs.CutEditIsRefused | QFree/Pods/leveldb-library/db/version_edit.cc:107-205 | and an edit that ends within a field, wherever that is |
| Manifests.ReplayAgrees | QFree/Pods/leveldb-library/db/version_set.cc:650-754 | One builder for all edits gives the level that applying them in turn gives, if and only if the latter holds no file twice |
| Manifests.ReplayAgreesThroughout | QFree/Pods/leveldb-library/db/version_set.cc:924-968 | They agree after every prefix of the edits if and only if every edit only adds files the level does not hold |
| Manifests.ReplayCanDiffer | QFree/Pods/leveldb-library/db/version_set.cc:650-754 | Edits for which they differ: a file added again while it is there |
| Manifests.SnapshotRestores | QFree/Pods/leveldb-library/db/version_set.cc:1088-1116 | A snapshot applied to an empty version gives the version back |
| Manifests.ManifestReplays | QFree/Pods/leveldb-library/db/version_set.cc:886-1011 | A snapshot and edits replayed by one builder give the version that results from the edits in turn |
| ManifestRecovery.Recover | QFree/Pods/leveldb-library/db/version_set.cc:924-968 | Decodes all records, applies them to one builder and keeps the last of each number; fails where a record or the comparator is bad |
| ManifestRecovery.RecoversExactly | QFree/Pods/leveldb-library/db/version_set.cc:924-988 | Recovery goes through exactly if every record is an edit under the same comparator, and the next file, the log and the last sequence number are each in one of them |
| ManifestRecovery.NumbersAreLast | QFree/Pods/leveldb-library/db/version_set.cc:939-958 | Each number is that of the last edit to carry one |
| ManifestRecovery.ManifestSurvives | QFree/Pods/leveldb-library/db/version_set.cc:886-1011 | A manifest cut anywhere behind its first edit recovers the version, the compaction pointers and the numbers as they were after the last edit that was written whole |
| DatabaseManifest.EditInstalls | QFree/Pods/leveldb-library/db/version_set.cc:813-820 | For every flush, move and compaction of a database in order: what the builder makes of the version and the recorded edit is what the step makes of the version |
| DatabaseManifest.RecordsExtend | QFree/Pods/leveldb-library/db/version_set.cc:801-884 | A run whose steps put their edits on record one by one, as the methods of DBImpl do, has all of them on record in the end |
| DatabaseManifest.RunReplays | QFree/Pods/leveldb-library/db/version_set.cc:801-884 | Over any run: applying the recorded edits in turn gives the version of the database, and no edit adds a file its level holds |
| DatabaseManifest.RunIsOk | QFree/Pods/leveldb-library/db/version_set.cc:801-884 | The manifest of every run is one that can be recovered: what ManifestSurvives asks of edits holds of those a database records, from opening on |
| DatabaseManifest.RecoversTheDatabase | QFree/Pods/leveldb-library/db/version_set.cc:886-1008 | Cut anywhere behind its first edit, the manifest of any run gives the version and numbers of the database as it was after the last step whose edit is whole |
| Journals.RunIsLogged | QFree/Pods/leveldb-library/db/db_impl.cc:535-566 | Over any run: the logs from the recorded number on are those of the memtables and hold exactly what these hold, and everything in tables is older |
| Reopening.LogsToReplay | QFree/Pods/leveldb-library/db/db_impl.cc:325-352 | Of the logs there are, those not older than the recorded number and the previous one, in the order of their numbers |
| Reopening.RecoverLogs | QFree/Pods/leveldb-library/db/db_impl.cc:349-369 | Replays the logs in turn into memtables and these into tables with new numbers; succeeds exactly if every log replays; finds the largest sequence number |
| Reopening.RebuiltLevels | QFree/Pods/leveldb-library/db/db_impl.cc:1498-1502 | Adding all tables made of logs by one edit is adding them one after the other |
| Reopening.RebuiltIsInOrder | QFree/Pods/leveldb-library/db/db_impl.cc:411-489 | Replayed entries numbered behind those in tables keep the database in order, in however many tables they end up, and nothing else is added |
| Reopening.Open | QFree/Pods/leveldb-library/db/db_impl.cc:1474-1515 | Opens a database from a recovered version and the logs on disk, or fails exactly if there is no version, a table of it is missing or a log needed does not replay; states the database opened and the first edit of its manifest |
| Crashes.NeededAreFound | QFree/Pods/leveldb-library/db/db_impl.cc:317-352 | After a crash the recorded numbers select exactly the logs of the two memtables, whatever older logs are still there |
| Crashes.DatabaseSurvives | QFree/Pods/leveldb-library/db/db_impl.cc:1474-1515 | The database opened is in order and holds exactly what the crashed one held up to the end of the last batch that is whole in the log: reading it is reading the crashed one at that sequence number; and its logs and manifest are in order for the next crash |
| Crashes.CrashIsSurvived | QFree/Pods/leveldb-library/db/db_impl.cc:280-373 | From end to end: after a crash at any point of any run, with an unfinished record at the end of the manifest and the log cut anywhere, the database can be opened, and then DatabaseSurvives |
| Crashes.NoGapExactly | QFree/Pods/leveldb-library/db/db_impl.cc:1348-1364 | The log left behind by a switch is not synced: if a crash cuts it too, what is recovered is without a gap exactly if all its updates survive or none of the next log's does |
| GroupCommit.BuildBatchGroup | QFree/Pods/leveldb-library/db/db_impl.cc:1260-1306 | The group is the longest allowed run at the front of the queue, and its batch theirs in order |
| GroupCommit.GroupIsBounded | QFree/Pods/leveldb-library/db/db_impl.cc:1260-1306 | Writers that join make no group longer than a megabyte, a small first write waits for no more than 128 kilobytes of others, no write joins that asks for a sync the first does not, and only for these reasons is the next writer left out |
| GroupCommit.ReachableIsInOrder | QFree/Pods/leveldb-library/db/db_impl.cc:1185-1256 | In every interleaving of writers that wait, wake up, lead and return on their own: the group at work is the front of the queue; groups get consecutive ranges in the order of the queue; no write that asked for a sync is led by one that did not; log and memtable hold what the groups have put there |
| GroupCommit.OneLeader | QFree/Pods/leveldb-library/db/db_impl.cc:1193-1237 | Although the mutex is free while a writer makes room, logs and inserts, at most one writer does so, the front of the queue: it follows from the loop in which writers wait |
| GroupCommit.FirstInFirstOut | QFree/Pods/leveldb-library/db/db_impl.cc:1239-1248 | In every interleaving writers are completed, that is get their status and leave the queue, in the order they came, each once |
| GroupCommit.EachReturnsItsStatus | QFree/Pods/leveldb-library/db/db_impl.cc:1193-1198 | Each writer returns at most once, after it is completed, with the status of its group; a completed one has returned or can do so at once |
| GroupCommit.LaterMayReturnFirst | QFree/Pods/leveldb-library/db/db_impl.cc:1239-1253 | The return itself is not first in first out: a run in which a writer behind a group returns before a follower in it |
| GroupCommit.NoWakeupIsLost | QFree/Pods/leveldb-library/db/db_impl.cc:1193-1253 | The signals suffice: nobody sleeps who is done or at the front of the queue, and the writer at the front always has a step to do |
| GroupCommit.GroupsAreApart | QFree/Pods/leveldb-library/db/db_impl.cc:1200-1237 | Ranges of groups follow each other without gap or overlap |
| GroupCommit.BatchHasItsRange | QFree/Pods/leveldb-library/db/db_impl.cc:1260-1306 | Within its group every batch keeps a range of its own, in the order of the queue |
| GroupCommit.MemIsIncreasing | QFree/Pods/leveldb-library/db/db_impl.cc:1200-1237 | Groups insert their entries in the order of their numbers |
| GroupCommit.MemIsInOrder | QFree/Pods/leveldb-library/db/db_impl.cc:1200-1237 | In every interleaving the memtable has its entries in the order of their numbers, and none twice |
| GroupCommit.ReadersSeeWholeGroups | QFree/Pods/leveldb-library/db/db_impl.cc:1200-1237 | A reader at the last sequence number sees all of every batch that succeeded and nothing of the group being written |
| GroupCommit.SnapshotsAreStable | QFree/Pods/leveldb-library/db/db_impl.cc:1185-1256 | New entries carry numbers no earlier reader sees |
| GroupCommit.SuccessIsLasting | QFree/Pods/leveldb-library/db/db_impl.cc:1213-1248 | A writer that succeeded has its batch in the log, whole in the memtable and visible, and on disk if it asked for that |
| GroupCommit.ErrorsArePermanent | QFree/Pods/leveldb-library/db/db_impl.cc:640-646 | After a background error, with no group in progress, nothing is logged or inserted any more and every write fails |
| GroupCommit.ErrorsStopTheRest | QFree/Pods/leveldb-library/db/db_impl.cc:640-646 | When the error comes while a group is being written, that group's record and entries are the last, and only its members may still succeed |
| FileGc.DeletionIsSafe | QFree/Pods/leveldb-library/db/db_impl.cc:223-278 | Deleting obsolete files leaves the tables of all versions held, the outputs of a merge under way, finished or still being built, and the table of a flush, the logs still needed and the one numbered PrevLogNumber, and the manifest in use; without a background error no other table, temporary file, log or older manifest is left |
| FileGc.OnlyWorkIsPending | QFree/Pods/leveldb-library/db/db_impl.cc:223-278 | In every reachable state the pending numbers are those of the table a flush is writing and the outputs of a merge under way, so that without a background error deleting obsolete files leaves exactly the tables of held versions and those outputs |
| FileGc.ManifestKept | QFree/Pods/leveldb-library/db/db_impl.cc:249-253 | No step takes away the manifest in use |
| FileGc.NoNeededFileIsLost | QFree/Pods/leveldb-library/db/db_impl.cc:223-278 | Over any run of readers, flushes and compactions: every file of a version somebody holds is there, and so is every output of a merge from when it is opened, still being built or not, and every table of a flush that is built and not yet installed |
| FileGc.UnsafeBeforeInstalling | QFree/Pods/leveldb-library/db/db_impl.cc:495-513 | It matters that only the background thread deletes: between the end of a build and its installation another thread would delete the new table |
| Blocks.BlockBuilder.Add | QFree/Pods/leveldb-library/table/block_builder.cc:72-106 | The entry is added behind the others, with a restart point where one is due |
| KnownBytes.EntryBytes | QFree/Pods/leveldb-library/table/block_builder.cc:86-97 | The bytes of an entry with a shared key and of one without |
| KnownBytes.BlockBytes | QFree/Pods/leveldb-library/table/block_builder.cc:62-70 | The bytes of a block of one entry: the entry, the place of its restart point and how many there are |
| Blocks.BlockBuilder.Finish | QFree/Pods/leveldb-library/table/block_builder.cc:62-70 | The block holds exactly the entries added |
| Blocks.BlockParses | QFree/Pods/leveldb-library/table/block.cc:19-39 | Number and places of the restart points are read back |
| Blocks.ParseEntry | QFree/Pods/leveldb-library/table/block.cc:54-74 | The entry at an offset is decoded, whatever follows it, on the fast path and the slow one |
| Blocks.SmallHeader | QFree/Pods/leveldb-library/table/block.cc:54-74 | The fast path for three lengths of one byte each gives what the slow one does |
| BlockIterator.Iter.SeekToRestartPoint | QFree/Pods/leveldb-library/table/block.cc:104-112 | Poised before the entry at the restart point |
| BlockIterator.Iter.ParseNextKey | QFree/Pods/leveldb-library/table/block.cc:224-251 | Takes up the next entry, or is at the end |
| BlockIterator.Iter.Next | QFree/Pods/leveldb-library/table/block.cc:137-140 | From entry i to entry i + 1 |
| BlockIterator.Iter.Prev | QFree/Pods/leveldb-library/table/block.cc:142-161 | From entry i to entry i - 1, so that it undoes Next |
| BlockIterator.Iter.Seek | QFree/Pods/leveldb-library/table/block.cc:163-201 | The first entry at or after the target |
| BlockIterator.Iter.SeekToFirst | QFree/Pods/leveldb-library/table/block.cc:203-206 | The first entry |
| BlockIterator.Iter.SeekToLast | QFree/Pods/leveldb-library/table/block.cc:208-213 | The last entry |
| BlockIterator.ReadBack | QFree/Pods/leveldb-library/table/block.cc:137-251 | What an iterator goes through is what the builder was given, for any restart interval |
| Comparators.FindShortestSeparator | QFree/Pods/leveldb-library/util/comparator.cc:29-50 | The start, cut behind the first byte that differs from the limit and with that byte raised by one, exactly if that stays below the limit's byte; at or after the start, before the limit if the start is, and no longer |
| Comparators.FindShortSuccessor | QFree/Pods/leveldb-library/util/comparator.cc:52-64 | The key, cut behind its first byte that is not 0xff and with that byte raised by one; itself if there is none |
| Comparators.InternalSeparator | QFree/Pods/leveldb-library/db/dbformat.cc:69-86 | The start, or the separator of the user keys with the tag that comes first, exactly if it is shorter |
| Comparators.InternalSuccessor | QFree/Pods/leveldb-library/db/dbformat.cc:88-101 | The key, or the successor of the user key with the tag that comes first, exactly if it is shorter |
| Comparators.SeparatorIsBetween | QFree/Pods/leveldb-library/db/dbformat.cc:69-86 | Such a key is not before the start and before the limit in the order of internal keys |
| Bloom.CreateFilter | QFree/Pods/leveldb-library/util/bloom.cc:28-54 | The bits set are the probes of the keys: all of them and no others; the size follows the number of keys, 64 bits at least |
| Bloom.KeyMayMatch | QFree/Pods/leveldb-library/util/bloom.cc:56-80 | False exactly if a probe misses or the filter is too short; true for kinds of filter not known |
| Bloom.MatchesExactly | QFree/Pods/leveldb-library/util/bloom.cc:28-80 | A filter matches exactly the keys all probes of which are probes of keys it was made for |
| KnownBytes.ProbeSteps | QFree/Pods/leveldb-library/util/bloom.cc:46-52 | Probes advance by the hash rotated right by seventeen bits |
| FilterBlocks.FilterBlockBuilder.StartBlock | QFree/Pods/leveldb-library/table/filter_block.cc:21-27 | One group of keys for each stretch of the file before the offset |
| FilterBlocks.FilterBlockBuilder.AddKey | QFree/Pods/leveldb-library/table/filter_block.cc:29-33 | The key goes into the group being collected |
| FilterBlocks.FilterBlockBuilder.GenerateFilter | QFree/Pods/leveldb-library/table/filter_block.cc:51-75 | The keys collected become a group, an empty one too |
| FilterBlocks.FilterBlockBuilder.Finish | QFree/Pods/leveldb-library/table/filter_block.cc:35-49 | A filter block for the groups of keys, one for each stretch of the file |
| FilterBlocks.KeyMayMatch | QFree/Pods/leveldb-library/table/filter_block.cc:90-104 | For a block of some groups of keys: what the filter of the group at the offset says, nothing for an empty group, and true beyond the last; never false for a key of the block at the offset |
| FilterBlocks.FilterMatches | QFree/Pods/leveldb-library/table/filter_block.cc:90-104 | What a filter of a group says: true exactly for keys all probes of which are probes of keys of the group, and for none if the group is empty |
| KnownBytes.FilterBlockBytes | QFree/Pods/leveldb-library/table/filter_block.cc:35-49 | A filter block ends with the place of its offsets and the base, eleven |
| TableBuilders.TableBuilder.Add | QFree/Pods/leveldb-library/table/table_builder.cc:94-123 | The row is added, its block flushed when it has reached the block size, and the index entry before it completed with a shortened key |
| TableBuilders.TableBuilder.Flush | QFree/Pods/leveldb-library/table/table_builder.cc:125-139 | The rows collected become a block of the file and none is lost or left over |
| TableBuilders.TableBuilder.WriteBlock | QFree/Pods/leveldb-library/table/table_builder.cc:141-175 | The entries of the block are in the file where the handle says, and the block builder is empty |
| TableBuilders.TableBuilder.WriteRawBlock | QFree/Pods/leveldb-library/table/table_builder.cc:177-194 | Contents, type and checksum are at the end of the file, and the handle leads to them |
| TableBuilders.TableBuilder.Finish | QFree/Pods/leveldb-library/table/table_builder.cc:198-253 | The file is the table: data blocks with all the rows added, the filter, the metaindex that leads to it, an index that separates the blocks, and the footer; the filter matches every row |
| Tables.FirstAnswers | QFree/Pods/leveldb-library/db/db_impl.cc:1124-1134 | The first row at or after the lookup key answers for a sorted table |
| Tables.BlockAnswers | QFree/Pods/leveldb-library/table/table.cc:216-244 | The block the shortened index keys lead to answers for all blocks |
| Tables.IndexIncreases | QFree/Pods/leveldb-library/table/table_builder.cc:102-110 | The shortened index keys increase, so that the index block can be searched |
| TableFormat.HandleRoundTrip | QFree/Pods/leveldb-library/table/format.cc:15-29 | Block handles are read back in front of any rest |
| TableFormat.FooterRoundTrip | QFree/Pods/leveldb-library/table/format.cc:31-62 | A footer is read back past its padding |
| TableFormat.MagicIsRequired | QFree/Pods/leveldb-library/table/format.cc:42-50 | No footer is read that does not end with the eight bytes of the magic number |
| KnownBytes.FooterBytes | QFree/Pods/leveldb-library/table/format.cc:31-40 | A footer has the four numbers of its handles, zeros up to forty bytes, and the magic number |
| KnownBytes.TrailerBytes | QFree/Pods/leveldb-library/table/table_builder.cc:181-195 | Behind a block are a zero for its type and the masked checksum of both |
| TableFormat.StoredIsRead | QFree/Pods/leveldb-library/table/format.cc:64-139 | A stored block is read back, with or without the test of its checksum |
| TableFormat.ReadMatches | QFree/Pods/leveldb-library/table/format.cc:88-97 | With the test, only contents that match their checksum are read |
| MalformedInputs.DamagedBlockIsRefused | QFree/Pods/leveldb-library/table/format.cc:88-97 | and a block damaged in up to four neighbouring bytes of its contents and type is always refused |
| TableReaders.FinishedFileOpens | QFree/Pods/leveldb-library/table/table.cc:38-82 | A finished file opens and its index block is found |
| TableReaders.Open | QFree/Pods/leveldb-library/table/table.cc:40-84 | Opening a finished file succeeds, with its filter exactly if the policy is that of the file |
| TableReaders.ReadMeta | QFree/Pods/leveldb-library/table/table.cc:84-136 | The filter is found exactly if the table has one built by the policy of that name |
| TableReaders.OpenTable.BlockReader | QFree/Pods/leveldb-library/table/table.cc:155-207 | An index entry leads to an iterator over the rows of its block |
| TableReaders.OpenTable.InternalGet | QFree/Pods/leveldb-library/table/table.cc:216-244 | From the bytes: the newest row at or below the lookup exactly if there is one, through the index block, the filter and one data block |
| HandleTables.HandleTable.Lookup | QFree/Pods/leveldb-library/util/cache.cc:74-76 | The handle with the key and hash in the whole table |
| HandleTables.HandleTable.FindPointer | QFree/Pods/leveldb-library/util/cache.cc:114-120 | The place of the first match in a chain, or its end |
| HandleTables.HandleTable.Insert | QFree/Pods/leveldb-library/util/cache.cc:78-92 | The table is the set it was without the handle replaced and with the new one, also through a resize |
| HandleTables.HandleTable.Remove | QFree/Pods/leveldb-library/util/cache.cc:94-102 | The table is the set it was without the handle removed |
| HandleTables.HandleTable.Resize | QFree/Pods/leveldb-library/util/cache.cc:122-146 | The same set in at least as many buckets as handles |
| IntrusiveLists.Append | QFree/Pods/leveldb-library/util/cache.cc:244-250 | The links of the ring then lead through one element more, at its end, in both directions |
| IntrusiveLists.Remove | QFree/Pods/leveldb-library/util/cache.cc:239-242 | and through the others in the same order |
| HandleLists.ListPair.Append | QFree/Pods/leveldb-library/util/cache.cc:244-250 | On the linked rings of the cache: one list gets the handle as its newest, the other is as it was |
| HandleLists.ListPair.Remove | QFree/Pods/leveldb-library/util/cache.cc:239-242 | The handle is off the list it was on, and both are otherwise as they were |
| Caches.RefKeeps | QFree/Pods/leveldb-library/util/cache.cc:217-223 | Taking a reference keeps the cache right: lists, counts, usage and what is deleted |
| Caches.UnrefKeeps | QFree/Pods/leveldb-library/util/cache.cc:225-237 | So does giving one up, which runs the deleter with the last |
| Caches.EraseKeeps | QFree/Pods/leveldb-library/util/cache.cc:307-316 | So does taking a handle out of the cache |
| Caches.EvictionIsRight | QFree/Pods/leveldb-library/util/cache.cc:293-300 | Eviction takes the oldest unused handles, none in use, no more than needed, until the usage fits or nothing unused is left |
| Caches.InsertIsRight | QFree/Pods/leveldb-library/util/cache.cc:266-303 | An insertion: the handle has the key, hash and charge given and is the one cached for its key, but at capacity zero; the usage is the one before with the charge added and that of the handle replaced taken off, before the oldest other unused handles go, as many as it takes to fit and no more; all other handles stay as they are |
| Caches.UsageIsGiven | QFree/Pods/leveldb-library/util/cache.cc:276-287 | In every state the usage is the sum of the charges that callers gave for the handles still cached |
| Caches.UnrefHistory | QFree/Pods/leveldb-library/util/cache.cc:225-237 | The unused handles are in the order of their last release, and a release takes none out of the cache |
| Caches.TableFinds | QFree/Pods/leveldb-library/util/cache.cc:252-259 | The table finds a handle exactly if it is in the cache, and it is the only one of its key there |
| Caches.LRUCache.RefHandle | QFree/Pods/leveldb-library/util/cache.cc:217-223 | One reference more; a handle only the cache held goes to the list of those in use |
| Caches.LRUCache.Unref | QFree/Pods/leveldb-library/util/cache.cc:225-237 | One less; the last deletes, the last but that of the cache makes it the newest unused one |
| Caches.LRUCache.Lookup | QFree/Pods/leveldb-library/util/cache.cc:252-259 | The handle in the cache for the key, held by the caller; what is cached stays so |
| Caches.LRUCache.Release | QFree/Pods/leveldb-library/util/cache.cc:261-264 | One reference of the client less; what is cached stays so |
| Caches.LRUCache.Insert | QFree/Pods/leveldb-library/util/cache.cc:266-303 | The new handle in, with what it was given, and the one with its key out; then, before any others, the unused ones released longest ago go; not cached at capacity zero |
| Caches.LRUCache.FinishErase | QFree/Pods/leveldb-library/util/cache.cc:307-316 | Off its list, no longer charged, one reference less |
| Caches.LRUCache.Erase | QFree/Pods/leveldb-library/util/cache.cc:318-321 | No handle of the key is in the cache any more and all others still are; its deleter waits for its clients |
| Caches.LRUCache.Prune | QFree/Pods/leveldb-library/util/cache.cc:323-333 | All unused handles are deleted, oldest first, and none in use |
| Caches.LRUCache.TotalCharge | QFree/Pods/leveldb-library/util/cache.cc:166-169 | The sum of the charges that callers gave for what is in the cache |
| PbFieldIter.FieldIter.Next | QFree/Pods/nanopb/pb_common.c:20-76 | The next field, or the first again at the end; counts the required ones; the sums of relative offsets lead to the place of each field in the struct and to its flag, count or tag, past arrays and inside unions |
| PbFieldIter.FieldIter.Find | QFree/Pods/nanopb/pb_common.c:78-95 | From anywhere, the field with the tag; back where it was when there is none |
| PbRoundTrip.RoundTrip | QFree/Pods/nanopb/pb_decode.c:1075-1087 | For every tree of static descriptors, decoding what was encoded gives the message back if and only if every string in it has its NUL inside its array |
| PbRoundTrip.AnyOrder | QFree/Pods/nanopb/pb_decode.c:925-1073 | A message is read back from its fields in any order, with anything between them that is passed over |
| PbEvolution.UnknownIsIgnored | QFree/Pods/nanopb/pb_decode.c:321-331 | A field with a number that is not known changes nothing, wherever it stands, for all four wire types the encoder writes |
| PbEvolution.EncodedIsIgnored | QFree/Pods/nanopb/pb_decode.c:321-331 | so a field as the encoder writes it, of any rule and type, changes nothing where its number is not known |
| PbEvolution.FieldsLeftOut | QFree/Pods/nanopb/pb_decode.c:925-1073 | and a message read under descriptors with some of its fields left out is the message without those fields |
| PbEvolution.GroupsAreRefused | QFree/Pods/nanopb/pb_decode.c:321-331 | Unknown groups and the two wire types without a meaning are refused |
| PbInputs.MissingIsRefused | QFree/Pods/nanopb/pb_decode.c:1030-1070 | A message without one of its first 64 required fields is refused, whatever else is there in whatever order |
| PbInputs.LastCounts | QFree/Pods/nanopb/pb_decode.c:406-480 | Of a field that comes twice the last counts, as if the first had not been there |
| PbInputs.LastOfUnionCounts | QFree/Pods/nanopb/pb_decode.c:464-475 | Of two members of a union the last counts, and it alone is there |
| PbInputs.SubmessagesMerge | QFree/Pods/nanopb/pb_decode.c:1503-1525 | Of a submessage that comes twice the second is read onto the first |
| PbInputs.ElementIsAdded | QFree/Pods/nanopb/pb_decode.c:451-462 | An element on its own is added to a packed or unpacked array; a full array refuses the message |
| PbInputs.PackIsAdded | QFree/Pods/nanopb/pb_decode.c:424-450 | Packed elements are added all together, or the message is refused |
| PbInputs.FixedCountBegins | QFree/Pods/nanopb/pb_decode.c:988-1010 | An array of fixed count starts again, and the one before must have been filled |
| PbInputs.ShortFixedCountIsRefused | QFree/Pods/nanopb/pb_decode.c:1022-1028 | A message that ends in an array of fixed count with another number of elements is refused |
| PbInputs.FromWireExactly | QFree/Pods/nanopb/pb_decode.c:1318-1429 | A varint stands for the one number of the field's type that it is congruent to, or whose zigzag form it is; if there is none the field is refused |
| PbInputs.Read32IsCongruent | QFree/Pods/nanopb/pb_decode.c:187-252 | A varint read as 32 bits is the value of its groups modulo 2^32 |
| PbInputs.Read32Exactly | QFree/Pods/nanopb/pb_decode.c:187-252 | and it is taken exactly if the bytes behind the 35th bit are zero or repeat the sign, up to the tenth, and a fifth byte that is the last has only its low four bits set |
| PbInputs.FromStringExactly | QFree/Pods/nanopb/pb_decode.c:1431-1548 | Bytes, strings and arrays of fixed length from the bytes behind a length: whole or up to the first NUL if there is room, and refused exactly if there is not |
| PbInputs.ZeroTagEnds | QFree/Pods/nanopb/pb_decode.c:298-319 | A zero where a tag is expected ends the message, whatever is behind it |
| PbInputs.WireTypeIsNotTested | QFree/Pods/nanopb/pb_decode.c:406-423 | Of a field that is there once the wire type is not looked at |
| PbInputs.BoolIsRead | QFree/Pods/nanopb/pb_decode.c:1318-1327 | Every number but zero is true |
| KnownBytes.ValueBytes | QFree/Pods/nanopb/pb_encode.c:717-912 | The bytes of a number, a string and a submessage |
| KnownBytes.NumberBytes | QFree/Pods/nanopb/pb_encode.c:769-850 | The bytes of negative, zigzag, bool and fixed numbers |
| KnownBytes.ArrayBytes | QFree/Pods/nanopb/pb_encode.c:147-236 | Arrays of numbers are packed behind one tag, those of strings have a tag for each |
| KnownBytes.OmittedExactly | QFree/Pods/nanopb/pb_encode.c:240-426 | A field takes up no bytes exactly if it is not there, or singular and zero |
| PbRoundTrip.UnterminatedIsLost | QFree/Pods/nanopb/pb_encode.c:875-899 | A string that fills its array: it is encoded, and the decoder refuses it |
| PbRoundTrip.Read32Inverts | QFree/Pods/nanopb/pb_decode.c:187-252 | A varint of 32 bits is read back whatever follows |
| PbRoundTrip.NumberInverts | QFree/Pods/nanopb/pb_decode.c:1318-1429 | Every number that fits its C type is read back, for all sizes, signs and zigzag |
| PbRoundTrip.PackedInverts | QFree/Pods/nanopb/pb_decode.c:424-453 | A packed array is read back if it fits |
| PbRoundTrip.ZeroIsZero | QFree/Pods/nanopb/pb_encode.c:240-337 | A value left out for being zero is the one the decoder starts with |
| PbEncode.OStream.Write | QFree/Pods/nanopb/pb_encode.c:103-124 | Writes all or, without room, fails; only counts on a sizing stream |
| PbEncode.OStream.EncodeVarint | QFree/Pods/nanopb/pb_encode.c:608-628 | The loop writes the varint |
| PbEncode.OStream.EncodeTag | QFree/Pods/nanopb/pb_encode.c:669-707 | Field number and wire type as one varint |
| PbEncode.OStream.EncodeString | QFree/Pods/nanopb/pb_encode.c:709-715 | Bytes behind their length |
| PbEncode.OStream.EncodeNum | QFree/Pods/nanopb/pb_encode.c:769-850 | Numbers of every type and size; a size the code does not know is an error |
| PbEncode.OStream.EncodeValue | QFree/Pods/nanopb/pb_encode.c:852-912 | Bytes, strings and submessages; bytes that do not fit their array are an error |
| PbEncode.OStream.EncodeSubmessage | QFree/Pods/nanopb/pb_encode.c:717-765 | Sizing pass, length and second pass write the message behind its length; the passes never differ |
| PbEncode.OStream.EncodeElements | QFree/Pods/nanopb/pb_encode.c:147-236 | Arrays, packed or not, up to their size |
| PbEncode.OStream.EncodeField | QFree/Pods/nanopb/pb_encode.c:341-426 | A field by its rule: required, optional with and without flag, repeated, member of a union |
| PbEncode.OStream.Encode | QFree/Pods/nanopb/pb_encode.c:528-550 | All fields in order, or failure with the first that fails |
| PbEncode.PackedSize | QFree/Pods/nanopb/pb_encode.c:169-189 | The size known beforehand is the size of what is written |
| PbEncode.GetEncodedSize | QFree/Pods/nanopb/pb_encode.c:567-576 | Succeeds exactly if there is an encoding, with its length |
| PbEncode.EncodeToBuffer | QFree/Pods/nanopb/pb_encode.c:528-550 | Succeeds exactly if the sizing pass does and its count fits the buffer, and writes exactly that many bytes |
| PbDecode.IStream.ReadByte | QFree/Pods/nanopb/pb_decode.c:141-157 | The next byte unless there is none left |
| PbDecode.IStream.Read | QFree/Pods/nanopb/pb_decode.c:102-137 | As many bytes, or failure if fewer are left |
| PbDecode.IStream.DecodeNum | QFree/Pods/nanopb/pb_decode.c:1318-1429 | Numbers of every type; what does not fit the C type is an error |
| PbDecode.IStream.DecodeVarint32 | QFree/Pods/nanopb/pb_decode.c:187-252 | Sign extension and overflow as in the recursive definition |
| PbDecode.IStream.DecodeVarint | QFree/Pods/nanopb/pb_decode.c:255-275 | At most ten bytes, cut to 64 bits |
| PbDecode.IStream.SkipField | QFree/Pods/nanopb/pb_decode.c:321-331 | What a wire type takes, or failure; that this is what the encoder writes is the subject of PbEvolution |
| PbDecode.IStream.MakeSubstream | QFree/Pods/nanopb/pb_decode.c:372-385 | The substream has exactly the bytes behind the length |
| PbDecode.IStream.CloseSubstream | QFree/Pods/nanopb/pb_decode.c:387-400 | Goes on behind the substream, however much of it was read |
| PbDecode.IStream.DecodeValue | QFree/Pods/nanopb/pb_decode.c:1503-1525 | One value; a submessage is merged into what was there |
| PbDecode.IStream.DecodeStaticField | QFree/Pods/nanopb/pb_decode.c:406-480 | One occurrence of a field by its rule |
| PbDecode.IStream.DecodeRepeated | QFree/Pods/nanopb/pb_decode.c:424-463 | One element more, or the elements of a packed array, up to the size of the array |
| PbDecode.IStream.FillArray | QFree/Pods/nanopb/pb_decode.c:436-448 | Numbers while there are bytes and room; bytes left over are an error |
| PbDecode.IStream.DecodeOccurrence | QFree/Pods/nanopb/pb_decode.c:988-1020 | Arrays of fixed count start again and must have been filled; required fields are noted |
| PbDecode.IStream.DecodeNoinit | QFree/Pods/nanopb/pb_decode.c:925-1073 | Fields in any order, unknown ones skipped, arrays of fixed count filled, the required ones there |
| PbDecode.AllRequiredSeen | QFree/Pods/nanopb/pb_decode.c:1030-1070 | True exactly if all of the first 64 required fields were seen, from wherever the iterator is |
| PbDecode.DecodeBuffer | QFree/Pods/nanopb/pb_decode.c:1075-1087 | Succeeds exactly if there is a decoding, and gives it |

## Left out

- I/O errors, the Env, loggers, caches of open tables, the C interface, repair and dumping: system calls and wrappers around the code modelled.
- Snappy: blocks are stored as they are.
- The Swift application: user interface and calls into libraries whose source is not part of the repository.
- Seek statistics, read sampling, stalls: they decide when something is done, and anything they may decide is allowed in the model.
- Weak memory orders: the skip list is modelled under sequential consistency.
- Logs read from an offset other than zero, and LastRecordOffset: no caller reads that way.
- Reusing a log or manifest after a crash: a reused log that ends in a torn record is not modelled.
- Corrupted blocks and tables: reading the footer and a stored block fails as in the code, but the block iterator is modelled over well-formed blocks, with the wrap-around of the sum of lengths at 32 bits in DecodeEntry; parsing of internal keys always succeeds.
- The bytes of memtable entries: entries are values in the model.
- Table::NewIterator: the two-level iterator is proved over runs of entries, not over the index block of a file.
- DatabaseIterators.NewInternalIterator: with a memtable alone the source leaves the merging iterator out; the tables of level 0 are walked as runs.
- Checksum collisions: damage of more than four neighbouring bytes may match by chance; a torn record is one that is too short, as it is after a crash.
- nanopb with allocated, callback and extension fields, and default values other than zero in descriptors: descriptors are static trees, and a field that is absent has no value.
- nanopb's struct layout: the places of fields are the subject of PbFieldIter; encoder and decoder work on a value for each field, so writing past a field cannot be expressed.
- Varints of more than 36 bytes in pb_decode_varint32: there the eight-bit position of the code wraps around, in the model it does not.
- CompactionReads.CompactionPreservesReads: is about one compaction as a step; the memtable flush in the middle of the merge loop (db_impl.cc:907-918) is a step of its own in the model.
- LogAndApply: records the edit as a value; its bytes are the subject of ManifestCodec and ManifestRecovery. An edit that cannot be written is not modelled there.
- Scores.Finalize: scores are real numbers, not floating point ones.
- Crashes.CrashIsSurvived: the log of the immutable memtable is whole, as after a crash of the process; what happens if it is cut as well is the subject of NoGapExactly. Keys and numbers are such that the manifest's edits can be stored.
- Reopening.Open: always makes a new manifest and a new log, as it does unless logs are reused.
- FindShortestSeparator: in Comparators, that the result is as short as can be is not promised, as the code does not make it so.
- FirstInFirstOut: writers that compact by force write no batch; one that is taken into a group of others returns success without room having been made, as in the code.
- ReachableIsInOrder: in GroupCommit, sequence numbers are used up even if logging fails, as in the code; batches whose count is less than the updates in them are not modelled.
- ReadPhysicalRecord: in LogReading, the type bytes 5 and 6 in a file act as the marks for its end and for a bad record, as in the code.
- TableBuilders.TableBuilder.Finish: promises a table that can be read if all its blocks are below four gigabytes, since restart points are stored in 32 bits; entries have to be that short too.
- SkipLists.SkipList.Insert: in SkipLists, the height is any from 1 to 12 and nodes are known by their keys, which differ.
- HandleTables.HandleTable.Insert: the chains are sequences, not linked through the handles, and the bucket is the hash modulo the number of buckets, which is a power of two in the code.
- Caches.LRUCache.Insert: the sixteen shards of the cache share nothing; one is modelled. The destructor is not.
- DatabaseIterator.DBIter.Next: the check for the end after a change of direction (db_iter.cc:154-158) is never true, since the entry the iterator was on comes next; it is part of the model all the same.
- PbRoundTrip.RoundTrip: messages whose encoding is 2^32 bytes or longer are left out, since lengths are read back as 32 bits.

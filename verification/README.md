# LevelDB and nanopb: a verified model

The two libraries vendored under `ios/Pods` are modelled in Dafny: LevelDB, a log-structured
merge tree, and nanopb, a Protocol Buffers codec driven by field descriptors. Everything here
is proved by the verifier; nothing is executed.

## LevelDB

The whole engine has one specification (`DbFormat.dfy`): a database is a set of entries (user
key, sequence number, kind, value), and a read at a snapshot finds the newest entry at or
below it, a deletion marker meaning "not found". Each part below is a fast structure proved to
refine that, or a cursor over a sorted list (`Cursors.dfy`).

- *Levels.* `Tables`, `VersionSearch`, `InputSelection`, `Lookups`, `VersionGet`: searching a
  version and choosing compaction inputs. `CompactionDrop`, `CompactionWork`,
  `CompactionInput`: what a compaction drops and reads. `BoundaryFiles`, `BoundaryRun`: what
  its choice of inputs misses, and a run in which that matters.
  `Lsm`, `LsmProof`, `LsmRuns`: the engine as a state machine, with writes, memtable switches,
  flushes, trivial moves, compactions and snapshots as steps, and the invariant every run
  keeps. `DbImpl`: the same engine as a class whose methods are steps of that machine.
  `SnapshotList`: the ring of live snapshots.
- *Files.* `VersionBuilder`, `Manifest`, `VersionSet`, `VersionEditCodec`: version edits, the
  manifest and its replay. `Recovery`, `RecoveryProof`, `RecoveryRestart`, `RecoveryRuns`: the
  engine together with its logs, tables and manifest, with crashes at any step. `LogBytes`:
  the bytes of its logs, with crashes at any byte. `DbRecover`: opening a database from these
  bytes, as methods whose result is what the crash model calls recovered.
- *Writing.* `WriteBatches`, `BatchReads`, `GroupCommit`, `WriteQueue`: the byte form of a
  batch, what reads find after it, group commit as a machine whose steps lie between two
  releases of the mutex, and the queue class.
  `SkipList`, `SortedGet`, `MemTables`: the memtable, with readers running between single link
  writes of an insertion. `Crc32c`, `LogFormat`, `LogWriter`, `LogReader`, `LogRoundTrip`,
  `LogIntact`: the write-ahead log, and what a reader takes from a damaged one.
- *Reading.* `Merger`, `DbIter`, `InternalIterator`: the bidirectional iterators, up to the one
  over a whole database. `BlockFormat`, `BlockBuilder`,
  `BlockIter`, `BlockRoundTrip`: prefix-compressed blocks. `Comparators`, `FilterBlock`,
  `TableFormat`, `TableModel`, `TableSizes`, `TableBuilder`, `TableLookup`, `TableReader`,
  `TableRoundTrip`: table files, their sizes, filters and point lookups. `Ranks`, `TableFiles`:
  the entries the bytes of a table stand for, as the engine sees them.

## nanopb

`PbVarint`, `Bits`: varints, zigzag, the required-field bit masks. `PbCommon`: descriptors,
message values and the field iterator. `PbEncode`, `PbDecode`: for each direction a function
that says which bytes a message has, or which message any bytes are, and the stream methods
proved against it. `PbRoundTrip`, `PbTerminated`: decoding undoes encoding, and exactly when.
`PbCompat`, `PbConcat`: what becomes of unknown, repeated, missing and oversized fields, and of
messages written one after another.
The format is that of the Protocol Buffers Encoding guide, sections "Base 128 Varints",
"Signed Integers", "Message Structure", "Length-Delimited Records" and "Packed Repeated
Fields".

`WireFormats` spells out the bytes of each format of either library for one small value.

## Where the code falls short of what one might expect

Each of these is kept as the code has it, with a lemma that shows it and one that says exactly
when the expected property does hold.

- A compaction keeps every reader's view if and only if no deletion marker is dropped above an
  older value left outside the inputs (`CompactionDrop.ViewKeptIffNothingResurrects`). Boundary
  files are collected at the upper input level only. Older entries stay behind at the lower
  level exactly when a file there starts at the user key the lower inputs end with
  (`BoundaryFiles.NoOlderLeftIffNoneLeftBehind`), and then a deleted value can come back
  (`BoundaryRun.BoundaryFileLeftBehind`). The steps of the machine are the compactions that
  pass this test; `DbImpl.DBImpl.BackgroundCompaction` says what the code does in any case.
- Saving edits collected in one builder gives the files of the edits applied one at a time if
  and only if no number of a file that is gone is added again to stay, and no file added to
  stay comes after another with its number and smallest key
  (`VersionBuilder.SavedIffNoClash`; failing inputs:
  `VersionBuilder.ReaddedNumberRestoresDeleted`, `VersionBuilder.EquivalentAddIsLost`), and
  they are in strict order if and only if no file kept is added again
  (`VersionBuilder.SavedInOrderIff`). With fresh numbers, which is what the engine hands out,
  both always hold.
- The 32-bit varint decoder accepts some numbers that are not sign extensions
  (`PbVarint.Decode32TakesMore`, `PbVarint.Decode32Exactly`).
- The encoder writes a string that fills its buffer without a terminator; the decoder refuses
  it (`PbRoundTrip.UnterminatedStringIsRefused`, `PbTerminated.RoundTripIffTerminated`).
- A signed field of less than 64 bits looks at the low 32 bits of its varint only
  (`PbCompat.NumberInRange`), and of the required fields only the first 64 are missed when they
  are not there (`PbCompat.AcceptedIffComplete`).
- Decoding a version edit into a used object keeps its old compaction pointers
  (`VersionEditCodec.DecodeUndoesEncode`).
- A comment in `ios/Pods/leveldb-library/table/filter_block.cc:99` says that empty filters
  match no keys. The reader passes them to the policy, so this holds if and only if the policy
  refuses the empty filter (`FilterBlock.EmptyFilterRefusesIff`,
  `FilterBlock.EmptyFilterMatches`).
- Taking back a file number leaves the counter above everything in use if and only if that
  number is not in use by then (`VersionSet.VersionSet.ReuseFileNumber`).

## Representation

In the parts about levels and recovery a user key is its rank, a real number: byte strings are
countable and every countable total order embeds in the reals (`Ranks` gives the ranks for the
built-in comparator). In the parts about blocks, tables, edits and batches keys are byte strings
under a comparator given as functions; `TableFiles` and `LogBytes` lead from one to the other.
Integers are unbounded where the code cannot overflow, and cut to their width where it does
(stored offsets, varint words, packed tags, the sum of lengths in a block entry). Sizes of
files, when an output or a block is full, the height of a skip-list node, whether a write or a
sync succeeds and which level is compacted are left open: they are parameters or choices of a
step. Assertions in the code are preconditions.

## Model

| member | source | states |
|---|---|---|
| DbFormat.CompareIsTotalOrder | ios/Pods/leveldb-library/db/dbformat.cc:51-67 | the internal key order is a strict total order whose ties are equal keys, with newer entries of a user key first |
| DbFormat.LookupKeySplitsVisible | ios/Pods/leveldb-library/db/dbformat.h:168-208 | the lookup key of (key, snapshot) comes after exactly the entries of the key that are too new for the snapshot |
| DbFormat.ReadNewest | ios/Pods/leveldb-library/db/memtable.cc:111-133 | the newest entry at or below the snapshot decides a read, a deletion marker meaning "not found" |
| DbFormat.ReadLayered | ios/Pods/leveldb-library/db/db_impl.cc:1118-1132 | searching a newer layer first and stopping at any hit, deletion markers included, is reading the union of both layers |
| CompactionDrop.KeptIsKeptSet | ios/Pods/leveldb-library/db/db_impl.cc:935-962 | the entry-by-entry drop rule keeps, in order, exactly the entries not hidden by a newer input entry at or below the smallest snapshot and not obsolete deletion markers |
| CompactionDrop.KeptIff | ios/Pods/leveldb-library/db/db_impl.cc:925-966 | a compaction keeps exactly what is newer than the snapshot and, for each key, the entry a reader at the snapshot reads, unless that is a deletion marker with nothing below |
| CompactionDrop.DropAtIsDropped | ios/Pods/leveldb-library/db/db_impl.cc:941-962 | one turn of the loop drops an entry if and only if the rule on sets does, for every snapshot below the largest sequence number a tag can hold |
| CompactionDrop.CompactionKeepsView | ios/Pods/leveldb-library/db/db_impl.cc:890-999 | for every snapshot at or above the smallest one, every user key reads the same before and after a compaction, given that no file left in place holds an older entry of a base-level input key |
| CompactionDrop.ViewKeptIffNothingResurrects | ios/Pods/leveldb-library/db/db_impl.cc:944-962 | reads at all those snapshots stay the same if and only if no dropped deletion marker is the newest entry of its key with a value next below it outside the inputs |
| BoundaryFiles.NoOlderLeftIffNoneLeftBehind | ios/Pods/leveldb-library/db/version_set.cc:1403-1411 | for every version and every choice the code can make, no file left at the lower level holds an older entry of an input's user key if and only if there are no lower inputs or no file of their level starts at the user key they end with |
| BoundaryRun.BoundaryFileLeftBehind | ios/Pods/leveldb-library/db/version_set.cc:1403-1411 | a run from a new database ends in a state of three files with one possible choice of inputs, whose compaction, run by its own rules, turns a deleted key's read from not found into its old value |
| BoundaryRun.OnlyChoice | ios/Pods/leveldb-library/db/version_set.cc:1403-1470 | in the state that run ends in no other inputs can be chosen |
| CompactionDrop.NothingSurvivesMaxSnapshot | ios/Pods/leveldb-library/db/db_impl.cc:892-894 | with a smallest snapshot at the largest sequence number the loop would drop everything, so the bound on snapshots is exact |
| CompactionWork.Compaction.IsBaseLevelForKey | ios/Pods/leveldb-library/db/version_set.cc:1533-1552 | with pointers that only move forward and keys asked in ascending order, it answers whether any file two or more levels down covers the key |
| CompactionWork.Compaction.DoCompactionWork | ios/Pods/leveldb-library/db/db_impl.cc:890-999 | the outputs together are exactly the kept entries in order; each but the last ends because it is full or the loop came to an entry with too many bytes of grandparents passed; none was full before its last entry, and the grandparents that end inside one are no more, by size, than the limit |
| CompactionWork.Compaction.ShouldStopBefore | ios/Pods/leveldb-library/db/version_set.cc:1554-1576 | counts the sizes of the grandparents that end between the keys of two calls, from the last stop on, and stops when they exceed the limit |
| VersionSearch.FindFile | ios/Pods/leveldb-library/db/version_set.cc:88-106 | binary search finds the first file whose largest key is not before the target |
| VersionSearch.SomeFileOverlapsRange | ios/Pods/leveldb-library/db/version_set.cc:122-156 | the scan of level 0 and the one-file check of sorted levels both answer whether some file meets the range |
| VersionSearch.GetOverlappingInputs | ios/Pods/leveldb-library/db/version_set.cc:519-559 | the restarting search of level 0 ends with the least range closed under overlap that contains the request, and returns exactly the files meeting it |
| VersionSearch.PickLevelForMemTableOutput | ios/Pods/leveldb-library/db/version_set.cc:491-516 | the level chosen is the first that cannot be passed; above level 0 no file of it or of a level passed meets the range |
| InputSelection.GetRange | ios/Pods/leveldb-library/db/version_set.cc:1205-1227 | the smallest and the largest key of the files |
| InputSelection.FindSmallestBoundaryFile | ios/Pods/leveldb-library/db/version_set.cc:1344-1362 | of the files that start after a key but at its user key, the one starting first, or none if there is none |
| InputSelection.AddBoundaryInputs | ios/Pods/leveldb-library/db/version_set.cc:1378-1401 | adds one boundary file after another, the earliest first, until none is left; keeps the inputs as a prefix, adds no file twice, and keeps the user-key hull of the inputs without gaps |
| InputSelection.SetupOtherInputs | ios/Pods/leveldb-library/db/version_set.cc:1403-1462 | the chosen inputs are closed and gapless, the lower inputs are exactly the files meeting the upper hull, and the upper inputs are grown from the whole hull exactly when that adds files, keeps the count of lower inputs and stays within the size limit |
| InputSelection.SameCountSameFiles | ios/Pods/leveldb-library/db/version_set.cc:1432-1440 | a wider range that meets as many files of the next level meets the same files, so comparing counts is enough |
| InputSelection.PickCompaction | ios/Pods/leveldb-library/db/version_set.cc:1270-1322 | an automatic choice, by size or by seeks: the file it starts from, the list completed from it, and everything the drop theorem and a concurrent flush need; its grandparents are the files two levels down that meet its hull |
| InputSelection.NextChoiceMovesOn | ios/Pods/leveldb-library/db/version_set.cc:1283-1294 | with the pointer a choice leaves behind, the next choice by size starts at a file that was not taken, or goes back to the first one when none lies behind |
| LsmProof.FlushDuringCompaction | ios/Pods/leveldb-library/db/db_impl.cc:906-918 | a memtable flushed in the middle of a level L to L+1 compaction lands below L only if it has no key in the hull of the compaction's inputs |
| LsmProof.InputMeeting | ios/Pods/leveldb-library/db/version_set.cc:491-516 | because the hull of the inputs has no gap, a file meeting the hull meets one of the inputs |
| LsmProof.FlushKeepsInv | ios/Pods/leveldb-library/db/db_impl.cc:491-566 | a flush, whether a compaction is running or not, keeps levels sorted and disjoint, entries older going down, and every live reader's view |
| LsmProof.LeftBehindIsNewer | ios/Pods/leveldb-library/db/version_set.cc:1378-1401 | what boundary collection buys: a file of the input level left out is newer than every input wherever they share a user key |
| LsmProof.BeginKeepsInv | ios/Pods/leveldb-library/db/version_set.cc:1270-1322 | starting a compaction establishes how all other files lie around its inputs |
| LsmProof.OutputsBetween | ios/Pods/leveldb-library/db/db_impl.cc:860-876 | the outputs are older than every file above them and newer than every file below |
| LsmProof.FinishKeepsInv | ios/Pods/leveldb-library/db/db_impl.cc:860-876 | installing the outputs of a compaction that ran while others wrote, read and flushed keeps the whole invariant |
| LsmProof.MoveKeepsInv | ios/Pods/leveldb-library/db/db_impl.cc:718-735 | moving a single input file one level down keeps the whole invariant |
| LsmProof.InsertKeepsInv | ios/Pods/leveldb-library/db/write_batch.cc:119-129 | inserting an entry with the next sequence number keeps the invariant, for readers at any live snapshot |
| LsmRuns.StepKeepsInv | ios/Pods/leveldb-library/db/db_impl.cc:688-767 | every step of the engine keeps the invariant |
| LsmRuns.EveryRunKeepsInv | ios/Pods/leveldb-library/db/db_impl.cc:535-566 | the invariant holds at every point of every run of writes, memtable switches, flushes, moves, compactions and snapshots |
| VersionGet.OneFileDecides | ios/Pods/leveldb-library/db/version_set.cc:366-377 | in a sorted level only the file the binary search finds can hold the newest visible entry |
| VersionGet.GetLevel0 | ios/Pods/leveldb-library/db/version_set.cc:344-365 | going through the level-0 files newest first, each read from its bytes, a hit is the newest entry of the whole version |
| VersionGet.GetSortedLevel | ios/Pods/leveldb-library/db/version_set.cc:366-380 | one file per sorted level, read from its bytes: a hit is the newest entry of the whole version, a miss means nothing in the levels so far |
| VersionGet.Get | ios/Pods/leveldb-library/db/version_set.cc:326-421 | the early-exit search through the levels, reading the bytes of one table after another, finds the newest visible entry of all files and answers with the value its bytes spell, or that there is none |
| TableFiles.KeysCompare | ios/Pods/leveldb-library/db/dbformat.cc:51-67 | comparing the bytes of two internal keys is comparing the user keys by rank and then sequence number and kind |
| TableFiles.SeekKeyStands | ios/Pods/leveldb-library/db/dbformat.cc:121-138 | the bytes a reader at a snapshot seeks stand for the lookup key of its user key and that snapshot |
| TableFiles.FoundAnswers | ios/Pods/leveldb-library/db/version_set.cc:263-276 | what the table reader may show for the seek key, after one comparison of user keys, is the newest visible entry of the file or that it has none |
| TableFiles.Get | ios/Pods/leveldb-library/db/table_cache.cc:41-112 | from the bytes of a table file, through footer, index, filter and one block: the newest entry of the user key visible at the snapshot, and the answer is the value its bytes spell, or not found when its tag says deletion |
| TableFiles.SeekReadsBytes | ios/Pods/leveldb-library/db/version_set.cc:263-276 | in an ascending list the seek finds the first entry of the user key whose tag the snapshot sees, and answers with its value bytes, or not found when its tag says deletion |
| TableFiles.BuildAndGet | ios/Pods/leveldb-library/db/builder.cc:17-77 | a file written and looked up in: the answer is spelled by the first entry, among the bytes written, of the user key that the snapshot sees |
| TableFiles.Build | ios/Pods/leveldb-library/db/builder.cc:17-77 | a file built from sorted entries is one that lookups find exactly these entries in, and entries that leave room for the rest are never refused |
| Ranks.BytewiseIsOrdered | ios/Pods/leveldb-library/util/comparator.cc:25-27 | the built-in comparator orders byte strings as it orders the fractions they are the digits of, so keys may be taken for numbers |
| DbImpl.DBImpl.Write | ios/Pods/leveldb-library/db/db_impl.cc:1198-1238 | a batch's operations get consecutive sequence numbers and go into the memtable in order before the last sequence number moves; then every read, at every snapshot, finds what the last operation on its key the snapshot sees left, and what it found before where there is none |
| DbImpl.DBImpl.SwitchMemTable | ios/Pods/leveldb-library/db/db_impl.cc:1345-1366 | the memtable becomes immutable, a fresh one takes over, the new log gets a new file number |
| DbImpl.DBImpl.CompactMemTable | ios/Pods/leveldb-library/db/db_impl.cc:491-566 | the immutable memtable becomes a table on the level picked for it within the given limit; this is a flush step of the machine |
| DbImpl.DBImpl.Get | ios/Pods/leveldb-library/db/db_impl.cc:1100-1145 | memtable, immutable memtable, then the bytes of the tables of the version: for every snapshot a reader may hold the answer is that of reading everything ever written |
| DbImpl.LayersAnswer | ios/Pods/leveldb-library/db/db_impl.cc:1118-1132 | the first layer with a hit decides exactly as reading the union of all layers would |
| DbImpl.DBImpl.GetSnapshot | ios/Pods/leveldb-library/db/db_impl.cc:1166-1169 | a snapshot is the last sequence number and is protected from then on |
| DbImpl.DBImpl.ReleaseSnapshot | ios/Pods/leveldb-library/db/db_impl.cc:1171-1174 | releasing a snapshot is a step of the machine |
| DbImpl.DBImpl.BackgroundCompaction | ios/Pods/leveldb-library/db/db_impl.cc:688-767 | the inputs are those an automatic choice comes to, at the oldest live snapshot; one file is moved down at once if and only if it is alone and the files two levels down that meet it stay within the limit; the new compaction pointer is the largest key of the upper inputs; the move is a step of the machine, and so is starting to run unless the lower inputs leave a boundary file behind |
| DbImpl.DBImpl.FinishCompaction | ios/Pods/leveldb-library/db/db_impl.cc:878-1048 | merging the input files, running the loop over what the merging iterator delivers, writing the outputs under new numbers and installing them is a finish step of the machine, and of the grandparents found when the compaction was chosen no more end inside an output, by size, than the limit |
| DbImpl.DBImpl.NewIterator | ios/Pods/leveldb-library/db/db_impl.cc:1147-1157 | an iterator over memtables and files shows a key with a value exactly when reading everything ever written at its snapshot finds that value |
| CompactionInput.InputListsFit | ios/Pods/leveldb-library/db/version_set.cc:1237-1268 | the lists the input iterator merges are sorted, share no key and hold exactly the input entries |
| CompactionInput.MakeInputIterator | ios/Pods/leveldb-library/db/version_set.cc:1237-1268 | one child per level-0 file and one for all files of another level: together a cursor over exactly the input entries in key order |
| CompactionInput.ReadAll | ios/Pods/leveldb-library/db/db_impl.cc:905-999 | stepping the iterator from its first entry until it is no longer valid visits the whole merged list |
| InternalIterator.DbListsHold | ios/Pods/leveldb-library/db/version_set.cc:230-246 | memtables, level-0 files and the other levels are sorted lists without shared keys that hold exactly the engine's entries |
| InternalIterator.NewInternalIterator | ios/Pods/leveldb-library/db/db_impl.cc:1062-1087 | the merging iterator over these lists is a cursor over exactly the engine's entries in key order |
| DbImpl.DBImpl.InstallCompactionResults | ios/Pods/leveldb-library/db/db_impl.cc:860-876 | one edit replaces the inputs by the outputs |
| SnapshotList.SnapshotList.New | ios/Pods/leveldb-library/db/snapshot.h:57-71 | a new snapshot is linked in behind the newest; the ring stays doubly linked and ascending |
| SnapshotList.SnapshotList.Delete | ios/Pods/leveldb-library/db/snapshot.h:79-86 | exactly the given snapshot leaves the ring |
| SnapshotList.SnapshotList.Oldest | ios/Pods/leveldb-library/db/snapshot.h:47-50 | the first node of the ring, with the smallest sequence number of all live snapshots |
| VersionBuilder.Builder.Apply | ios/Pods/leveldb-library/db/version_set.cc:650-692 | deletions and additions of an edit are collected, an addition undoing an earlier deletion of its number |
| VersionBuilder.Builder.SaveTo | ios/Pods/leveldb-library/db/version_set.cc:695-753 | each level of the new version is the ordered merge of base and added files without the deleted numbers |
| VersionBuilder.BuilderAgrees | ios/Pods/leveldb-library/db/version_set.cc:650-692 | collecting a list of edits in one builder keeps exactly the files that applying them one version at a time keeps, when added numbers are fresh to their level |
| VersionBuilder.SavedIffNoClash | ios/Pods/leveldb-library/db/version_set.cc:650-753 | for any base and edits, the saved level has the files of the edits applied one version at a time if and only if no file that is gone shares its number with one added to stay, and no file added to stay comes after another with its number and smallest key |
| VersionBuilder.SavedInOrderIff | ios/Pods/leveldb-library/db/version_set.cc:698-753 | the saved level of an ordered base is strictly ordered, so that no file is in it twice, if and only if no file of the base whose number is kept was added again with that number and the same smallest key |
| VersionBuilder.EquivalentAddIsLost | ios/Pods/leveldb-library/db/version_set.cc:593-607 | of two different files with the same number and smallest key, added by two edits, the second is lost |
| VersionBuilder.SavedLevel | ios/Pods/leveldb-library/db/version_set.cc:695-753 | the saved level is sorted and has the files of the edits applied one at a time |
| VersionBuilder.SortedUnique | ios/Pods/leveldb-library/db/version_set.cc:590-612 | a level is determined by its set of files |
| VersionBuilder.ReaddedNumberRestoresDeleted | ios/Pods/leveldb-library/db/version_set.cc:662-692 | without fresh numbers the two differ: a number added again under another key range brings the deleted file back |
| VersionBuilder.EditMatches | ios/Pods/leveldb-library/db/version_set.cc:801-884 | an edit turns a level's file set into the new level's file set |
| Manifest.SnapshotDescribes | ios/Pods/leveldb-library/db/version_set.cc:1088-1116 | the record that opens a manifest describes on its own the version and the compaction pointers it was written from |
| Manifest.AppendRecord | ios/Pods/leveldb-library/db/version_set.cc:843-865 | what one more record changes: files, numbers added, last values of the counters, compaction pointers |
| Manifest.ManifestFilesUnique | ios/Pods/leveldb-library/db/version_set.cc:916-1000 | the records of a manifest describe one version only |
| VersionSet.VersionSet.LogAndApply | ios/Pods/leveldb-library/db/version_set.cc:801-884 | the new version and the longer manifest agree, counters and pointers included; when the record cannot be written nothing is installed but the pointers have moved |
| VersionSet.VersionSet.WriteSnapshot | ios/Pods/leveldb-library/db/version_set.cc:1088-1116 | writes the snapshot record of the current version |
| VersionSet.VersionSet.Recover | ios/Pods/leveldb-library/db/version_set.cc:886-1011 | for every manifest: the error for the field it lacks, or the version its edits collected in one builder save to, its last counters and its pointers; a sound manifest gives its own version and a file counter above every file |
| VersionSet.VersionSet.ReplayRecords | ios/Pods/leveldb-library/db/version_set.cc:924-980 | the replay loop collects every record in one builder and keeps the last value of each counter |
| VersionSet.RecoverRebuilds | ios/Pods/leveldb-library/db/version_set.cc:777-1011 | for any manifest and version it describes, after an edit is logged the version recovered from the records is the edited one, and log numbers, file counter, last sequence number and pointers are those the edit was logged with |
| VersionSet.LogAndRecover | ios/Pods/leveldb-library/db/version_set.cc:777-1011 | a version set that logs an edit, and a new one recovered from its manifest: the same version, log numbers and last sequence number, and the next file number one higher |
| VersionSet.LoggedState | ios/Pods/leveldb-library/db/version_set.cc:801-884 | everything a logged edit leaves in the manifest |
| VersionSet.VersionSet.NewFileNumber | ios/Pods/leveldb-library/db/version_set.h:194-194 | hands out a number above every file of the version |
| VersionSet.VersionSet.ReuseFileNumber | ios/Pods/leveldb-library/db/version_set.h:197-203 | takes back the last number only if no later one was handed out; the counter stays above every number in use if and only if the number taken back is not in use |
| VersionSet.VersionSet.MarkFileNumberUsed | ios/Pods/leveldb-library/db/version_set.cc:1044-1048 | moves the counter past a number and never back |
| VersionSet.VersionSet.ApplyPointers | ios/Pods/leveldb-library/db/version_set.cc:652-657 | the compaction pointers of an edit take effect in order |
| VersionEditCodec.DecodeUndoesEncode | ios/Pods/leveldb-library/db/version_edit.cc:107-205 | decoding a written edit gives that edit; pointers already in the decoding object stay in front, since Clear leaves them |
| VersionEditCodec.VersionEdit.EncodeTo | ios/Pods/leveldb-library/db/version_edit.cc:41-85 | appends the fields of the edit in their fixed order |
| VersionEditCodec.VersionEdit.DecodeFrom | ios/Pods/leveldb-library/db/version_edit.cc:107-205 | for every input: the fields up to the first malformed one, and which message that one gets |
| VersionEditCodec.VersionEdit.Clear | ios/Pods/leveldb-library/db/version_edit.cc:26-39 | forgets everything except the compaction pointers |
| VersionEditCodec.ItemsDecode | ios/Pods/leveldb-library/db/version_edit.cc:121-192 | any list of well-formed fields decodes to the edit those fields put together |
| VersionEditCodec.InsertedKeepsOrder | ios/Pods/leveldb-library/db/version_edit.h:87-89 | the set of deleted files stays ordered and holds a file once |
| VersionEditCodec.VersionEdit.DeleteFile | ios/Pods/leveldb-library/db/version_edit.h:73-76 | adds the file to the ordered set of deleted files |
| RecoveryProof.FilesHoldEverything | ios/Pods/leveldb-library/db/db_impl.cc:280-369 | at every reachable state the manifest's tables and the logs numbered from LogNumber on hold exactly the engine's entries and the batch being inserted, and all those tables are on disk |
| RecoveryProof.AppendKeepsInv | ios/Pods/leveldb-library/db/db_impl.cc:1212-1223 | logging a batch keeps the invariant between logs and memtables |
| RecoveryProof.SwitchLogKeepsInv | ios/Pods/leveldb-library/db/db_impl.cc:1345-1366 | so does starting a new log together with a new memtable |
| RecoveryProof.InstallKeepsInv | ios/Pods/leveldb-library/db/db_impl.cc:535-566 | so does installing tables, because the table and the new log number are one manifest record |
| RecoveryProof.DeleteObsoleteKeepsInv | ios/Pods/leveldb-library/db/db_impl.cc:223-278 | so does deleting files that are neither live, pending nor logs from LogNumber on |
| RecoveryProof.WriteFileKeepsInv | ios/Pods/leveldb-library/db/db_impl.cc:811-858 | so does writing a table file that no version uses yet |
| RecoveryRestart.RestartKeepsInv | ios/Pods/leveldb-library/db/db_impl.cc:280-489 | recovery from any reachable state, mid-batch or mid-compaction, gives a database that satisfies every invariant over everything appended |
| RecoveryRestart.RestartKeepsRead | ios/Pods/leveldb-library/db/db_impl.cc:371-489 | a reader of the reopened database sees what reading everything appended gives |
| RecoveryRestart.RecoveredSequence | ios/Pods/leveldb-library/db/db_impl.cc:360-368 | the recovered last sequence number is at or above every appended entry's, and still fits its width |
| RecoveryRuns.DbStepKeepsInv | ios/Pods/leveldb-library/db/db_impl.cc:223-566 | every step of the database with its files, restarts included, keeps the invariant |
| RecoveryRuns.EveryDbRunKeepsInv | ios/Pods/leveldb-library/db/db_impl.cc:223-566 | the invariant holds at every point of every run, through any number of crashes |
| RecoveryRuns.WrittenIsAppended | ios/Pods/leveldb-library/db/db_impl.cc:1212-1238 | no step and no crash loses or invents an appended entry |
| RecoveryRuns.CrashLosesNothing | ios/Pods/leveldb-library/db/db_impl.cc:280-489 | after a crash at any point of any run, every read of the reopened database is the read of everything appended |
| DbRecover.RecoverLogFile | ios/Pods/leveldb-library/db/db_impl.cc:371-489 | replaying the bytes of one log, whole or cut off, through the log reader and the batch parser: the entries of its whole records go into level-0 tables, in order, under new numbers |
| DbRecover.RecoverLogs | ios/Pods/leveldb-library/db/db_impl.cc:314-358 | the log files from the manifest's log number on are replayed in ascending order |
| DbRecover.MissingFiles | ios/Pods/leveldb-library/db/db_impl.cc:330-345 | the live table numbers without a file on disk |
| DbRecover.Recover | ios/Pods/leveldb-library/db/db_impl.cc:280-369 | manifest, check for missing tables, bytes of the logs: exactly the recovered files of the crash model, and a counter above all numbers |
| DbRecover.Open | ios/Pods/leveldb-library/db/db_impl.cc:1474-1515 | opening after a crash, with logs that may end in a record half written, gives a database the crash model calls recovered, with a new log and a new manifest |
| DbRecover.OpenAfterCrash | ios/Pods/leveldb-library/db/db_impl.cc:280-489 | from any point of any run, and a disk that may end in a record half written: reads of the recovered tables give what reading everything ever appended gives, and that is what the last operation appended on the key left |
| DbRecover.AppendedReads | ios/Pods/leveldb-library/db/db_impl.cc:1212-1224 | reading everything a run appended finds, for every key, what the last operation on it in the batches left |
| LogBytes.AppendBatch | ios/Pods/leveldb-library/db/db_impl.cc:1212-1216 | whatever byte the log is cut off after while a batch is appended, it holds the batches it held before, and the new one only when all of it is there |
| LogBytes.AppendToLog | ios/Pods/leveldb-library/db/db_impl.cc:1212-1216 | at every byte of appending a batch the disk holds the database as it was, at the last one the database with the batch appended |
| LogBytes.ReadBatch | ios/Pods/leveldb-library/db/db_impl.cc:419-438 | the bytes of a record give the entries of its batch and the last number it uses up; added to any older entries they leave, for every key and snapshot, what the last operation seen wrote |
| BatchReads.BatchAdds | ios/Pods/leveldb-library/db/write_batch.cc:116-137 | after the entries of a batch every read finds the value last put, nothing after a deletion, and what it found before where the batch has no operation on the key, at snapshots inside the batch too |
| DbIter.LiveIsRead | ios/Pods/leveldb-library/db/db_iter.cc:168-198 | a key is in the list the iterator shows exactly when reading it at the snapshot finds a value, and with that value |
| DbIter.LiveKeysAscend | ios/Pods/leveldb-library/db/db_iter.cc:168-198 | the shown keys ascend, each once |
| DbIter.DBIter.FindNextUserEntry | ios/Pods/leveldb-library/db/db_iter.cc:168-198 | walking forward stops at the first shown entry past the saved key |
| DbIter.DBIter.FindPrevUserEntry | ios/Pods/leveldb-library/db/db_iter.cc:227-267 | walking backward over whole user keys stops with the value of the nearest shown key and the iterator just before that key |
| DbIter.DBIter.Seek | ios/Pods/leveldb-library/db/db_iter.cc:269-281 | moves the cursor to the first shown key at or after the target |
| DbIter.DBIter.SeekToFirst | ios/Pods/leveldb-library/db/db_iter.cc:283-292 | moves the cursor to the first shown key |
| DbIter.DBIter.SeekToLast | ios/Pods/leveldb-library/db/db_iter.cc:294-299 | moves the cursor to the last shown key |
| DbIter.DBIter.Next | ios/Pods/leveldb-library/db/db_iter.cc:141-166 | moves the cursor one place on, from either direction |
| DbIter.DBIter.Prev | ios/Pods/leveldb-library/db/db_iter.cc:200-225 | moves the cursor one place back, from either direction |
| DbIter.DBIter.CursorShows | ios/Pods/leveldb-library/db/db_iter.cc:52-63 | a valid iterator shows the entry at its cursor |
| Merger.UnionIsMerge | ios/Pods/leveldb-library/table/merger.cc:13-29 | the sorted union of the children's lists exists and has exactly their entries |
| Merger.MergingIterator.FindSmallest | ios/Pods/leveldb-library/table/merger.cc:148-161 | of children standing at or after a place of the union, the smallest stands on it |
| Merger.MergingIterator.FindLargest | ios/Pods/leveldb-library/table/merger.cc:163-176 | of children standing before a place, the largest stands on the place before it |
| Merger.MergingIterator.Seek | ios/Pods/leveldb-library/table/merger.cc:47-53 | moves the cursor over the union to the first key at or after the target |
| Merger.MergingIterator.SeekToFirst | ios/Pods/leveldb-library/table/merger.cc:31-37 | moves it to the first place |
| Merger.MergingIterator.SeekToLast | ios/Pods/leveldb-library/table/merger.cc:39-45 | moves it to the last place |
| Merger.MergingIterator.Next | ios/Pods/leveldb-library/table/merger.cc:55-79 | moves it one place on, repositioning the children when the direction changes |
| Merger.MergingIterator.Prev | ios/Pods/leveldb-library/table/merger.cc:81-108 | moves it one place back, repositioning the children when the direction changes |
| Cursors.ListIterator.Seek | ios/Pods/leveldb-library/include/leveldb/iterator.h:31-66 | the cursor every internal iterator stands for: the first entry at or after the target |
| SkipList.SkipList.Publish | ios/Pods/leveldb-library/db/skiplist.h:357-363 | the write that links a node on one level leaves a proper skip list: sorted keys and every link leading to the next node linked on its level |
| SkipList.SkipList.PrepareLevel | ios/Pods/leveldb-library/db/skiplist.h:357-361 | the write before it, of the new node's own link, changes nothing a reader can reach |
| SkipList.SkipList.RaiseHeight | ios/Pods/leveldb-library/db/skiplist.h:344-356 | a higher list starts its new levels at the head |
| SkipList.SkipList.Insert | ios/Pods/leveldb-library/db/skiplist.h:337-365 | the new entry appears at its place in key order, whatever the height of its node |
| SkipList.SkipList.FindWhileInserting | ios/Pods/leveldb-library/db/skiplist.h:260-280 | a search among any number of insertions, the height of the list growing included, with writes falling anywhere between its loads: it returns what a search of the list as it stands at the end would, and that list has the entries of the first n insertions |
| SkipList.SkipList.LinkOnce | ios/Pods/leveldb-library/db/skiplist.h:357-363 | each single write of an insertion keeps the list valid, its entries those of the first insertions, and what a search in flight has found |
| SkipList.SkipList.WriterStep | ios/Pods/leveldb-library/db/skiplist.h:357-363 | after every single write of an insertion the list is valid |
| SkipList.SearchKept | ios/Pods/leveldb-library/db/skiplist.h:260-280 | no link write undoes what a search in flight has found |
| SkipList.SkipList.FindGreaterOrEqual | ios/Pods/leveldb-library/db/skiplist.h:260-280 | the first node at or after the key, and on every level the last node before it |
| SkipList.SkipList.FindLessThan | ios/Pods/leveldb-library/db/skiplist.h:283-302 | the last node before the key, or the head |
| SkipList.SkipList.FindLast | ios/Pods/leveldb-library/db/skiplist.h:305-322 | the last node, or the head |
| SkipList.SkipList.Contains | ios/Pods/leveldb-library/db/skiplist.h:367-376 | whether some entry has the key |
| SkipList.ShiftNext | ios/Pods/leveldb-library/db/skiplist.h:337-365 | a node that is linked nowhere yet changes no level |
| SkipList.RaiseNext | ios/Pods/leveldb-library/db/skiplist.h:337-365 | linking a node on one more level puts it between the node before and the node after on that level only |
| SkipList.Iterator.Seek | ios/Pods/leveldb-library/db/skiplist.h:222-224 | stands on the first entry at or after the target |
| SkipList.Iterator.Next | ios/Pods/leveldb-library/db/skiplist.h:203-206 | one entry on |
| SkipList.Iterator.Prev | ios/Pods/leveldb-library/db/skiplist.h:209-219 | one entry back, found by a search from the head |
| SkipList.Iterator.SeekToFirst | ios/Pods/leveldb-library/db/skiplist.h:227-229 | stands on the first entry |
| SkipList.Iterator.SeekToLast | ios/Pods/leveldb-library/db/skiplist.h:232-237 | stands on the last entry |
| SortedGet.SeekAnswers | ios/Pods/leveldb-library/db/memtable.cc:100-136 | seeking the lookup key and comparing one user key finds the newest visible entry, or that there is none |
| MemTables.MemTable.Add | ios/Pods/leveldb-library/db/memtable.cc:75-98 | adds one entry to the memtable's contents |
| MemTables.MemTable.Get | ios/Pods/leveldb-library/db/memtable.cc:100-136 | the newest visible entry of the key in the memtable, a deletion marker counting as an answer |
| LogWriter.Writer.AddRecord | ios/Pods/leveldb-library/db/log_writer.cc:34-80 | appends one record, cut into fragments that never cross a block boundary, and terminates even when a block has room for a header only |
| LogWriter.Writer.EmitFragment | ios/Pods/leveldb-library/db/log_writer.cc:44-78 | one turn of the loop: trailer if needed, then as much of the record as fits |
| LogWriter.Writer.EmitPhysicalRecord | ios/Pods/leveldb-library/db/log_writer.cc:82-108 | header and payload as the format says |
| LogWriter.Writer.Reopen | ios/Pods/leveldb-library/db/log_writer.cc:27-30 | a writer opened at a file's length continues that log |
| LogReader.Reader.ReadPhysicalRecord | ios/Pods/leveldb-library/db/log_reader.cc:189-271 | for every file and position, the next physical record with its own type byte, or which kind of end or damage it meets |
| LogReader.Reader.ReadRecord | ios/Pods/leveldb-library/db/log_reader.cc:56-174 | for every file and position, the next assembled record and the reports made on the way; a record whose type byte is the reader's own mark for end of file ends the log without a report, one with the mark for a bad record counts as one |
| LogIntact.ReturnedIffIntact | ios/Pods/leveldb-library/db/log_reader.cc:189-271 | a whole physical record is returned if and only if its bytes are what a writer writes for it; other bytes are reported and the rest of the block is given up |
| LogIntact.RecordIsIntact | ios/Pods/leveldb-library/db/log_reader.cc:56-174 | on any file, damaged or not, a record returned is made of fragments that lie there one behind another byte for byte as a writer writes them |
| LogIntact.EveryRecordIsIntact | ios/Pods/leveldb-library/db/log_reader.cc:56-174 | so is every record a loop over ReadRecord gets |
| LogRoundTrip.ReadsBackWhole | ios/Pods/leveldb-library/db/log_reader.cc:56-271 | a log cut off after any number of bytes reads back exactly the records wholly inside it, with no corruption report |
| LogRoundTrip.ReadsBackAll | ios/Pods/leveldb-library/db/log_reader.cc:56-174 | the whole log, written by one writer or several one after another, reads back all records |
| LogRoundTrip.ReadLog | ios/Pods/leveldb-library/db/db_impl.cc:371-489 | the replay loop over ReadRecord on a cut-off file gives those records |
| LogFormat.RecordAt | ios/Pods/leveldb-library/db/log_format.h:1-34 | every physical record lies where the format puts it |
| Crc32c.UnmaskMask | ios/Pods/leveldb-library/util/crc32c.h:24-38 | unmasking undoes masking |
| WriteBatches.BatchRoundTrip | ios/Pods/leveldb-library/db/write_batch.cc:42-80 | the bytes of a batch parse back to its operations, sequence number and count |
| WriteBatches.WriteBatch.Iterate | ios/Pods/leveldb-library/db/write_batch.cc:42-80 | for every byte string: the operations handed on before the first malformed one, and the status |
| WriteBatches.WriteBatch.Put | ios/Pods/leveldb-library/db/write_batch.cc:98-103 | appends a put and counts it |
| WriteBatches.WriteBatch.Delete | ios/Pods/leveldb-library/db/write_batch.cc:105-109 | appends a delete and counts it |
| WriteBatches.WriteBatch.Append | ios/Pods/leveldb-library/db/write_batch.cc:144-149 | appends the other batch's operations and adds the counts |
| WriteBatches.WriteBatch.InsertInto | ios/Pods/leveldb-library/db/write_batch.cc:116-137 | the i-th operation gets the batch's sequence number plus i |
| GroupCommit.GroupIsGood | ios/Pods/leveldb-library/db/db_impl.cc:1260-1306 | a group has no sync write behind a leader that does not sync, stays within the size limit, and is as long as these rules allow |
| GroupCommit.StepKeepsInv | ios/Pods/leveldb-library/db/db_impl.cc:1185-1258 | every step between two releases of the mutex keeps: queue order, contiguous ranges, log and sync state, what is in the memtable, errors |
| GroupCommit.EveryRunKeepsInv | ios/Pods/leveldb-library/db/db_impl.cc:1185-1258 | the invariant, with sync writers told OK only by a synced log record that covers them, holds at every point of every run |
| GroupCommit.PoppedOnceInOrder | ios/Pods/leveldb-library/db/db_impl.cc:1243-1257 | every queued writer is popped exactly once and in the order it came |
| GroupCommit.RunParcelsOutNumbers | ios/Pods/leveldb-library/db/db_impl.cc:1204-1236 | at every moment of every run the sequence numbers so far are parcelled out to the writers in queue order, without gaps or overlap: none to a writer that was refused before it came to the log, to every other as many as its batch has entries, whether its log record and sync succeeded or not |
| GroupCommit.SnapshotsNeverSplitBatches | ios/Pods/leveldb-library/db/db_impl.cc:1204-1236 | a snapshot taken at any moment sees each batch wholly or not at all, then and ever after |
| WriteQueue.Queue.BuildBatchGroup | ios/Pods/leveldb-library/db/db_impl.cc:1260-1306 | the group's batches joined in queue order, with only the temporary batch written to |
| WriteQueue.Queue.LogAndInsert | ios/Pods/leveldb-library/db/db_impl.cc:1206-1235 | one log record for the group, numbered from the last sequence number on; nothing inserted unless the log took it and, for a sync write, was synced |
| WriteQueue.Queue.PopGroup | ios/Pods/leveldb-library/db/db_impl.cc:1243-1257 | exactly the group leaves the queue, and all of it but the leader is told the outcome |
| WriteQueue.Queue.Commit | ios/Pods/leveldb-library/db/db_impl.cc:1185-1258 | what a leader does for its group, the last sequence number moving even when the log failed; the queue is as well formed afterwards |
| WriteQueue.Queue.PushBack | ios/Pods/leveldb-library/db/db_impl.cc:1191-1191 | a writer enters at the end of the queue |
| BlockBuilder.Builder.Add | ios/Pods/leveldb-library/table/block_builder.cc:72-106 | appends an entry, its key cut where it agrees with the one before, restarting at every interval |
| BlockBuilder.Builder.Finish | ios/Pods/leveldb-library/table/block_builder.cc:62-70 | the finished bytes of exactly the entries added |
| BlockBuilder.Builder.CountShared | ios/Pods/leveldb-library/table/block_builder.cc:79-87 | the length of the longest common prefix with the last key |
| BlockIter.DecodeHeader | ios/Pods/leveldb-library/table/block.cc:54-76 | three lengths decode as they were encoded, on the one-byte fast path and the varint path |
| BlockIter.DecodeAt | ios/Pods/leveldb-library/table/block.cc:54-76 | decoding at an entry's offset gives that entry's lengths, key bytes and value |
| BlockIter.Iter.ParseNextKey | ios/Pods/leveldb-library/table/block.cc:224-251 | the next entry with its whole key, or the end |
| BlockIter.Iter.FindRestart | ios/Pods/leveldb-library/table/block.cc:163-190 | binary search ends at the last restart point whose key is before the target |
| BlockIter.Iter.Seek | ios/Pods/leveldb-library/table/block.cc:163-201 | stands on the first entry whose key is not before the target, as a linear search would |
| BlockIter.Iter.SeekToFirst | ios/Pods/leveldb-library/table/block.cc:203-206 | stands on the first entry |
| BlockIter.Iter.SeekToLast | ios/Pods/leveldb-library/table/block.cc:208-213 | stands on the last entry |
| BlockIter.Iter.Next | ios/Pods/leveldb-library/table/block.cc:137-140 | stands on the next entry |
| BlockIter.Iter.Prev | ios/Pods/leveldb-library/table/block.cc:142-161 | stands on the entry before |
| BlockRoundTrip.WriteAndRead | ios/Pods/leveldb-library/table/block_builder.cc:62-106 | any list of entries with any restart interval, written in that form, comes back as it was if and only if the block stays below 32-bit offsets, and a list whose keys and values leave room for the bookkeeping always does |
| Comparators.InternalSeparates | ios/Pods/leveldb-library/db/dbformat.cc:69-101 | over an honest user comparator the internal one is transitive, separates and succeeds as a comparator must |
| Comparators.InternalSeparator | ios/Pods/leveldb-library/db/dbformat.cc:69-86 | a separator is the first key itself or has a user key strictly between the two user keys |
| Comparators.InternalSuccessor | ios/Pods/leveldb-library/db/dbformat.cc:88-101 | a short successor is the key itself or has a larger user key |
| Comparators.BytewiseIsHonest | ios/Pods/leveldb-library/util/comparator.cc:20-64 | the built-in comparator keeps every promise asked of a comparator |
| Comparators.FindShortestSeparator | ios/Pods/leveldb-library/util/comparator.cc:28-49 | the byte loop computes the separator those promises are proved of |
| Comparators.FindShortSuccessor | ios/Pods/leveldb-library/util/comparator.cc:51-63 | the byte loop computes the successor those promises are proved of |
| Comparators.BytewiseSeparates | ios/Pods/leveldb-library/util/comparator.cc:28-49 | the separator lies in [start, limit), and is start where there is nothing to separate |
| Comparators.SeparatorIsShortest | ios/Pods/leveldb-library/util/comparator.cc:29-50 | a separator that is not the key itself is as short as any key from it up to the limit |
| Comparators.SuccessorIsShortest | ios/Pods/leveldb-library/util/comparator.cc:52-64 | a successor is as short as any key at or after the key |
| FilterBlock.FilterBlockBuilder.StartBlock | ios/Pods/leveldb-library/table/filter_block.cc:21-27 | closes the filters of the 2048-byte stretches before the block |
| FilterBlock.FilterBlockBuilder.AddKey | ios/Pods/leveldb-library/table/filter_block.cc:29-33 | the key waits for the filter of the current block's offset |
| FilterBlock.FilterBlockBuilder.GenerateFilter | ios/Pods/leveldb-library/table/filter_block.cc:51-75 | one filter of exactly the waiting keys, recovered from their flattened form |
| FilterBlock.FilterBlockBuilder.Finish | ios/Pods/leveldb-library/table/filter_block.cc:35-49 | the finished block may match every added key at the offset it was added at, with an honest policy |
| FilterBlock.KeyFound | ios/Pods/leveldb-library/table/filter_block.cc:90-104 | the reader's offset arithmetic asks the filter the key is in |
| FilterBlock.EmptyFilterRefusesIff | ios/Pods/leveldb-library/table/filter_block.cc:90-104 | at an offset whose stretch got no key the reader answers what the policy says of the empty filter, so it rules out every key if and only if the policy refuses the empty filter |
| FilterBlock.EmptyFilterMatches | ios/Pods/leveldb-library/table/filter_block.cc:90-104 | an honest policy with which an empty filter may match every key |
| FilterBlock.InternalPolicyMatches | ios/Pods/leveldb-library/db/dbformat.cc:105-119 | a filter of internal keys matches every key with the user key of one of them |
| TableFormat.FooterRoundTrip | ios/Pods/leveldb-library/table/format.cc:31-62 | the footer decodes to the handles it was made of |
| TableFormat.HandleRoundTrip | ios/Pods/leveldb-library/table/format.cc:15-29 | a handle decodes to itself, whatever follows, in at most twenty bytes |
| TableFormat.ReadStored | ios/Pods/leveldb-library/table/format.cc:64-139 | reading a stored block, compressed or not, gives its contents, checksum checked or not |
| TableBuilder.TableBuilder.Add | ios/Pods/leveldb-library/table/table_builder.cc:94-123 | adds an entry; the block before gets its index entry only now, with a separator shortened against this key |
| TableBuilder.TableBuilder.Flush | ios/Pods/leveldb-library/table/table_builder.cc:125-139 | the data block is written and its filter stretch started anew; its index entry has to wait |
| TableBuilder.TableBuilder.WriteBlock | ios/Pods/leveldb-library/table/table_builder.cc:141-175 | the block lies in the file where the handle says, in a form that reads back as that block |
| TableBuilder.TableBuilder.Finish | ios/Pods/leveldb-library/table/table_builder.cc:198-253 | the file is a table of exactly the entries added, unless some size outgrew its field |
| TableModel.FlushBuilds | ios/Pods/leveldb-library/table/table_builder.cc:125-139 | what a flush keeps: blocks cut the entries in order, each stored, the index one behind |
| TableModel.TableDone | ios/Pods/leveldb-library/table/table_builder.cc:198-253 | data, filters, meta index, index and footer written one after the other make a table |
| TableReader.ReadsIndex | ios/Pods/leveldb-library/table/table.cc:38-82 | opening a finished table finds its index and meta index |
| TableReader.Table.ReadMeta | ios/Pods/leveldb-library/table/table.cc:84-136 | the meta index leads to the filters the builder wrote |
| TableReader.Table.BlockReader | ios/Pods/leveldb-library/table/table.cc:155-208 | an index value leads to the data block it was written for |
| TableLookup.IndexAscends | ios/Pods/leveldb-library/table/table_builder.cc:102-110 | the separators ascend, so the index can be searched |
| TableLookup.BlockOfKey | ios/Pods/leveldb-library/table/table.cc:216-220 | the place of any key among all entries lies in the block the index seek finds or just behind it |
| TableLookup.NoUserKeyBehind | ios/Pods/leveldb-library/db/dbformat.cc:69-86 | when the key is between a block's last entry and its separator, the next entry has another user key |
| TableLookup.LookupAnswers | ios/Pods/leveldb-library/table/table.cc:216-244 | one block decides: the first entry at or after the key is found if it has the key's user key |
| TableReader.Table.InternalGet | ios/Pods/leveldb-library/table/table.cc:216-244 | index seek, filter check and one block seek find the first entry at or after the key whenever it has the same user key, and never show another entry |
| TableRoundTrip.BuildAndGet | ios/Pods/leveldb-library/table/table_builder.cc:94-253 | the same end to end, for any ascending entries, block size, restart interval, compression, honest comparator and honest policy; a table is refused only if a part outgrew its offsets, and never if keys and values leave room for the rest |
| TableSizes.WholeIndexBound | ios/Pods/leveldb-library/table/table_builder.cc:94-253 | however the entries are cut into blocks, the size of the index is bounded by that of the entries |
| TableSizes.InternalIsShort | ios/Pods/leveldb-library/db/dbformat.cc:69-101 | separators of internal keys are never longer than the key they stand behind |
| Coding.VarintRoundTrip | ios/Pods/leveldb-library/util/coding.cc:47-101 | a varint decodes to the number and exactly its bytes, whatever follows |
| Coding.LengthPrefixedRoundTrip | ios/Pods/leveldb-library/util/coding.cc:98-101 | so does a length-prefixed string |
| Coding.Fixed64RoundTrip | ios/Pods/leveldb-library/util/coding.cc:9-33 | so does a fixed-width number |
| PbVarint.Uint64RoundTrip | ios/Pods/nanopb/pb_encode.c:608-628 | every 64-bit number takes at most ten bytes and decodes back from exactly those |
| PbVarint.ZigzagRoundTrip | ios/Pods/nanopb/pb_encode.c:630-639 | zigzag numbers the integers 0, -1, 1, -2, ... and undoes itself for every 64-bit integer |
| PbVarint.UnzigzagRoundTrip | ios/Pods/nanopb/pb_decode.c:1269-1281 | every 64-bit word is the zigzag number of the integer it decodes to |
| PbVarint.Decode32Exactly | ios/Pods/nanopb/pb_decode.c:187-253 | the 32-bit decoder on the encoder's output, for every 64-bit number: returned, returned cut to 32 bits if it passes for a sign extension, or refused |
| PbVarint.Decode32Negative | ios/Pods/nanopb/pb_decode.c:187-253 | every sign-extended negative 32-bit number comes back |
| PbVarint.Decode32Refuses | ios/Pods/nanopb/pb_decode.c:187-253 | every number from 2^32 up to 2^63 is refused |
| PbVarint.Decode32TakesMore | ios/Pods/nanopb/pb_decode.c:213-236 | a number that is no sign extension and is still accepted, so the exact condition above is needed |
| PbCommon.FieldIter.Next | ios/Pods/nanopb/pb_common.c:20-76 | the next field, or back to the first; required index and data pointer are those of the position |
| PbCommon.FieldIter.Find | ios/Pods/nanopb/pb_common.c:78-97 | the first field with the tag from the current one on, with wrap-around, or none exists |
| PbEncode.OStream.Write | ios/Pods/nanopb/pb_encode.c:103-132 | all of the bytes or an error, the count moving by exactly what was written |
| PbEncode.EncodeArray | ios/Pods/nanopb/pb_encode.c:147-236 | the array, packed or item by item, as the spec function says, on any stream |
| PbEncode.EncodePackedArray | ios/Pods/nanopb/pb_encode.c:160-205 | size, length prefix and items of a packed array |
| PbEncode.EncodeField | ios/Pods/nanopb/pb_encode.c:341-468 | one field as the spec function says, skipped when absent or at its default |
| PbEncode.EncodeSubmessage | ios/Pods/nanopb/pb_encode.c:717-765 | sizing, length prefix and second pass: the second pass always writes what the first counted, so "submsg size changed" never happens |
| PbEncode.EncodeMessage | ios/Pods/nanopb/pb_encode.c:528-550 | all fields in order, on a counting or a writing stream alike |
| PbEncode.GetEncodedSize | ios/Pods/nanopb/pb_encode.c:567-576 | the counting pass finds exactly the length of the encoding, at every depth |
| PbEncode.EncodeToBuffer | ios/Pods/nanopb/pb_encode.c:528-550 | encoding into a buffer succeeds if and only if the message can be encoded and the counted size fits, and then the buffer holds the encoding |
| PbDecode.DecodeVarint32 | ios/Pods/nanopb/pb_decode.c:187-253 | the byte loop with its 32-bit word computes the decoding function |
| PbDecode.DecodeVarintFrom | ios/Pods/nanopb/pb_decode.c:255-276 | so does the 64-bit loop |
| PbDecode.DecodeTagFrom | ios/Pods/nanopb/pb_decode.c:298-319 | tag, end of message or error, a zero tag ending the message |
| PbDecode.SkipFieldFrom | ios/Pods/nanopb/pb_decode.c:321-331 | skips exactly one field of a wire type |
| PbDecode.MakeSubstream | ios/Pods/nanopb/pb_decode.c:372-385 | splits off a stream of the announced length, the budgets of both adding up |
| PbDecode.CloseSubstream | ios/Pods/nanopb/pb_decode.c:387-404 | goes on behind the substream |
| PbDecode.DecodeFieldFrom | ios/Pods/nanopb/pb_decode.c:406-480 | one occurrence of a field, for every field kind and wire type |
| PbDecode.DecodeSubmessage | ios/Pods/nanopb/pb_decode.c:1503-1525 | a submessage merged into what is there, array items starting from the defaults |
| PbDecode.CheckRequired | ios/Pods/nanopb/pb_decode.c:1036-1068 | the bit masks over two words say whether every required field was seen |
| PbDecode.DecodeNoinit | ios/Pods/nanopb/pb_decode.c:925-1073 | for every input and descriptor the message or the failure the decoding function gives |
| PbDecode.Decode | ios/Pods/nanopb/pb_decode.c:1075-1087 | the same into a message set to its defaults |
| PbDecode.FindsUnique | ios/Pods/nanopb/pb_common.c:78-97 | the wrapping search for a tag has one answer |
| PbRoundTrip.ValueRoundTrip | ios/Pods/nanopb/pb_decode.c:1318-1548 | every value of a field comes back, whatever bytes follow |
| PbRoundTrip.ArrayRoundTrip | ios/Pods/nanopb/pb_encode.c:147-236 | every array within its capacity comes back, packed or not |
| PbRoundTrip.FieldsRoundTrip | ios/Pods/nanopb/pb_encode.c:528-550 | after the bytes of the first n fields the decoder holds those fields and the defaults of the others |
| PbRoundTrip.DefaultIsInit | ios/Pods/nanopb/pb_encode.c:240-337 | a field skipped as zero is at the value the decoder starts from |
| PbRoundTrip.DecodeUndoesEncode | ios/Pods/nanopb/pb_decode.c:925-1087 | decoding the encoding of a message gives the message, for every descriptor tree of static fields, when its strings are terminated |
| PbRoundTrip.UnterminatedStringIsRefused | ios/Pods/nanopb/pb_decode.c:1468-1501 | a string without its terminator is written out whole and refused by the decoder |
| PbTerminated.RoundTripIffTerminated | ios/Pods/nanopb/pb_decode.c:1468-1501 | a message comes back from encoding and decoding if and only if all its strings, at every depth, are terminated |
| PbTerminated.MessageStaysClosed | ios/Pods/nanopb/pb_decode.c:925-1073 | whatever the input, every string a successful decoding leaves ends in a zero |
| PbCompat.UnknownFieldIsSkipped | ios/Pods/nanopb/pb_decode.c:321-334 | a field the descriptor does not have is passed over, whatever number, word, double word or string it holds |
| PbCompat.UnknownKindIsRefused | ios/Pods/nanopb/pb_decode.c:321-334 | an unknown field of any other wire type is refused |
| PbCompat.NewFieldIsIgnored | ios/Pods/nanopb/pb_decode.c:925-1073 | a message written with one more field than the decoder knows decodes to the message without that field |
| PbCompat.FieldIsStored | ios/Pods/nanopb/pb_decode.c:406-485 | a number or string is stored whatever the field held before |
| PbCompat.LastOneWins | ios/Pods/nanopb/pb_decode.c:406-485 | of two values for one field, or for two members of a union, the last one counts |
| PbCompat.PackedIsAppended | ios/Pods/nanopb/pb_decode.c:424-453 | a packed array is appended to the items there are |
| PbCompat.ItemIsAppended | ios/Pods/nanopb/pb_decode.c:454-464 | an item with its own tag is appended too, also where the encoder would pack |
| PbCompat.FullArrayRefuses | ios/Pods/nanopb/pb_decode.c:424-464 | an item for which the array has no room is refused, packed or not |
| PbCompat.AcceptedIffComplete | ios/Pods/nanopb/pb_decode.c:1036-1068 | input whose fields decode is accepted if and only if every required field, of the first 64 of them, occurs in it |
| PbCompat.NumberInRange | ios/Pods/nanopb/pb_decode.c:1329-1412 | a varint is taken if its value fits the size of the field and refused otherwise |
| PbCompat.DataInRange | ios/Pods/nanopb/pb_decode.c:1431-1548 | a string or byte array is taken if the buffer of the field has room for it and refused otherwise |
| PbCompat.LeftOutIff | ios/Pods/nanopb/pb_encode.c:240-337 | a field leaves no bytes if and only if it is at its default and of a kind that can be left out |
| PbConcat.PartAfterPart | ios/Pods/nanopb/pb_decode.c:925-1073 | input one part after another: the fields of the second are decoded into what the first left, so messages written one after another are merged |
| PbConcat.SubmessageIsMerged | ios/Pods/nanopb/pb_decode.c:1503-1525 | a submessage is decoded into the one there is, or into the defaults where there is none |
| PbConcat.CutFieldIsRefused | ios/Pods/nanopb/pb_decode.c:87-139 | a message that ends in the middle of a number or string field is refused |
| PbConcat.CutUnknownIsRefused | ios/Pods/nanopb/pb_decode.c:87-139 | so is one that ends in the middle of a field the descriptor does not have |
| WireFormats.FixedWidthBytes | ios/Pods/leveldb-library/util/coding.cc:9-33 | fixed-width numbers have their least significant byte first |
| WireFormats.VarintBytes | ios/Pods/leveldb-library/util/coding.cc:46-71 | known varints and a length-prefixed string |
| WireFormats.MaskedBytes | ios/Pods/leveldb-library/util/crc32c.h:22-38 | known masked checksums |
| WireFormats.LogRecordBytes | ios/Pods/leveldb-library/db/log_writer.cc:82-108 | the header of a one-byte record, and the four record types |
| WireFormats.BatchBytes | ios/Pods/leveldb-library/db/write_batch.cc:5-14 | a batch of a put and a delete |
| WireFormats.InternalKeyBytes | ios/Pods/leveldb-library/db/dbformat.cc:14-23 | the bytes of an internal key |
| WireFormats.BlockOfTwo | ios/Pods/leveldb-library/table/block_builder.cc:5-27 | a block of two keys that share a byte |
| WireFormats.FooterBytes | ios/Pods/leveldb-library/table/format.cc:31-41 | the footer, its padding and its magic number |
| WireFormats.TrailerBytes | ios/Pods/leveldb-library/table/table_builder.cc:177-196 | the trailer of a stored block |
| WireFormats.EditBytes | ios/Pods/leveldb-library/db/version_edit.cc:14-24 | each field of a version edit under its number |
| WireFormats.NumbersKnown | ios/Pods/nanopb/pb_encode.c:608-640 | known fields of varint type |
| WireFormats.WordsKnown | ios/Pods/nanopb/pb_encode.c:641-668 | known fields of fixed width |
| WireFormats.StringKnown | ios/Pods/nanopb/pb_encode.c:709-716 | a known string field |
| WireFormats.PackedKnown | ios/Pods/nanopb/pb_encode.c:147-206 | a known packed array |

## Left out

- Manual `CompactRange`: it may pick files with gaps between them; only automatic compactions are modelled.
- `Finalize` scores, seek charges, read sampling, `GetProperty`, approximate sizes, statistics and info logging: heuristics and debug output. A compaction may start at any level.
- Threads and memory ordering: concurrency is interleaved steps, between two releases of the mutex for the engine and at single link writes for the skip list.
- `Env` errors, directories, caches and file locks: table files, manifest records and renames are atomic, everything written is durable, an append to a log may stop at any byte, and a failed write appears only where it is a parameter (logging, syncing, writing the manifest).
- Corrupt tables, blocks, manifests and keys: the error branches for them are modelled only in the log reader, the batch and edit parsers, the footer and block reads, and all of nanopb.
- `repair.cc`, `reuse_logs` and the log reader's nonzero initial offset.
- CRC32C and Snappy: any function of the bytes, and any pair of functions where uncompressing undoes compressing.
- The memtable's arena and the byte form of its entries: nodes hold entries.
- `two_level_iterator.cc`: iteration over a whole table; point lookups are modelled.
- The machines hold tables and batches as sets and lists of entries. `TableFiles` and `LogBytes` say which bytes stand for them, and point lookups and recovery run over the bytes; the iterators over a whole database, compactions and the manifest do not.
- Comparators under which different byte strings are equal: `Comparators.Honest` asks for a total order on bytes.
- The edits of `VersionBuilder` have keys by rank, those of `VersionEditCodec` have bytes; they are two views of one record and no lemma maps one to the other.
- Compaction pointers are part of `VersionSet` and of the manifest, not of the crash model's engine state.
- nanopb callbacks, extensions, pointer fields, fixed-count arrays, field number 0 and default values other than zero.
- PbDecode.DecodeVarint32: varints with more than 36 bytes of continuation, where an eight-bit shift counter wraps; the width of `uint_fast8_t` depends on the platform.
- PbDecode.DecodeNoinit: an optional submessage whose has-flag is off is decoded over defaults, where the code decodes over whatever the memory holds; for pb_decode, which sets the defaults first, the two are the same.
- `size_t` wrap-around in nanopb's size arithmetic, and the contents of streams and messages after an error.
- CompactionWork.Compaction.DoCompactionWork: when an output is full is any function of its entries, and the grandparent an output ends in is not counted, as in the code.
- DbImpl.DBImpl.BackgroundCompaction: what to compact is handed in, and manual compactions are absent.
- DbImpl.DBImpl.FinishCompaction: the contents of the input files are handed in as sorted lists.
- CompactionInput.MakeInputIterator: runs over sorted lists, where the code has table iterators.
- InternalIterator.NewInternalIterator: runs over sorted lists, where the code has the skip list's and the tables' iterators.
- InputSelection.PickCompaction: takes the level, or the file charged with seeks, as given.
- VersionSet.VersionSet.LogAndApply: edits with fresh file numbers and no comparator name, which are those the engine makes; a record that cannot be written appends nothing, a partly written one is the log reader's business.
- DbRecover.Recover: databases the engine can leave behind, so the branches for missing tables and damaged files are not taken.
- DbRecover.RecoverLogFile: logs a writer left, possibly cut off, so the branches for damaged records are not taken.
- DbRecover.RecoverLogs: the previous log number, which this version always writes as zero, is ignored.
- DbRecover.Open: creating directories, locks, log reuse and error statuses.
- DbImpl.DBImpl.Write: one batch, without the log; grouping, logging and syncing are `GroupCommit` and `WriteQueue`.
- DbImpl.DBImpl.Get: the memtables are sets, whose lookup `MemTables.MemTable.Get` has its own proof; opened tables are not cached, and no seek is charged.
- DbImpl.DBImpl.NewIterator: contents of memtables and files are handed in as sorted lists; the memtables' contents are those at its creation; entries added later are newer than its snapshot.
- RecoveryRuns.CrashLosesNothing: covers every batch that reached the log; a crash in the middle of appending one is covered by `LogBytes.AppendToLog` and `DbRecover.OpenAfterCrash`.
- TableBuilder.TableBuilder.Add: says nothing about when a data block is full; the theorems hold for any cut.
- TableBuilder.TableBuilder.WriteBlock: says nothing about when compression is worth it.
- `MakeRoomForWrite`: when to slow down, wait or switch memtables is left open; the switch itself is modelled.
- TableBuilder.TableBuilder.Finish: gives up, where the code would write truncated offsets, when a block outgrows 32 bits or the file 64.
- LogRoundTrip.ReadsBackWhole: a log cut off at its end; damage in the middle is described by the reader's specification but not bounded.
- PbRoundTrip.DecodeUndoesEncode: encodings shorter than 2^32 bytes, since lengths are decoded as 32-bit numbers.
- PbTerminated.RoundTripIffTerminated: encodings shorter than 2^32 bytes, for the same reason.

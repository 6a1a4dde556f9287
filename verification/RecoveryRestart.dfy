/** Opening the database after a crash: nothing appended is lost, and every invariant
    holds again. */
module RecoveryRestart {
  import opened Options
  import opened DbFormat
  import opened Tables
  import opened CompactionDrop
  import opened Lsm
  import opened LsmProof
  import opened VersionBuilder
  import opened Manifest
  import opened Recovery
  import opened RecoveryProof

  /** All logged entries, in the order they were appended. */
  function Logged(d: Db): seq<Entry> {
    LogEntries(d.logs, d.logNumber, d.logfileNumber + 1)
  }

  /** Entries of a later stretch of an ascending list are newer. */
  lemma {:induction false} LaterChunkIsNewer(chunks: seq<seq<Entry>>, i: nat, j: nat, x: Entry, y: Entry)
    requires SeqAscending(Concat(chunks)) && i < j < |chunks| && x in chunks[i] && y in chunks[j]
    ensures x.key.seqno < y.key.seqno
  {
    var rest, last := chunks[..|chunks| - 1], chunks[|chunks| - 1];
    var all := Concat(rest) + last;
    assert Concat(chunks) == all;
    if j == |chunks| - 1 {
      ChunkInConcat(rest, i, x);
      var p :| 0 <= p < |Concat(rest)| && Concat(rest)[p] == x;
      var q :| 0 <= q < |last| && last[q] == y;
      assert all[p] == x && all[|Concat(rest)| + q] == y;
    } else {
      assert forall p :: 0 <= p < |Concat(rest)| ==> all[p] == Concat(rest)[p];
      LaterChunkIsNewer(rest, i, j, x, y);
    }
  }

  // ----- the recovered files -----

  /** What the recovered level-0 files hold, and how they lie above the tables. */
  ghost predicate FilesAbove(d: Db, files: Files) {
    && EntriesOf(files) == SetOf(Logged(d))
    && (forall f :: f in files ==> f.Valid() && f.number > ManifestNext(d.manifest))
    && (forall f, g :: f in files && g in files && f.number == g.number ==> f == g)
    && (forall f, g :: f in files && g in files && f.number > g.number ==> Newer(f.entries, g.entries))
  }

  lemma RecoveredFilesAbove(d: Db, chunks: seq<seq<Entry>>, files: Files)
    requires SeqAscending(Logged(d)) && RecoveredFiles(d, chunks, files)
    ensures FilesAbove(d, files)
  {
    hide SeqAscending, LogEntries, Table.Valid;
    forall e ensures e in EntriesOf(files) <==> e in SetOf(Logged(d)) {
      if e in EntriesOf(files) {
        var t :| t in files && e in t.entries;
        var j :| 0 <= j < |files| && files[j] == t;
        ChunkInConcat(chunks, j, e);
      }
      if e in Concat(chunks) {
        var j := ConcatInChunk(chunks, e);
        assert files[j] in files;
      }
    }
    forall f, g | f in files && g in files && f.number > g.number ensures Newer(f.entries, g.entries) {
      var j :| 0 <= j < |files| && files[j] == f;
      var i :| 0 <= i < |files| && files[i] == g;
      forall x, y | x in f.entries && y in g.entries ensures x.key.seqno > y.key.seqno {
        LaterChunkIsNewer(chunks, i, j, y, x);
      }
    }
  }

  /** Every logged entry is newer than every table entry of its user key. */
  lemma LoggedNewerThanTables(d: Db)
    requires DbInv(d)
    ensures Newer(SetOf(Logged(d)), TableEntries(d.lsm.levels))
  {
    hide RecordsReadable, LevelsOk, ViewOk, NumbersOk, RunningOk, RecordsOk, ManifestOk, DiskOk, SortedBySmallest,
      TableEntries, Distinct, LogEntries, SeqAscending;
    LogEntriesSplit(d);
    forall x, y | x in SetOf(Logged(d)) && y in TableEntries(d.lsm.levels) && x.key.ukey == y.key.ukey
      ensures x.key.seqno > y.key.seqno
    {
      assert y in All(d.lsm);
      if x in SetOf(d.batch) {
        assert y.key.seqno <= d.lsm.nextSeq < x.key.seqno;
      }
    }
  }

  // ----- the recovered version -----

  ghost predicate AddsLevel0(v: Levels, files: Files, v': Levels) {
    && (forall t :: t in v'[0] <==> t in v[0] || t in files)
    && (forall l, t :: 1 <= l < NUM_LEVELS ==> (t in v'[l] <==> t in v[l]))
  }

  lemma EditAddsLevel0(v: Levels, files: Files, v': Levels)
    requires IsEdit(v, {}, (set f | f in files :: (0, f)), v')
    ensures AddsLevel0(v, files, v')
  {
    hide SortedBySmallest;
  }

  lemma RestartEntries(v: Levels, files: Files, v': Levels)
    requires AddsLevel0(v, files, v')
    ensures TableEntries(v') == TableEntries(v) + EntriesOf(files)
  {
    forall e ensures e in TableEntries(v') <==> e in TableEntries(v) || e in EntriesOf(files) {
      if e in TableEntries(v') {
        var m, t := EntryHome(v', e);
      }
      if e in TableEntries(v) {
        var m, t := EntryHome(v, e);
        assert t in v'[m];
      }
      if e in EntriesOf(files) {
        var t :| t in files && e in t.entries;
        assert t in v'[0];
      }
    }
  }

  lemma FileAboveTable(files: Files, v: Levels, f: Table, m: nat, t: Table)
    requires Newer(EntriesOf(files), TableEntries(v)) && f in files && m < NUM_LEVELS && t in v[m]
    ensures Newer(f.entries, t.entries)
  {
  }

  lemma RestartOrders(d: Db, files: Files, v': Levels)
    requires LevelsOk(d.lsm.levels) && FilesAbove(d, files) && AddsLevel0(d.lsm.levels, files, v')
    requires Newer(EntriesOf(files), TableEntries(d.lsm.levels))
    requires forall l, t :: 0 <= l < NUM_LEVELS && t in d.lsm.levels[l] ==> t.number < ManifestNext(d.manifest)
    ensures AllValid(v') && UniqueNumbers(v') && Level0Ordered(v'[0]) && LevelsOrdered(v')
  {
    hide Newer, TableEntries, EntriesOf, SortedLevel, NoDuplicates, LogEntries, SetOf, ManifestNext, Table.Valid;
    var v := d.lsm.levels;
    forall t, u | t in v'[0] && u in v'[0] && t.number > u.number ensures Newer(t.entries, u.entries) {
      if t in files && u !in files {
        FileAboveTable(files, v, t, 0, u);
      }
    }
    forall l, m, t, u | 0 <= l < m < NUM_LEVELS && t in v'[l] && u in v'[m] ensures Newer(t.entries, u.entries) {
      if t !in v[l] {
        FileAboveTable(files, v, t, m, u);
      }
    }
  }

  lemma RestartKeepsLevels(d: Db, files: Files, v': Levels)
    requires LevelsOk(d.lsm.levels) && FilesAbove(d, files) && AddsLevel0(d.lsm.levels, files, v')
    requires Newer(EntriesOf(files), TableEntries(d.lsm.levels))
    requires forall l, t :: 0 <= l < NUM_LEVELS && t in d.lsm.levels[l] ==> t.number < ManifestNext(d.manifest)
    requires forall l :: 0 <= l < NUM_LEVELS ==> SortedBySmallest(v'[l])
    ensures LevelsOk(v')
  {
    RestartOrders(d, files, v');
    hide Newer, TableEntries, EntriesOf, FilesAbove, LevelsOrdered, UniqueNumbers, Level0Ordered, ManifestNext,
      BySmallestKey, SortedBySmallest, Table.Valid;
    forall m | 0 <= m < NUM_LEVELS ensures NoDuplicates(v'[m]) {
      SortedBySmallestNoDuplicates(v'[m]);
    }
    forall m | 1 <= m < NUM_LEVELS ensures SortedLevel(v'[m]) {
      assert ValidFiles(d.lsm.levels[m]);
      SameFilesSorted(d.lsm.levels[m], v'[m]);
    }
  }

  // ----- sequence numbers and reads -----

  /** No appended entry is numbered above the recovered last sequence number, and that
      number still fits. */
  lemma RecoveredSequence(d: Db, lastSeq: nat)
    requires DbInv(d) && RecoversTo(d, lastSeq)
    ensures forall e :: e in d.lsm.written + SetOf(d.batch) ==> e.key.seqno <= lastSeq
    ensures lastSeq < MAX_SEQUENCE
  {
    hide RecordsReadable, Inv, RecordsOk, DiskOk, SortedBySmallest, LogEntries, ManifestFiles, SeqAscending,
      LastValue, LastSeqOf;
    LogEntriesSplit(d);
    LoggedBounded(d);
    SequencesOf(d);
    AscendingLast(Logged(d));
  }

  lemma AscendingLast(es: seq<Entry>)
    requires SeqAscending(es)
    ensures forall e :: e in SetOf(es) ==> e.key.seqno <= LastSeqOf(es)
    ensures es != [] ==> exists e :: e in SetOf(es) && e.key.seqno == LastSeqOf(es)
    ensures es == [] ==> LastSeqOf(es) == 0
  {
    forall e | e in SetOf(es) ensures e.key.seqno <= LastSeqOf(es) {
      var i :| 0 <= i < |es| && es[i] == e;
    }
    if es != [] {
      assert es[|es| - 1] in SetOf(es);
    }
  }

  lemma ReadAboveAll(es: set<Entry>, k: UserKey, s: nat, t: nat)
    requires Distinct(es) && forall e :: e in es ==> e.key.seqno <= s && e.key.seqno <= t
    ensures Read(es, k, s) == Read(es, k, t)
  {
    ReadSame(es, es, k, s, t);
  }

  /** A reader of the reopened database sees what it would see of everything appended. */
  lemma RestartKeepsRead(d: Db, lastSeq: nat, k: UserKey, sn: nat)
    requires DbInv(d) && RecoversTo(d, lastSeq) && sn >= lastSeq
    ensures Distinct(d.lsm.written + SetOf(d.batch))
    ensures Read(All(d.lsm) + SetOf(d.batch), k, sn) == Read(d.lsm.written + SetOf(d.batch), k, sn)
  {
    hide RecordsReadable, LevelsOk, NumbersOk, RunningOk, RecordsOk, ManifestOk, DiskOk, LogsOk, SortedBySmallest,
      MemOrdered, All, Read;
    RecoveredSequence(d, lastSeq);
    var all, written, batch := All(d.lsm), d.lsm.written, SetOf(d.batch);
    BatchAbove(d);
    DistinctSubset(written, all);
    assert batch + all == all + batch && batch + written == written + batch;
    ReadLayered(batch, all, k, sn);
    ReadLayered(batch, written, k, sn);
    var top := Max(sn, d.lsm.lastSeq);
    ReadAboveAll(all, k, sn, top);
    ReadAboveAll(written, k, sn, top);
    assert Live(d.lsm, top);
  }

  lemma BatchAbove(d: Db)
    requires SequencesOk(d.lsm) && BatchOk(d)
    ensures Distinct(SetOf(d.batch))
    ensures Newer(SetOf(d.batch), d.lsm.written) && Newer(SetOf(d.batch), All(d.lsm))
  {
    hide All;
    forall x, y | x in SetOf(d.batch) && y in SetOf(d.batch) && x.key.seqno == y.key.seqno ensures x == y {
    }
  }

  lemma RestartLsm(d: Db, d': Db, files: Files)
    requires DbInv(d) && RecoveredState(d, d.lsm.levels, files, d') && FilesAbove(d, files)
    ensures Inv(d'.lsm)
    ensures AddsLevel0(d.lsm.levels, files, d'.lsm.levels)
  {
    hide RecordsReadable, LevelsOk, ViewOk, RunningOk, RecordsOk, DiskOk, BatchOk, TableEntries, MemOrdered,
      SortedBySmallest, SequencesOk, SeqAscending, FilesFrom, EntriesOf, SnapshotRecord, LogEntries, Newer,
      AddsLevel0, NumbersOk, LogsOk, ManifestOk, IsEdit, FilesAbove, LastValue, ManifestSeq, LastSeqOf, Max, All,
      SetOf;
    var lastSeq := d'.lsm.lastSeq;
    LiveNumbersLogged(d);
    assert EntriesOf(files) == SetOf(Logged(d)) by { FilesAboveEntries(d, files); }
    EditAddsLevel0(d.lsm.levels, files, d'.lsm.levels);
    LoggedNewerThanTables(d);
    RestartSorted(d, d'.lsm.levels, files);
    RestartKeepsLevels(d, files, d'.lsm.levels);
    RestartEntries(d.lsm.levels, files, d'.lsm.levels);
    RestartAll(d, d', files);
    RestartSequences(d, d', lastSeq);
    RestartView(d, d', lastSeq);
    RestartNumbers(d, d', files);
  }

  lemma LiveNumbersLogged(d: Db)
    requires ManifestOk(d)
    ensures forall l, t :: 0 <= l < NUM_LEVELS && t in d.lsm.levels[l] ==> t.number < ManifestNext(d.manifest)
  {
  }

  lemma FilesAboveEntries(d: Db, files: Files)
    requires FilesAbove(d, files)
    ensures EntriesOf(files) == SetOf(Logged(d))
  {
  }

  lemma RestartSorted(d: Db, v': Levels, files: Files)
    requires IsEdit(d.lsm.levels, {}, (set f | f in files :: (0, f)), v')
    ensures forall l :: 0 <= l < NUM_LEVELS ==> SortedBySmallest(v'[l])
  {
    hide SortedBySmallest;
  }

  lemma RestartAll(d: Db, d': Db, files: Files)
    requires LogsOk(d) && FilesAbove(d, files)
    requires d'.lsm.mem == {} && d'.lsm.imm == None && TableEntries(d'.lsm.levels) == TableEntries(d.lsm.levels) + EntriesOf(files)
    ensures All(d'.lsm) == All(d.lsm) + SetOf(d.batch)
  {
    hide TableEntries, EntriesOf, Newer, SeqAscending, Table.Valid;
    LogEntriesSplit(d);
  }

  lemma RestartView(d: Db, d': Db, lastSeq: nat)
    requires DbInv(d) && RecoversTo(d, lastSeq)
    requires d'.lsm.written == d.lsm.written + SetOf(d.batch) && All(d'.lsm) == All(d.lsm) + SetOf(d.batch)
    requires d'.lsm.lastSeq == lastSeq && d'.lsm.snapshots == multiset{}
    ensures ViewOk(d'.lsm)
  {
    hide RecordsReadable, Inv, RecordsOk, ManifestOk, DiskOk, LogsOk, BatchOk, SortedBySmallest, All, Read, LogEntries;
    forall k, sn: nat | Live(d'.lsm, sn) ensures Read(All(d'.lsm), k, sn) == Read(d'.lsm.written, k, sn) {
      RestartKeepsRead(d, lastSeq, k, sn);
    }
  }

  lemma RestartSequences(d: Db, d': Db, lastSeq: nat)
    requires DbInv(d) && RecoversTo(d, lastSeq)
    requires d'.lsm == State({}, None, d'.lsm.levels, lastSeq, lastSeq, d'.lsm.nextFile, multiset{}, None, d.lsm.written + SetOf(d.batch))
    requires All(d'.lsm) == All(d.lsm) + SetOf(d.batch)
    ensures SequencesOk(d'.lsm) && MemOrdered(d'.lsm)
  {
    hide RecordsReadable, LevelsOk, ViewOk, NumbersOk, RunningOk, RecordsOk, DiskOk, LogsOk, ManifestOk,
      SortedBySmallest, MemOrdered, Distinct, TableEntries, All;
    RecoveredSequence(d, lastSeq);
    RestartKeepsRead(d, lastSeq, 0.0, lastSeq);
    NoMemOrdered(d'.lsm);
  }

  lemma NoMemOrdered(s: State)
    requires s.mem == {} && s.imm == None
    ensures MemOrdered(s)
  {
  }

  lemma RestartNumbers(d: Db, d': Db, files: Files)
    requires RecoveredState(d, d.lsm.levels, files, d') && AddsLevel0(d.lsm.levels, files, d'.lsm.levels)
    ensures NumbersOk(d'.lsm)
  {
    hide IsEdit, LogEntries, FilesFrom;
  }

  // ----- the new manifest -----

  /** A snapshot record followed by the edit that adds the recovered files. */
  lemma OnlyAdds(files: set<Table>, e: Edit, l: nat)
    requires e.deletedFiles == {}
    ensures EditFiles(files, e, l) == files + SetOfFiles(NewAt(e.newFiles, l))
  {
    hide NewAt;
  }

  lemma RestartLevelRecords(v: Levels, pointers: Pointers, e: Edit, files: Files, l: nat)
    requires l < NUM_LEVELS && e.newFiles == AtLevel(0, files) && e.deletedFiles == {}
    ensures
      var records, added := [SnapshotRecord(v, pointers), e], if l == 0 then files else [];
      && EditAll({}, records, l) == SetOfFiles(v[l]) + SetOfFiles(added)
      && AddedBy(records, l) == SetOfFiles(v[l]) + SetOfFiles(added)
  {
    hide SnapshotRecord, AtLevel, EditAll, AddedBy, EditFiles, SetOfFiles, NewAt, LastValue, ManifestPointers;
    var s := SnapshotRecord(v, pointers);
    SnapshotDescribes(v, pointers, l);
    NewAtAtLevel(0, files, l);
    assert [s, e] == [s] + [e];
    AppendRecord([s], e, l);
    OnlyAdds(SetOfFiles(v[l]), e, l);
  }

  lemma RestartLevelFresh(v: Levels, pointers: Pointers, e: Edit, files: Files, l: nat)
    requires l < NUM_LEVELS && e.newFiles == AtLevel(0, files) && NoSharedNumber(v[l]) && NoSharedNumber(files)
    requires forall f, t :: f in files && t in v[l] ==> f.number != t.number
    ensures FreshAdds({}, [SnapshotRecord(v, pointers), e], l)
  {
    hide SnapshotRecord, AtLevel, AddedBy;
    var s := SnapshotRecord(v, pointers);
    SnapshotDescribes(v, pointers, l);
    NewAtAtLevel(0, files, l);
    assert [s, e] == [s] + [e];
    AppendFresh([s], e, l);
  }

  lemma LevelNumbersDiffer(v: Levels, l: nat)
    requires UniqueNumbers(v) && l < NUM_LEVELS && NoDuplicates(v[l])
    ensures NoSharedNumber(v[l])
  {
    forall i, j | 0 <= i < j < |v[l]| ensures v[l][i].number != v[l][j].number {
      assert v[l][i] in v[l] && v[l][j] in v[l];
    }
  }

  lemma RestartRecords(d: Db, d': Db, files: Files)
    requires LevelsOk(d.lsm.levels) && RecoveredState(d, d.lsm.levels, files, d') && FilesAbove(d, files)
    requires LevelsOk(d'.lsm.levels) && AddsLevel0(d.lsm.levels, files, d'.lsm.levels)
    requires forall i, j :: 0 <= i < j < |files| ==> files[i].number < files[j].number
    requires forall l, t :: 0 <= l < NUM_LEVELS && t in d.lsm.levels[l] ==> t.number < ManifestNext(d.manifest)
    ensures RecordsOk(d') && ManifestFiles(d'.manifest, d'.lsm.levels)
  {
    hide IsEdit, LogEntries, FilesFrom, SortedLevel, Level0Ordered, LevelsOrdered, AllValid, Newer, EntriesOf,
      AddedBy, FreshAdds, EditAll, SnapshotRecord, AtLevel, ManifestNext, Table.Valid;
    var v, e := d.lsm.levels, d'.manifest[1];
    forall l | 0 <= l < NUM_LEVELS ensures FreshAdds({}, d'.manifest, l) {
      LevelNumbersDiffer(v, l);
      RestartLevelFresh(v, ManifestPointers(d.manifest), e, files, l);
    }
    forall l | 0 <= l < NUM_LEVELS
      ensures SetOfFiles(d'.lsm.levels[l]) == EditAll({}, d'.manifest, l) && AddedBy(d'.manifest, l) == SetOfFiles(d'.lsm.levels[l])
    {
      RestartLevelRecords(v, ManifestPointers(d.manifest), e, files, l);
      forall t ensures t in d'.lsm.levels[l] <==> t in v[l] || (l == 0 && t in files) {
      }
    }
    RestartNumbers(d, d', files);
  }

  lemma RestartManifest(d: Db, d': Db, files: Files)
    requires DbInv(d) && RecoveredState(d, d.lsm.levels, files, d')
    requires ManifestFiles(d'.manifest, d'.lsm.levels) && AddsLevel0(d.lsm.levels, files, d'.lsm.levels)
    ensures ManifestOk(d')
  {
    hide RecordsReadable, Inv, SortedBySmallest, RecordsOk, DiskOk, BatchOk, LogsOk, IsEdit, LogEntries, FilesFrom,
      AtLevel, ManifestFiles, EditAll, EditFiles, AddedBy, ManifestPointers;
    RecoveredSequence(d, d'.lsm.lastSeq);
    var s, e := d'.manifest[0], d'.manifest[1];
    assert d'.manifest == [s] + [e];
    AppendRecord([s], e, 0);
  }

  lemma RestartReadable(d: Db, d': Db, files: Files)
    requires RecoveredState(d, d.lsm.levels, files, d')
    ensures RecordsReadable(d'.manifest)
  {
    hide IsEdit, LogEntries, SnapshotRecord;
    var e := d'.manifest[1];
    AtLevelMembers(0, files);
    forall f | f in e.newFiles ensures f.0 < NUM_LEVELS {
      assert (f.0, f.1) in e.newFiles;
    }
    SnapshotReadable(d.lsm.levels, ManifestPointers(d.manifest), e);
  }

  lemma RestartLogs(d: Db, d': Db, files: Files)
    requires RecoveredState(d, d.lsm.levels, files, d') && d'.lsm.lastSeq < MAX_SEQUENCE
    ensures LogsOk(d') && BatchOk(d')
  {
    hide IsEdit, FilesFrom;
    var n := d'.logfileNumber;
    assert LogEntries(d'.logs, n, n) == [];
    assert LogEntries(d'.logs, n, n + 1) == [] + Concat([]);
  }

  lemma RestartDisk(d: Db, d': Db, files: Files)
    requires DiskOk(d) && RecoveredState(d, d.lsm.levels, files, d') && FilesAbove(d, files)
    requires AddsLevel0(d.lsm.levels, files, d'.lsm.levels)
    requires forall l, t :: 0 <= l < NUM_LEVELS && t in d.lsm.levels[l] ==> t.number < ManifestNext(d.manifest)
    ensures DiskOk(d')
  {
    hide IsEdit, LogEntries, FilesFrom, EntriesOf, Newer, ManifestNext, Table.Valid;
    forall l, t | 0 <= l < NUM_LEVELS && t in d'.lsm.levels[l] ensures t in d'.tables {
    }
  }

  /** Recovery from any reachable state, mid-batch or mid-compaction: the reopened
      database satisfies every invariant, over everything that was appended. */
  lemma RestartKeepsInv(d: Db, d': Db)
    requires DbInv(d) && Recovered(d, d')
    ensures DbInv(d') && d'.lsm.written == d.lsm.written + SetOf(d.batch) && d'.batch == []
  {
    hide RecordsReadable, Inv, LogsOk, BatchOk, RecordsOk, ManifestOk, DiskOk, SortedBySmallest, RecoveredFiles,
      RecoveredState, FilesAbove;
    var v: Levels, chunks, files: Files :|
      && ManifestFiles(d.manifest, v) && (forall l :: 0 <= l < NUM_LEVELS ==> SortedBySmallest(v[l]))
      && RecoveredFiles(d, chunks, files) && RecoveredState(d, v, files, d');
    FilesHoldEverything(d, v);
    RestartFrom(d, d', chunks, files);
  }

  lemma RestartFrom(d: Db, d': Db, chunks: seq<seq<Entry>>, files: Files)
    requires DbInv(d) && RecoveredFiles(d, chunks, files) && RecoveredState(d, d.lsm.levels, files, d')
    ensures DbInv(d') && d'.lsm.written == d.lsm.written + SetOf(d.batch) && d'.batch == []
  {
    hide RecordsReadable, LevelsOk, SequencesOk, NumbersOk, ViewOk, MemOrdered, RunningOk, RecordsOk, DiskOk, BatchOk,
      FilesAbove, SortedBySmallest, LogEntries, SeqAscending, AddsLevel0, ManifestFiles, Table.Valid, TableEntries;
    RecoveredFilesAbove(d, chunks, files);
    RestartLsm(d, d', files);
    RestartRecords(d, d', files);
    RestartManifest(d, d', files);
    RecoveredSequence(d, d'.lsm.lastSeq);
    RestartLogs(d, d', files);
    RestartDisk(d, d', files);
    RestartReadable(d, d', files);
  }
}

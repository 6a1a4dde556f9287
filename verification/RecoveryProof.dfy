/** Every step keeps the files and the engine in agreement; a restart gives back an
    engine whose reads are those of everything appended. */
module RecoveryProof {
  import opened Options
  import opened DbFormat
  import opened Tables
  import opened InputSelection
  import opened CompactionDrop
  import opened Lsm
  import opened LsmRuns
  import opened VersionBuilder
  import opened Manifest
  import opened VersionSearch
  import opened Recovery

  // ----- the logs -----

  lemma ConcatAppend(log: Log, batch: seq<Entry>)
    ensures Concat(log + [batch]) == Concat(log) + batch
  {
    var longer := log + [batch];
    assert longer[..|longer| - 1] == log;
  }

  /** Only the logs inside the range matter. */
  lemma {:induction false} LogEntriesSame(logs: map<nat, Log>, logs': map<nat, Log>, lo: nat, hi: nat)
    requires forall n :: lo <= n < hi ==> (n in logs <==> n in logs') && (n in logs ==> logs[n] == logs'[n])
    ensures LogEntries(logs, lo, hi) == LogEntries(logs', lo, hi)
  {
    if lo < hi {
      LogEntriesSame(logs, logs', lo, hi - 1);
    }
  }

  /** Numbers without a log add nothing. */
  lemma {:induction false} LogEntriesGap(logs: map<nat, Log>, lo: nat, mid: nat, hi: nat)
    requires lo <= mid <= hi && forall n :: mid <= n < hi ==> n !in logs
    ensures LogEntries(logs, lo, hi) == LogEntries(logs, lo, mid)
  {
    if mid < hi {
      LogEntriesGap(logs, lo, mid, hi - 1);
    }
  }

  /** All logged entries: those of the immutable memtable, then those of the current log. */
  lemma LogEntriesSplit(d: Db)
    requires LogsOk(d)
    ensures LogEntries(d.logs, d.logNumber, d.logfileNumber + 1)
      == LogEntries(d.logs, d.logNumber, d.logfileNumber) + Concat(d.logs[d.logfileNumber])
    ensures SetOf(LogEntries(d.logs, d.logNumber, d.logfileNumber + 1)) == ImmOf(d.lsm) + d.lsm.mem + SetOf(d.batch)
  {
  }

  /** The theorem at every reachable state: the manifest's tables and the logs numbered
      at least LogNumber hold exactly the engine's entries and the batch being inserted. */
  lemma FilesHoldEverything(d: Db, v: Levels)
    requires DbInv(d) && ManifestFiles(d.manifest, v) && (forall l :: 0 <= l < NUM_LEVELS ==> SortedBySmallest(v[l]))
    ensures v == d.lsm.levels
    ensures TableEntries(v) + SetOf(LogEntries(d.logs, ManifestLog(d.manifest), d.logfileNumber + 1)) == All(d.lsm) + SetOf(d.batch)
    ensures forall l, t :: 0 <= l < NUM_LEVELS && t in v[l] ==> t in d.tables
  {
    hide Inv, SeqAscending, RecordsOk, BatchOk, SortedBySmallest, TableEntries;
    LogEntriesSplit(d);
    forall l | 0 <= l < NUM_LEVELS ensures v[l] == d.lsm.levels[l] {
      SameSetSameList(v[l], d.lsm.levels[l]);
    }
    assert v == d.lsm.levels;
  }

  // ----- appending, switching and inserting -----

  lemma AppendKeepsInv(d: Db, batch: seq<Entry>)
    requires DbInv(d) && DbEnabled(d, Append(batch))
    ensures DbInv(DbApply(d, Append(batch)))
  {
    hide RecordsReadable, Inv, SortedBySmallest, RecordsOk, ManifestOk, DiskOk, SeqAscending, LogEntries;
    var d' := DbApply(d, Append(batch));
    AppendKeepsLogs(d, batch);
    SequencesOf(d);
    RecordsSame(d, d');
    ManifestSame(d, d');
    DiskSame(d, d');
  }

  lemma AppendKeepsLogs(d: Db, batch: seq<Entry>)
    requires Inv(d.lsm) && LogsOk(d) && BatchOk(d) && d.batch == []
    requires forall i :: 0 <= i < |batch| ==> batch[i].key.seqno == d.lsm.nextSeq + 1 + i
    ensures LogsOk(d.(batch := batch, logs := d.logs[d.logfileNumber := d.logs[d.logfileNumber] + [batch]]))
  {
    hide Inv, SeqAscending, LogEntries, Concat, BatchOk;
    var logs := d.logs[d.logfileNumber := d.logs[d.logfileNumber] + [batch]];
    LogEntriesSame(d.logs, logs, d.logNumber, d.logfileNumber);
    ConcatAppend(d.logs[d.logfileNumber], batch);
    LogEntriesStep(d.logs, d.logNumber, d.logfileNumber);
    LogEntriesStep(logs, d.logNumber, d.logfileNumber);
    var prior := LogEntries(d.logs, d.logNumber, d.logfileNumber + 1);
    assert LogEntries(logs, d.logNumber, d.logfileNumber + 1) == prior + batch;
    LoggedUpTo(d);
    AppendAscending(prior, batch, d.lsm.nextSeq);
    SetOfAppend(Concat(d.logs[d.logfileNumber]), batch);
  }

  lemma SetOfAppend(a: seq<Entry>, b: seq<Entry>)
    ensures SetOf(a + b) == SetOf(a) + SetOf(b) && SetOf([]) == {}
  {
  }

  lemma LoggedUpTo(d: Db)
    requires Inv(d.lsm) && LogsOk(d) && BatchOk(d) && d.batch == []
    ensures forall e :: e in SetOf(LogEntries(d.logs, d.logNumber, d.logfileNumber + 1)) ==> e.key.seqno <= d.lsm.nextSeq
  {
    hide Inv, LogsOk, BatchOk, LogEntries;
    LoggedBounded(d);
  }

  lemma LogEntriesStep(logs: map<nat, Log>, lo: nat, hi: nat)
    requires lo <= hi && hi in logs
    ensures LogEntries(logs, lo, hi + 1) == LogEntries(logs, lo, hi) + Concat(logs[hi])
  {
  }

  lemma AppendAscending(prior: seq<Entry>, batch: seq<Entry>, seqno: nat)
    requires SeqAscending(prior) && forall e :: e in SetOf(prior) ==> e.key.seqno <= seqno
    requires forall i :: 0 <= i < |batch| ==> batch[i].key.seqno == seqno + 1 + i
    ensures SeqAscending(prior + batch)
  {
    var all := prior + batch;
    forall i, j | 0 <= i < j < |all| ensures all[i].key.seqno < all[j].key.seqno {
      if i < |prior| <= j {
        assert prior[i] in SetOf(prior);
      }
    }
  }

  lemma LoggedBounded(d: Db)
    requires Inv(d.lsm) && LogsOk(d) && BatchOk(d)
    ensures forall e :: e in ImmOf(d.lsm) + d.lsm.mem ==> e.key.seqno <= d.lsm.nextSeq
    ensures forall e :: e in SetOf(LogEntries(d.logs, d.logNumber, d.logfileNumber + 1)) ==> e.key.seqno <= d.lsm.nextSeq + |d.batch|
  {
    hide RecordsReadable, LevelsOk, MemOrdered, NumbersOk, ViewOk, RunningOk, SeqAscending, Distinct, TableEntries;
    LogEntriesSplit(d);
    forall e | e in ImmOf(d.lsm) + d.lsm.mem ensures e.key.seqno <= d.lsm.nextSeq {
      assert e in All(d.lsm);
    }
  }

  lemma RecordsSame(d: Db, d': Db)
    requires RecordsOk(d) && d'.manifest == d.manifest && d'.lsm.levels == d.lsm.levels
    requires d.lsm.nextFile <= d'.lsm.nextFile
    requires d'.lsm.running.Some? ==> d.lsm.running.Some? && d'.lsm.running.value.numbers == d.lsm.running.value.numbers
    ensures RecordsOk(d')
  {
    hide FreshAdds, AddedBy;
  }

  lemma ManifestSame(d: Db, d': Db)
    requires ManifestOk(d) && d'.manifest == d.manifest && d'.lsm.levels == d.lsm.levels && d'.logNumber == d.logNumber
    requires d.lsm.nextFile <= d'.lsm.nextFile && d.lsm.lastSeq <= d'.lsm.lastSeq
    requires d.lsm.mem + ImmOf(d.lsm) <= d'.lsm.mem + ImmOf(d'.lsm)
    requires forall e :: e in ImmOf(d'.lsm) ==> e.key.seqno <= d'.lsm.lastSeq
    requires forall e :: e in d'.lsm.written ==> e in d.lsm.written || e in d'.lsm.mem + ImmOf(d'.lsm)
    ensures ManifestOk(d')
  {
    hide ManifestFiles;
  }

  lemma DiskSame(d: Db, d': Db)
    requires DiskOk(d) && d'.tables == d.tables && d'.lsm.levels == d.lsm.levels
    requires d'.pending <= d.pending
    requires d'.held <= d.held + {d.lsm.levels}
    ensures DiskOk(d')
  {
  }

  lemma EngineKeepsInv(d: Db, s: Step)
    requires DbInv(d) && DbEnabled(d, Engine(s))
    ensures DbInv(DbApply(d, Engine(s)))
  {
    hide RecordsReadable, Inv, SortedBySmallest, RecordsOk, ManifestOk, DiskOk, IsEdit, OutputsOk, CanStart,
      SeqAscending;
    var d' := DbApply(d, Engine(s));
    StepKeepsInv(d.lsm, s);
    DiskSame(d, d');
    SequencesOf(d);
    ManifestSame(d, d');
    if s.Allocate? || s.Begin? {
      NumbersStayFresh(d, d', s);
    } else {
      RecordsSame(d, d');
    }
  }

  lemma NumbersStayFresh(d: Db, d': Db, s: Step)
    requires RecordsOk(d) && DbEnabled(d, Engine(s)) && d.logfileNumber in d.logs && d' == DbApply(d, Engine(s))
    requires s.Allocate? || s.Begin?
    ensures RecordsOk(d')
  {
    hide FreshAdds, AddedBy, GoodChoice, NoOlderLeft, IsSmallestSnapshot;
  }

  lemma SequencesOf(d: Db)
    requires DbInv(d)
    ensures d.lsm.lastSeq <= d.lsm.nextSeq < MAX_SEQUENCE
    ensures forall e :: e in ImmOf(d.lsm) ==> e.key.seqno <= d.lsm.lastSeq
    ensures forall e :: e in d.lsm.mem ==> e.key.seqno <= d.lsm.nextSeq
  {
    hide RecordsReadable, LevelsOk, MemOrdered, NumbersOk, ViewOk, RunningOk, SeqAscending, Distinct, TableEntries,
      RecordsOk, DiskOk, LogsOk, SortedBySmallest;
    forall e | e in d.lsm.mem ensures e.key.seqno <= d.lsm.nextSeq {
      assert e in All(d.lsm);
    }
  }

  lemma SwitchedLogs(d: Db, n: nat)
    requires LogsOk(d) && d.logfileNumber < n
    ensures
      var logs := d.logs[n := []];
      && LogEntries(logs, d.logNumber, n) == LogEntries(d.logs, d.logNumber, d.logfileNumber + 1)
      && LogEntries(logs, d.logNumber, n + 1) == LogEntries(logs, d.logNumber, n)
  {
    var logs := d.logs[n := []];
    LogEntriesGap(d.logs, d.logNumber, d.logfileNumber + 1, n);
    LogEntriesSame(d.logs, logs, d.logNumber, n);
    assert LogEntries(logs, d.logNumber, n + 1) == LogEntries(logs, d.logNumber, n) + Concat([]);
  }

  lemma SwitchLogKeepsInv(d: Db)
    requires DbInv(d) && DbEnabled(d, SwitchLog)
    ensures DbInv(DbApply(d, SwitchLog))
  {
    hide RecordsReadable, Inv, SortedBySmallest, RecordsOk, ManifestOk, DiskOk, SeqAscending, LogEntries;
    var d' := DbApply(d, SwitchLog);
    StepKeepsInv(d.lsm, Switch);
    SequencesOf(d);
    DiskSame(d, d');
    ManifestSame(d, d');
    RecordsSame(d, d');
    LogEntriesSplit(d);
    SwitchedLogs(d, d.lsm.nextFile);
  }

  // ----- files -----

  lemma WriteFileKeepsInv(d: Db, t: Table)
    requires DbInv(d) && DbEnabled(d, WriteFile(t))
    ensures DbInv(DbApply(d, WriteFile(t)))
  {
    hide RecordsReadable, Inv, SortedBySmallest, RecordsOk, ManifestOk, BatchOk, SeqAscending, DiskOk;
    var d' := DbApply(d, WriteFile(t));
    LogsBatchSame(d, d');
    RecordsSame(d, d');
    SequencesOf(d);
    ManifestSame(d, d');
    WrittenOnDisk(d, d', t);
  }

  lemma LogsBatchSame(d: Db, d': Db)
    requires LogsOk(d) && BatchOk(d) && d'.lsm == d.lsm && d'.batch == d.batch
    requires d'.logNumber == d.logNumber && d'.logfileNumber == d.logfileNumber && d'.logs == d.logs
    ensures LogsOk(d') && BatchOk(d')
  {
  }

  lemma WrittenOnDisk(d: Db, d': Db, t: Table)
    requires DiskOk(d) && DbEnabled(d, WriteFile(t)) && d.logfileNumber in d.logs && d' == DbApply(d, WriteFile(t))
    ensures DiskOk(d')
  {
    forall l, u | 0 <= l < NUM_LEVELS && u in d.lsm.levels[l] ensures u in d'.tables {
      assert u.number in LiveNumbers(d);
    }
    forall v: Levels, l, u | v in d.held && 0 <= l < NUM_LEVELS && u in v[l] ensures u in d'.tables {
      assert u.number in LiveNumbers(d);
    }
    forall u | u in d.pending ensures u in d'.tables {
      assert u.number in LiveNumbers(d);
    }
  }

  /** Deleting obsolete files keeps every log from LogNumber on and every table of a live
      version or pending output. */
  lemma DeleteObsoleteKeepsInv(d: Db)
    requires DbInv(d)
    ensures DbInv(DbApply(d, DeleteObsolete))
  {
    hide RecordsReadable, Inv, SortedBySmallest, RecordsOk, ManifestOk, SeqAscending;
    var d' := DbApply(d, DeleteObsolete);
    RecordsSame(d, d');
    SequencesOf(d);
    ManifestSame(d, d');
    LogEntriesSame(d.logs, d'.logs, d.logNumber, d.logfileNumber);
    LogEntriesSame(d.logs, d'.logs, d.logNumber, d.logfileNumber + 1);
    forall l, u | 0 <= l < NUM_LEVELS && u in d.lsm.levels[l] ensures u in d'.tables {
      assert u.number in LiveNumbers(d);
    }
    forall v: Levels, l, u | v in d.held && 0 <= l < NUM_LEVELS && u in v[l] ensures u in d'.tables {
      assert u.number in LiveNumbers(d);
    }
    forall u | u in d.pending ensures u in d'.tables {
      assert u.number in LiveNumbers(d);
    }
  }

  lemma HoldKeepsInv(d: Db, step: DbStep)
    requires DbInv(d) && DbEnabled(d, step) && (step.Hold? || step.Unhold?)
    ensures DbInv(DbApply(d, step))
  {
    hide RecordsReadable, Inv, SortedBySmallest, RecordsOk, ManifestOk, BatchOk, SeqAscending, DiskOk;
    var d' := DbApply(d, step);
    LogsBatchSame(d, d');
    RecordsSame(d, d');
    SequencesOf(d);
    ManifestSame(d, d');
    DiskSame(d, d');
  }

  // ----- installing a version -----

  /** Every installing step is the edit its manifest record describes. */
  lemma InstallIsEdit(d: Db, s: Step)
    requires DbInv(d) && DbEnabled(d, Install(s))
    ensures
      var e := RecordOf(d, s);
      && IsEdit(d.lsm.levels, e.deletedFiles, (set f | f in e.newFiles), Apply(d.lsm, s).levels)
      && (forall l, t :: (l, t) in e.newFiles ==> l < NUM_LEVELS && (t in NewFilesOf(s) || exists m :: 0 <= m < NUM_LEVELS && t in d.lsm.levels[m]))
  {
    hide RecordsReadable, Inv, SortedBySmallest, RecordsOk, ManifestOk, DiskOk, LogsOk, BatchOk, OutputsOk,
      GoodChoice, NoOlderLeft, IsSmallestSnapshot;
    var e := RecordOf(d, s);
    match s {
      case Flush(output, level, max, levels) =>
        if output.Some? {
          assert (set f | f in e.newFiles) == {(level, output.value)};
        }
      case Finish(outputs, levels) =>
        FinishLevel(d.lsm);
        var r := d.lsm.running.value;
        AtLevelMembers(r.level + 1, outputs);
        assert (set f | f in e.newFiles) == (set o | o in outputs :: (r.level + 1, o));
      case Move(r, levels) =>
        MoveLevel(d.lsm, r);
        assert (set f | f in e.newFiles) == {(r.level + 1, r.inputs0[0])};
    }
  }

  lemma FinishLevel(s: State)
    requires Inv(s) && s.running.Some?
    ensures s.running.value.level + 1 < NUM_LEVELS
  {
  }

  lemma MoveLevel(s: State, r: Running)
    requires CanStart(s, r) && |r.inputs0| == 1
    ensures r.level + 1 < NUM_LEVELS && r.inputs0[0] in s.levels[r.level] && s.running.None?
  {
    hide Covered, Contiguous, Isolated;
    assert r.inputs0[0] in r.inputs0;
  }

  lemma InstallKeepsManifestFiles(d: Db, s: Step)
    requires DbInv(d) && DbEnabled(d, Install(s))
    ensures ManifestFiles(d.manifest + [RecordOf(d, s)], Apply(d.lsm, s).levels)
    ensures forall l :: 0 <= l < NUM_LEVELS ==> SortedBySmallest(Apply(d.lsm, s).levels[l])
  {
    hide RecordsReadable, Inv, SortedBySmallest, RecordsOk, DiskOk, LogsOk, BatchOk, Enabled, EditAll, EditFiles,
      RecordOf, NewFilesOf;
    InstallShape(d, s);
    var e := RecordOf(d, s);
    InstallIsEdit(d, s);
    forall l | 0 <= l < NUM_LEVELS
      ensures SetOfFiles(Apply(d.lsm, s).levels[l]) == EditAll({}, d.manifest + [e], l)
    {
      AppendRecord(d.manifest, e, l);
      EditMatches(d.lsm.levels, e, Apply(d.lsm, s).levels, l);
    }
  }

  lemma InstallShape(d: Db, s: Step)
    requires DbEnabled(d, Install(s))
    ensures s.Flush? || s.Finish? || s.Move?
    ensures s.Finish? ==> d.lsm.running.Some?
    ensures s.Move? ==> s.r.inputs0 != [] && d.lsm.running.None?
  {
    hide IsEdit, OutputsOk, GoodChoice, NoOlderLeft, PlacedAt, IsSmallestSnapshot;
  }

  /** What an installing step leaves unchanged, and what its record says. */
  lemma InstallState(d: Db, s: Step)
    requires DbInv(d) && DbEnabled(d, Install(s))
    ensures s.Flush? || s.Finish? || s.Move?
    ensures s.Finish? ==> d.lsm.running.Some?
    ensures s.Move? ==> s.r.inputs0 != []
    ensures
      var s', e := Apply(d.lsm, s), RecordOf(d, s);
      && s'.mem == d.lsm.mem && s'.written == d.lsm.written && s'.lastSeq == d.lsm.lastSeq && d.lsm.nextFile <= s'.nextFile
      && s'.imm == (if s.Flush? then None else d.lsm.imm)
      && e.logNumber == Some(if s.Flush? then d.logfileNumber else d.logNumber)
      && e.lastSequence == Some(d.lsm.lastSeq) && e.nextFileNumber == Some(s'.nextFile) && e.logNumber.value < s'.nextFile
      && forall l, t :: 0 <= l < NUM_LEVELS && t in s'.levels[l] ==> t.number < s'.nextFile
  {
    hide RecordsReadable, LevelsOk, MemOrdered, ViewOk, RunningOk, SequencesOk, SortedBySmallest, RecordsOk, DiskOk,
      BatchOk, ManifestOk, LogEntries, SeqAscending, IsEdit, OutputsOk, GoodChoice, NoOlderLeft, IsSmallestSnapshot,
      PlacedAt;
    InstallShape(d, s);
    StepKeepsInv(d.lsm, s);
  }

  lemma InstallKeepsManifest(d: Db, s: Step)
    requires DbInv(d) && DbEnabled(d, Install(s)) && d.logfileNumber in d.logs
    ensures ManifestOk(DbApply(d, Install(s)))
  {
    hide RecordsReadable, Inv, SortedBySmallest, RecordsOk, DiskOk, LogsOk, BatchOk, Enabled, RecordOf, Apply,
      NewFilesOf, ManifestFiles;
    InstallState(d, s);
    InstallKeepsManifestFiles(d, s);
    AppendRecord(d.manifest, RecordOf(d, s), 0);
    SequencesOf(d);
  }

  lemma InstallKeepsDisk(d: Db, s: Step)
    requires DbInv(d) && DbEnabled(d, Install(s))
    ensures DiskOk(DbApply(d, Install(s)))
  {
    hide RecordsReadable, Inv, SortedBySmallest, RecordsOk, ManifestOk, LogsOk, BatchOk, Enabled, RecordOf, NewFilesOf;
    InstallIsEdit(d, s);
    InstalledFiles(d, s);
    LogsHaveCurrent(d);
    var d' := DbApply(d, Install(s));
    forall l, t | 0 <= l < NUM_LEVELS && t in d'.lsm.levels[l] ensures t in d'.tables {
    }
  }

  lemma LogsHaveCurrent(d: Db)
    requires DbInv(d)
    ensures d.logfileNumber in d.logs
  {
  }

  lemma InstalledFiles(d: Db, s: Step)
    requires DbInv(d) && DbEnabled(d, Install(s))
    ensures forall l, t :: 0 <= l < NUM_LEVELS && t in Apply(d.lsm, s).levels[l] ==>
      t in NewFilesOf(s) || exists m :: 0 <= m < NUM_LEVELS && t in d.lsm.levels[m]
    ensures NewFilesOf(s) <= d.pending
  {
    hide RecordsReadable, Inv, SortedBySmallest, RecordsOk, ManifestOk, LogsOk, BatchOk, Enabled, RecordOf,
      NewFilesOf, DiskOk;
    InstallIsEdit(d, s);
  }

  lemma InstallKeepsLogs(d: Db, s: Step)
    requires DbInv(d) && DbEnabled(d, Install(s))
    ensures LogsOk(DbApply(d, Install(s))) && BatchOk(DbApply(d, Install(s)))
  {
    hide Inv, RecordsReadable, SortedBySmallest, RecordsOk, ManifestOk, DiskOk, IsEdit, OutputsOk, CanStart, PlacedAt,
      RecordOf, SeqAscending, LogEntries, NewFilesOf;
    if s.Flush? {
      CurrentLogOnly(d);
    }
  }

  /** After a flush only the current log is left to replay. */
  lemma CurrentLogOnly(d: Db)
    requires LogsOk(d)
    ensures LogEntries(d.logs, d.logfileNumber, d.logfileNumber) == []
    ensures LogEntries(d.logs, d.logfileNumber, d.logfileNumber + 1) == Concat(d.logs[d.logfileNumber])
    ensures SeqAscending(Concat(d.logs[d.logfileNumber]))
  {
    hide SeqAscending;
    LogEntriesSplit(d);
    var cur := Concat(d.logs[d.logfileNumber]);
    assert LogEntries(d.logs, d.logfileNumber, d.logfileNumber + 1) == [] + cur;
    SuffixAscending(LogEntries(d.logs, d.logNumber, d.logfileNumber), cur);
  }

  lemma SuffixAscending(a: seq<Entry>, b: seq<Entry>)
    requires SeqAscending(a + b)
    ensures SeqAscending(b)
  {
    forall i, j | 0 <= i < j < |b| ensures b[i].key.seqno < b[j].key.seqno {
      assert (a + b)[|a| + i] == b[i] && (a + b)[|a| + j] == b[j];
    }
  }

  lemma InvNumbers(s: State)
    requires Inv(s)
    ensures NumbersOk(s) && UniqueNumbers(s.levels)
  {
  }

  ghost predicate FreshIn(d: Db, added: Files, l: nat, limit: nat) {
    && (forall t, u :: t in added && u in AddedBy(d.manifest, l) ==> t.number != u.number)
    && (forall i, j :: 0 <= i < j < |added| ==> added[i].number != added[j].number)
    && (forall t :: t in added ==> t.number < limit)
  }

  /** The numbers an installing step adds to a level are new to that level. */
  lemma InstallAddsFresh(d: Db, s: Step, l: nat)
    requires DbInv(d) && DbEnabled(d, Install(s)) && l < NUM_LEVELS
    ensures FreshIn(d, NewAt(RecordOf(d, s).newFiles, l), l, Apply(d.lsm, s).nextFile)
  {
    hide Inv, RecordsReadable, SortedBySmallest, DiskOk, LogsOk, BatchOk, ManifestOk, RecordsOk, IsEdit, PlacedAt,
      FreshIn, OutputsOk, CanStart, NumbersOk;
    InvNumbers(d.lsm);
    match s {
      case Flush(output, level, max, levels) =>
        if output.Some? {
          NewAtOne(l, level, output.value);
        }
        FlushAddsFresh(d, s, l);
      case Finish(outputs, levels) =>
        NewAtAtLevel(d.lsm.running.value.level + 1, outputs, l);
        FinishAddsFresh(d, s, l);
      case Move(r, levels) =>
        MoveLevel(d.lsm, r);
        NewAtOne(l, r.level + 1, r.inputs0[0]);
        MoveAddsFresh(d, s, l);
    }
  }

  lemma FlushAddsFresh(d: Db, s: Step, l: nat)
    requires RecordsOk(d) && NumbersOk(d.lsm) && Enabled(d.lsm, s) && s.Flush? && l < NUM_LEVELS
    ensures FreshIn(d, if s.output.Some? && l == s.level then [s.output.value] else [], l, d.lsm.nextFile + 1)
  {
    hide AddedBy, FreshAdds, PlacedAt, IsEdit, Table.Valid;
  }

  lemma FinishAddsFresh(d: Db, s: Step, l: nat)
    requires RecordsOk(d) && NumbersOk(d.lsm) && Enabled(d.lsm, s) && s.Finish? && l < NUM_LEVELS
    ensures FreshIn(d, if l == d.lsm.running.value.level + 1 then s.outputs else [], l, d.lsm.nextFile)
  {
    hide AddedBy, FreshAdds, IsEdit, SortedLevel, ValidFiles, EntriesOf;
  }

  lemma MoveAddsFresh(d: Db, s: Step, l: nat)
    requires RecordsOk(d) && NumbersOk(d.lsm) && Enabled(d.lsm, s) && s.Move? && l < NUM_LEVELS
    ensures FreshIn(d, if l == s.r.level + 1 then [s.r.inputs0[0]] else [], l, d.lsm.nextFile)
  {
    hide AddedBy, FreshAdds, IsEdit, GoodChoice, NoOlderLeft, IsSmallestSnapshot;
    MoveLevel(d.lsm, s.r);
  }

  /** What an installing step adds to a level. */
  ghost function AddedAt(d: Db, s: Step, l: nat): Files
    requires s.Flush? || s.Finish? || s.Move?
    requires s.Finish? ==> d.lsm.running.Some?
    requires s.Move? ==> s.r.inputs0 != []
  {
    match s
    case Flush(output, level, _, _) => if output.Some? && l == level then [output.value] else []
    case Finish(outputs, _) => if l == d.lsm.running.value.level + 1 then outputs else []
    case Move(r, _) => if l == r.level + 1 then [r.inputs0[0]] else []
  }

  lemma RecordAdds(d: Db, s: Step, l: nat)
    requires s.Flush? || s.Finish? || s.Move?
    requires s.Finish? ==> d.lsm.running.Some?
    requires s.Move? ==> s.r.inputs0 != []
    ensures NewAt(RecordOf(d, s).newFiles, l) == AddedAt(d, s, l)
  {
    hide InputDeletions, AtLevel;
    match s
    case Flush(output, level, _, _) =>
      if output.Some? {
        NewAtOne(l, level, output.value);
      }
    case Finish(outputs, _) => NewAtAtLevel(d.lsm.running.value.level + 1, outputs, l);
    case Move(r, _) => NewAtOne(l, r.level + 1, r.inputs0[0]);
  }

  /** The step as such: it is enabled, and its new version is the one it names. */
  lemma InstallStep(d: Db, s: Step)
    requires DbEnabled(d, Install(s))
    ensures s.Flush? || s.Finish? || s.Move?
    ensures Enabled(d.lsm, s) && Apply(d.lsm, s).levels == s.levels
    ensures s.Finish? ==> d.lsm.running.Some?
    ensures s.Move? ==> s.r.inputs0 != [] && d.lsm.running.None?
    ensures Apply(d.lsm, s).running == if s.Finish? then None else d.lsm.running
    ensures s.Flush? && s.output.Some? ==> s.output.value.number == d.lsm.nextFile
  {
    hide IsEdit, OutputsOk, GoodChoice, NoOlderLeft, PlacedAt, IsSmallestSnapshot;
  }

  /** ... and no live file of a higher level has one of them. */
  lemma InstallAddsBelow(d: Db, s: Step, l: nat, t: Table, m: nat, u: Table)
    requires DbEnabled(d, Install(s)) && l < m < NUM_LEVELS
    requires t in Apply(d.lsm, s).levels[l] && u in AddedBy(d.manifest, m) + SetOfFiles(NewAt(RecordOf(d, s).newFiles, m))
    requires DbInv(d)
    ensures t.number != u.number
  {
    hide Inv, RecordsReadable, SortedBySmallest, DiskOk, LogsOk, BatchOk, ManifestOk, RecordsOk, AddedBy, NumbersOk,
      UniqueNumbers, NewAt, RecordOf, Enabled, Apply, DbEnabled;
    InvNumbers(d.lsm);
    InstallStep(d, s);
    RecordAdds(d, s, m);
    match s {
      case Flush(output, level, max, levels) => FlushAddsBelow(d, s, l, t, m, u);
      case Finish(outputs, levels) => FinishAddsBelow(d, s, l, t, m, u);
      case Move(r, levels) => MoveAddsBelow(d, s, l, t, m, u);
    }
  }

  lemma FlushAddsBelow(d: Db, s: Step, l: nat, t: Table, m: nat, u: Table)
    requires RecordsOk(d) && NumbersOk(d.lsm) && Enabled(d.lsm, s) && s.Flush? && l < m < NUM_LEVELS
    requires t in s.levels[l] && (u in AddedBy(d.manifest, m) || (s.output.Some? && m == s.level && u == s.output.value))
    ensures t.number != u.number
  {
    hide AddedBy, FreshAdds, PlacedAt, SortedBySmallest, Table.Valid;
  }

  lemma FinishAddsBelow(d: Db, s: Step, l: nat, t: Table, m: nat, u: Table)
    requires RecordsOk(d) && NumbersOk(d.lsm) && Enabled(d.lsm, s) && s.Finish? && l < m < NUM_LEVELS
    requires t in s.levels[l] && (u in AddedBy(d.manifest, m) || (m == d.lsm.running.value.level + 1 && u in s.outputs))
    ensures t.number != u.number
  {
    hide AddedBy, FreshAdds, SortedBySmallest, SortedLevel, ValidFiles, EntriesOf, InputDeletions;
  }

  lemma MoveAddsBelow(d: Db, s: Step, l: nat, t: Table, m: nat, u: Table)
    requires RecordsOk(d) && NumbersOk(d.lsm) && UniqueNumbers(d.lsm.levels) && Enabled(d.lsm, s) && s.Move? && l < m < NUM_LEVELS
    requires s.r.inputs0 != []
    requires t in s.levels[l] && (u in AddedBy(d.manifest, m) || (m == s.r.level + 1 && u == s.r.inputs0[0]))
    ensures t.number != u.number
  {
    hide AddedBy, FreshAdds, SortedBySmallest, GoodChoice, NoOlderLeft, IsSmallestSnapshot;
    MoveLevel(d.lsm, s.r);
    var f := s.r.inputs0[0];
    assert t == f ==> l == s.r.level + 1;
  }

  lemma InstallKeepsRecords(d: Db, s: Step)
    requires DbInv(d) && DbEnabled(d, Install(s))
    ensures RecordsOk(DbApply(d, Install(s)))
  {
    hide RecordsReadable, Inv, SortedBySmallest, DiskOk, BatchOk, ManifestOk, IsEdit, PlacedAt, OutputsOk, CanStart,
      AddedBy, FreshAdds, RecordOf, SeqAscending;
    var d', e := DbApply(d, Install(s)), RecordOf(d, s);
    forall l | 0 <= l < NUM_LEVELS ensures FreshAdds({}, d'.manifest, l) {
      InstallAddsFresh(d, s, l);
      assert FreshIn(d, NewAt(e.newFiles, l), l, d'.lsm.nextFile);
      AppendFresh(d.manifest, e, l);
    }
    forall l, u | 0 <= l < NUM_LEVELS && u in AddedBy(d'.manifest, l)
      ensures u.number < d'.lsm.nextFile && (d'.lsm.running.Some? ==> u.number !in d'.lsm.running.value.numbers)
    {
      InstallAddsFresh(d, s, l);
      AppendRecord(d.manifest, e, l);
      InstallRunning(d, s, l, u);
    }
    forall l, t, m, u | 0 <= l < m < NUM_LEVELS && t in d'.lsm.levels[l] && u in AddedBy(d'.manifest, m) ensures t.number != u.number {
      AppendRecord(d.manifest, e, m);
      InstallAddsBelow(d, s, l, t, m, u);
    }
  }

  lemma InstallRunning(d: Db, s: Step, l: nat, u: Table)
    requires DbEnabled(d, Install(s)) && l < NUM_LEVELS
    requires u in AddedBy(d.manifest, l) + SetOfFiles(NewAt(RecordOf(d, s).newFiles, l))
    requires DbInv(d)
    ensures Apply(d.lsm, s).running.Some? ==> u.number !in Apply(d.lsm, s).running.value.numbers
  {
    hide Inv, RecordsReadable, SortedBySmallest, DiskOk, LogsOk, BatchOk, ManifestOk, RecordsOk, AddedBy, NumbersOk,
      NewAt, RecordOf, Enabled, Apply, DbEnabled;
    InvNumbers(d.lsm);
    InstallStep(d, s);
    RecordAdds(d, s, l);
    if d.lsm.running.Some? && s.Flush? {
      FlushNotRunning(d, s, l, u);
    }
  }

  /** A flush takes its number from the counter, not from those of the running compaction. */
  lemma FlushNotRunning(d: Db, s: Step, l: nat, u: Table)
    requires RecordsOk(d) && NumbersOk(d.lsm) && s.Flush? && d.lsm.running.Some? && l < NUM_LEVELS
    requires s.output.Some? ==> s.output.value.number == d.lsm.nextFile
    requires u in AddedBy(d.manifest, l) || (s.output.Some? && u == s.output.value)
    ensures u.number !in d.lsm.running.value.numbers
  {
    hide AddedBy, FreshAdds;
  }

  lemma InstallKeepsReadable(d: Db, s: Step)
    requires DbInv(d) && DbEnabled(d, Install(s))
    ensures RecordsReadable(d.manifest + [RecordOf(d, s)])
  {
    hide Inv, SortedBySmallest, DiskOk, BatchOk, ManifestOk, RecordsOk, LogsOk, IsEdit, Enabled, LastValue;
    InstallShape(d, s);
    InstallIsEdit(d, s);
    DeletionsInRange(d, s);
    var e := RecordOf(d, s);
    forall f | f in e.newFiles ensures f.0 < NUM_LEVELS {
      assert (f.0, f.1) in e.newFiles;
    }
    AppendReadable(d.manifest, e);
  }

  lemma DeletionsInRange(d: Db, s: Step)
    requires DbInv(d) && DbEnabled(d, Install(s)) && (s.Finish? ==> d.lsm.running.Some?) && (s.Move? ==> s.r.inputs0 != [])
    ensures s.Flush? || s.Finish? || s.Move?
    ensures forall p :: p in RecordOf(d, s).deletedFiles ==> p.0 < NUM_LEVELS
  {
    hide RecordsReadable, SortedBySmallest, DiskOk, BatchOk, ManifestOk, RecordsOk, LogsOk, IsEdit, RunningOk,
      OutputsOk;
    match s {
      case Finish(_, _) => FinishLevel(d.lsm);
      case Move(r, _) => MoveLevel(d.lsm, r);
      case _ =>
    }
  }

  lemma InstallKeepsInv(d: Db, s: Step)
    requires DbInv(d) && DbEnabled(d, Install(s))
    ensures DbInv(DbApply(d, Install(s)))
  {
    hide RecordsReadable, Inv, SortedBySmallest, DiskOk, BatchOk, ManifestOk, RecordsOk, Enabled, RecordOf,
      NewFilesOf, SeqAscending;
    StepKeepsInv(d.lsm, s);
    LogsHaveCurrent(d);
    InstallKeepsManifestFiles(d, s);
    InstallKeepsManifest(d, s);
    InstallKeepsRecords(d, s);
    InstallKeepsLogs(d, s);
    InstallKeepsDisk(d, s);
    InstallKeepsReadable(d, s);
  }
}

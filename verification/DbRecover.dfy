/** Opening a database from its files: the manifest is replayed, then every log numbered
    from the manifest's log number on, each in turn cut into level-0 tables, and one edit
    records the result in a new manifest. */
module DbRecover {
  import opened Options
  import opened Coding
  import opened Crc32c
  import opened DbFormat
  import opened Tables
  import opened CompactionDrop
  import opened Lsm
  import opened VersionBuilder
  import opened Manifest
  import VersionSet
  import opened Recovery
  import opened RecoveryProof
  import opened RecoveryRestart
  import opened RecoveryRuns
  import opened LogBytes
  import opened BatchReads
  import opened Ranks
  import LogReader
  import LogRoundTrip
  import WriteBatches
  import DbImpl

  /** Level-0 files made of stretches of logged entries, numbered upwards inside
      [lo, hi). */
  ghost predicate FilesFor(chunks: seq<seq<Entry>>, files: Files, lo: nat, hi: nat) {
    && |files| == |chunks|
    && (forall i :: 0 <= i < |files| ==> files[i].Valid() && files[i].entries == SetOf(chunks[i]) && lo <= files[i].number < hi)
    && (forall i, j :: 0 <= i < j < |files| ==> files[i].number < files[j].number)
  }

  lemma OneMoreFile(chunks: seq<seq<Entry>>, files: Files, lo: nat, hi: nat, chunk: seq<Entry>, t: Table)
    requires FilesFor(chunks, files, lo, hi) && t.Valid() && t.entries == SetOf(chunk) && t.number == hi && lo <= hi
    ensures FilesFor(chunks + [chunk], files + [t], lo, hi + 1)
    ensures Concat(chunks + [chunk]) == Concat(chunks) + chunk
  {
    hide Table.Valid;
    ConcatAppend(chunks, chunk);
  }

  /** Writes a memtable to a level-0 file; an empty one only uses up a number. */
  method WriteLevel0Table(vs: VersionSet.VersionSet, mem: set<Entry>, files: Files, ghost chunks: seq<seq<Entry>>,
                          ghost chunk: seq<Entry>, ghost lo: nat)
    returns (files': Files, ghost chunks': seq<seq<Entry>>)
    requires vs.Valid() && FilesFor(chunks, files, lo, vs.nextFileNumber) && lo <= vs.nextFileNumber
    requires mem == SetOf(chunk) && forall e :: e in mem ==> e.key.seqno <= MAX_SEQUENCE
    modifies vs`nextFileNumber
    ensures vs.Valid() && old(vs.nextFileNumber) <= vs.nextFileNumber
    ensures FilesFor(chunks', files', lo, vs.nextFileNumber) && Concat(chunks') == Concat(chunks) + chunk
  {
    hide FilesFor, Table.Valid, VersionSet.Describes, SortedBySmallest;
    var number := vs.NewFileNumber();
    if mem != {} {
      var t := DbImpl.BuildTable(mem, number, |mem|);
      OneMoreFile(chunks, files, lo, number, chunk, t);
      files', chunks' := files + [t], chunks + [chunk];
    } else {
      NonEmptyChunk(chunk);
      WiderRange(chunks, files, lo, number, number + 1);
      files', chunks' := files, chunks;
    }
  }

  lemma NonEmptyChunk(chunk: seq<Entry>)
    ensures chunk != [] ==> SetOf(chunk) != {}
  {
    if chunk != [] {
      assert chunk[0] in SetOf(chunk);
    }
  }

  lemma WiderRange(chunks: seq<seq<Entry>>, files: Files, lo: nat, hi: nat, hi': nat)
    requires FilesFor(chunks, files, lo, hi) && hi <= hi'
    ensures FilesFor(chunks, files, lo, hi')
  {
    hide Table.Valid;
  }

  lemma LastOfAppend(es: seq<Entry>, batch: seq<Entry>)
    requires SeqAscending(es + batch)
    ensures LastSeqOf(es + batch) == if batch == [] then LastSeqOf(es) else Max(LastSeqOf(es), batch[|batch| - 1].key.seqno)
  {
    if batch != [] && es != [] {
      assert (es + batch)[|es| - 1] == es[|es| - 1];
    }
  }

  lemma PrefixAscending(a: seq<Entry>, b: seq<Entry>)
    requires SeqAscending(a + b)
    ensures SeqAscending(a)
  {
    forall i, j | 0 <= i < j < |a| ensures a[i].key.seqno < a[j].key.seqno {
      assert (a + b)[i] == a[i] && (a + b)[j] == a[j];
    }
  }

  lemma ConcatTake(log: Log, i: nat)
    requires i < |log|
    ensures Concat(log[..i + 1]) == Concat(log[..i]) + log[i]
  {
    assert log[..i + 1][..i] == log[..i];
  }

  lemma {:induction false} ConcatPrefix(log: Log, i: nat)
    requires i <= |log|
    ensures exists rest :: Concat(log) == Concat(log[..i]) + rest
    decreases |log|
  {
    if i == |log| {
      assert log[..i] == log;
      assert Concat(log) == Concat(log[..i]) + [];
    } else {
      ConcatPrefix(log[..|log| - 1], i);
      assert log[..|log| - 1][..i] == log[..i];
      var rest :| Concat(log[..|log| - 1]) == Concat(log[..i]) + rest;
      assert Concat(log) == Concat(log[..i]) + (rest + log[|log| - 1]);
    }
  }

  /** Replays one log: batches go into a memtable that is written out whenever it has
      grown too large, and once more at the end of the log. */
  method RecoverLogFile(vs: VersionSet.VersionSet, crc: Crc, rank: Rank, file: Bytes, full: set<Entry> -> bool, files: Files, maxSequence: nat,
                        ghost log: Log, ghost done: seq<Entry>, ghost chunks: seq<seq<Entry>>, ghost lo: nat, ghost top: nat)
    returns (files': Files, maxSequence': nat, ghost chunks': seq<seq<Entry>>)
    requires vs.Valid() && lo <= vs.nextFileNumber && FilesFor(chunks, files, lo, vs.nextFileNumber) && Concat(chunks) == done
    requires OnDisk(crc, rank, file, log, top)
    requires LastSeqOf(done) <= maxSequence <= top && SeqAscending(done + Concat(log))
    requires forall e :: e in Concat(log) ==> e.key.seqno <= MAX_SEQUENCE
    modifies vs`nextFileNumber
    ensures vs.Valid() && old(vs.nextFileNumber) <= vs.nextFileNumber
    ensures FilesFor(chunks', files', lo, vs.nextFileNumber) && Concat(chunks') == done + Concat(log)
    ensures LastSeqOf(done + Concat(log)) <= maxSequence' <= top
  {
    hide FilesFor, Concat, SeqAscending, LastSeqOf, VersionSet.VersionSet.Valid, LogRoundTrip.Reading,
      LogRoundTrip.CutLog.Ok, LogRoundTrip.CutLog.Count, IsBatch, OnDisk, OnDiskAs, SetOf;
    files', maxSequence', chunks' := files, maxSequence, chunks;
    ghost var l := LogOnDisk(crc, rank, file, log, top);
    var reader := new LogReader.Reader(crc, true, file);
    LogRoundTrip.StartsReading(reader, l);
    var mem: Option<set<Entry>> := None;
    ghost var pending: seq<Entry> := [];
    EmptyPrefix(log, done);
    ghost var i := 0;
    var more := true;
    while more
      invariant i <= |log| == l.Count() && (more ==> LogRoundTrip.Reading(reader, l, i)) && (!more ==> i == |log|)
      invariant vs.Valid() && lo <= vs.nextFileNumber && old(vs.nextFileNumber) <= vs.nextFileNumber
      invariant FilesFor(chunks', files', lo, vs.nextFileNumber)
      invariant Concat(chunks') + pending == done + Concat(log[..i])
      invariant mem.None? ==> pending == []
      invariant mem.Some? ==> mem.value == SetOf(pending)
      invariant LastSeqOf(done + Concat(log[..i])) <= maxSequence' <= top
      invariant forall e :: e in SetOf(pending) ==> e.key.seqno <= MAX_SEQUENCE
      decreases more, |log| - i
    {
      var record := LogRoundTrip.ReadNext(reader, l, i);
      if record.None? {
        more := false;
      } else {
        RecordOfLog(crc, rank, file, log, top, l, i);
        var batch, lastSeq := ReadBatch(rank, record.value, log[i], top);
        BatchGoesIn(log, i, done, chunks', pending);
        i := i + 1;
        if mem.None? {
          mem := Some({});
        }
        mem := Some(mem.value + set e | e in batch);
        pending := pending + batch;
        if lastSeq > maxSequence' {
          maxSequence' := lastSeq;
        }
        if full(mem.value) {
          files', chunks' := WriteLevel0Table(vs, mem.value, files', chunks', pending, lo);
          mem, pending := None, [];
        }
      }
    }
    assert log[..|log|] == log;
    if mem.Some? {
      files', chunks' := WriteLevel0Table(vs, mem.value, files', chunks', pending, lo);
    }
  }

  lemma LogOnDisk(crc: Crc, rank: Rank, file: Bytes, log: Log, top: nat) returns (l: LogRoundTrip.CutLog)
    requires OnDisk(crc, rank, file, log, top)
    ensures OnDiskAs(crc, rank, file, log, top, l) && l.Ok(crc) && file == l.file[..l.n] && |log| == l.Count()
  {
    l :| OnDiskAs(crc, rank, file, log, top, l);
  }

  lemma RecordOfLog(crc: Crc, rank: Rank, file: Bytes, log: Log, top: nat, l: LogRoundTrip.CutLog, i: nat)
    requires OnDiskAs(crc, rank, file, log, top, l) && i < l.Count()
    ensures i < |l.records| && i < |log| && IsBatch(rank, l.records[i], log[i], top)
  {
    hide IsBatch, LogRoundTrip.CutLog.Ok, LogRoundTrip.CutLog.Count;
    assert l.records[..l.Count()][i] == l.records[i];
  }

  lemma EmptyPrefix(log: Log, done: seq<Entry>)
    ensures Concat(log[..0]) == [] && done + Concat(log[..0]) == done && SetOf([]) == {}
  {
  }

  lemma BatchInLog(log: Log, i: nat, done: seq<Entry>)
    requires i < |log| && SeqAscending(done + Concat(log)) && forall e :: e in Concat(log) ==> e.key.seqno <= MAX_SEQUENCE
    ensures SeqAscending((done + Concat(log[..i])) + log[i])
    ensures forall e :: e in log[i] ==> e.key.seqno <= MAX_SEQUENCE
  {
    hide SeqAscending, Concat;
    ConcatTake(log, i);
    ConcatPrefix(log, i + 1);
    var rest :| Concat(log) == Concat(log[..i + 1]) + rest;
    assert done + Concat(log) == ((done + Concat(log[..i])) + log[i]) + rest;
    PrefixAscending((done + Concat(log[..i])) + log[i], rest);
    forall e | e in log[i] ensures e.key.seqno <= MAX_SEQUENCE {
      assert e in Concat(log);
    }
  }

  /** Batch i after the i batches before it. */
  lemma BatchGoesIn(log: Log, i: nat, done: seq<Entry>, chunks: seq<seq<Entry>>, pending: seq<Entry>)
    requires i < |log| && SeqAscending(done + Concat(log)) && forall e :: e in Concat(log) ==> e.key.seqno <= MAX_SEQUENCE
    requires Concat(chunks) + pending == done + Concat(log[..i])
    ensures Concat(chunks) + (pending + log[i]) == done + Concat(log[..i + 1])
    ensures SetOf(pending + log[i]) == SetOf(pending) + set e | e in log[i]
    ensures log[i] == [] ==> LastSeqOf(done + Concat(log[..i + 1])) == LastSeqOf(done + Concat(log[..i]))
    ensures log[i] != [] ==>
      LastSeqOf(done + Concat(log[..i + 1])) == Max(LastSeqOf(done + Concat(log[..i])), log[i][|log[i]| - 1].key.seqno)
    ensures forall e :: e in log[i] ==> e.key.seqno <= MAX_SEQUENCE
  {
    hide Concat, SeqAscending, LastSeqOf;
    ConcatTake(log, i);
    BatchInLog(log, i, done);
    assert done + Concat(log[..i + 1]) == (done + Concat(log[..i])) + log[i];
    LastOfAppend(done + Concat(log[..i]), log[i]);
  }

  // ----- all logs -----

  ghost predicate StrictlyAscending(ns: seq<nat>) {
    forall i, j :: 0 <= i < j < |ns| ==> ns[i] < ns[j]
  }

  /** The log numbers to replay, in the order the logs were started. */
  method SortNumbers(numbers: set<nat>) returns (ns: seq<nat>)
    ensures StrictlyAscending(ns) && forall n :: n in ns <==> n in numbers
  {
    ns := [];
    var rest := numbers;
    while rest != {}
      invariant rest <= numbers
      invariant StrictlyAscending(ns) && forall n :: n in ns <==> n in numbers && n !in rest
      invariant forall n, m :: n in ns && m in rest ==> n < m
      decreases rest
    {
      var least :| least in rest;
      var others := rest - {least};
      while others != {}
        invariant others <= rest && least in rest
        invariant forall n :: n in rest ==> n in others || least <= n
        decreases others
      {
        var n :| n in others;
        if n < least {
          least := n;
        }
        others := others - {n};
      }
      assert forall j :: 0 <= j < |ns| ==> ns[j] in ns;
      ns := ns + [least];
      rest := rest - {least};
    }
  }

  lemma LogNumbersReplayed(logs: map<nat, Log>, ns: seq<nat>, lo: nat, i: nat, from: nat)
    requires StrictlyAscending(ns) && (forall n :: n in ns <==> n in logs && n >= lo)
    requires i < |ns| && lo <= from && (i == 0 ==> from == lo) && (i > 0 ==> from == ns[i - 1] + 1)
    ensures from <= ns[i] && LogEntries(logs, lo, ns[i] + 1) == LogEntries(logs, lo, from) + Concat(logs[ns[i]])
  {
    hide Concat;
    assert ns[i] in ns;
    forall n | from <= n < ns[i] ensures n !in logs {
      if n in logs {
        assert n in ns;
        var j :| 0 <= j < |ns| && ns[j] == n;
      }
    }
    LogEntriesGap(logs, lo, from, ns[i]);
    LogEntriesStep(logs, lo, ns[i]);
  }

  /** Replays the logs numbered from minLog on, oldest first, and takes their numbers and
      their largest sequence number into account. */
  method RecoverLogs(vs: VersionSet.VersionSet, crc: Crc, rank: Rank, logFiles: map<nat, Bytes>, full: set<Entry> -> bool,
                     ghost logs: map<nat, Log>, ghost hi: nat, ghost top: nat)
    returns (files: Files, maxSequence: nat, ghost chunks: seq<seq<Entry>>)
    requires vs.Valid() && LogsOnDisk(crc, rank, logFiles, logs, top)
    requires hi in logs && vs.logNumber <= hi && forall n :: n in logs ==> n <= hi
    requires SeqAscending(LogEntries(logs, vs.logNumber, hi + 1))
    requires forall e :: e in LogEntries(logs, vs.logNumber, hi + 1) ==> e.key.seqno <= MAX_SEQUENCE
    modifies vs`nextFileNumber
    ensures vs.Valid() && old(vs.nextFileNumber) <= vs.nextFileNumber
    ensures FilesFor(chunks, files, old(vs.nextFileNumber), vs.nextFileNumber)
    ensures Concat(chunks) == LogEntries(logs, vs.logNumber, hi + 1)
    ensures LastSeqOf(LogEntries(logs, vs.logNumber, hi + 1)) <= maxSequence <= top
    ensures forall n :: n in logs && n >= vs.logNumber ==> n < vs.nextFileNumber
  {
    hide FilesFor, Concat, SeqAscending, LastSeqOf, VersionSet.VersionSet.Valid, LogEntries, StrictlyAscending, OnDisk;
    var ns: seq<nat> := SortNumbers(set n: nat | n in logFiles && n >= vs.logNumber);
    files, maxSequence, chunks := [], 0, [];
    ghost var lo := vs.nextFileNumber;
    ghost var from := vs.logNumber;
    NothingReplayed(logs, vs.logNumber, lo);
    for i := 0 to |ns|
      invariant vs.Valid() && lo <= vs.nextFileNumber && FilesFor(chunks, files, lo, vs.nextFileNumber)
      invariant vs.logNumber <= from && (i == 0 ==> from == vs.logNumber) && (i > 0 ==> from == ns[i - 1] + 1)
      invariant Concat(chunks) == LogEntries(logs, vs.logNumber, from)
      invariant LastSeqOf(LogEntries(logs, vs.logNumber, from)) <= maxSequence <= top
      invariant forall j :: 0 <= j < i ==> ns[j] < vs.nextFileNumber
    {
      assert ns[i] in ns;
      LogNumbersReplayed(logs, ns, vs.logNumber, i, from);
      LogPrefix(logs, vs.logNumber, ns[i] + 1, hi + 1);
      files, maxSequence, chunks :=
        RecoverLogFile(vs, crc, rank, logFiles[ns[i]], full, files, maxSequence, logs[ns[i]], LogEntries(logs, vs.logNumber, from), chunks, lo, top);
      ghost var before := vs.nextFileNumber;
      vs.MarkFileNumberUsed(ns[i]);
      WiderRange(chunks, files, lo, before, vs.nextFileNumber);
      from := ns[i] + 1;
    }
    LastReplayed(logs, ns, vs.logNumber, hi);
  }

  lemma NothingReplayed(logs: map<nat, Log>, lo: nat, n: nat)
    ensures LogEntries(logs, lo, lo) == [] && Concat([]) == [] && LastSeqOf([]) == 0 && FilesFor([], [], n, n)
  {
  }

  lemma LastReplayed(logs: map<nat, Log>, ns: seq<nat>, lo: nat, hi: nat)
    requires StrictlyAscending(ns) && (forall n :: n in ns <==> n in logs && n >= lo)
    requires hi in logs && lo <= hi && forall n :: n in logs ==> n <= hi
    ensures ns != [] && ns[|ns| - 1] == hi
  {
    assert hi in ns;
    assert ns[|ns| - 1] in ns;
  }

  /** Earlier logs hold an ascending prefix. */
  lemma {:induction false} LogPrefix(logs: map<nat, Log>, lo: nat, mid: nat, hi: nat)
    requires lo <= mid <= hi && SeqAscending(LogEntries(logs, lo, hi))
    requires forall e :: e in LogEntries(logs, lo, hi) ==> e.key.seqno <= MAX_SEQUENCE
    ensures SeqAscending(LogEntries(logs, lo, mid))
    ensures forall e :: e in LogEntries(logs, lo, mid) ==> e.key.seqno <= MAX_SEQUENCE
    decreases hi
  {
    hide Concat, SeqAscending;
    if mid < hi {
      var last := if hi - 1 in logs then Concat(logs[hi - 1]) else [];
      assert LogEntries(logs, lo, hi) == LogEntries(logs, lo, hi - 1) + last;
      PrefixAscending(LogEntries(logs, lo, hi - 1), last);
      LogPrefix(logs, lo, mid, hi - 1);
    }
  }

  // ----- opening -----

  /** A reachable database's manifest is sound, so replaying it gives its version. */
  lemma ManifestIsSound(d: Db)
    requires DbInv(d)
    ensures VersionSet.RecordsSound(d.manifest) && VersionSet.RecordsFresh(d.manifest) && RecoverStatus(d.manifest) == Ok
    ensures ManifestLog(d.manifest) == d.logNumber && d.logNumber < ManifestNext(d.manifest)
    ensures forall e :: e in d.manifest ==> e.LevelsInRange()
  {
    hide Inv, SortedBySmallest, LogsOk, BatchOk, DiskOk, FreshAdds, EditAll, LastValue, RecoverStatus;
    forall l, t | 0 <= l < NUM_LEVELS && t in EditAll({}, d.manifest, l) ensures t.number < ManifestNext(d.manifest) {
      assert t in SetOfFiles(d.lsm.levels[l]);
    }
  }

  lemma LogsReady(d: Db)
    requires DbInv(d)
    ensures d.logfileNumber in d.logs && d.logNumber <= d.logfileNumber && forall n :: n in d.logs ==> n <= d.logfileNumber
    ensures SeqAscending(Logged(d)) && forall e :: e in Logged(d) ==> e.key.seqno <= MAX_SEQUENCE
  {
    hide RecordsReadable, Inv, SortedBySmallest, RecordsOk, ManifestOk, DiskOk, SeqAscending, LogEntries;
    LoggedBounded(d);
    forall e | e in Logged(d) ensures e.key.seqno <= MAX_SEQUENCE {
      assert e in SetOf(Logged(d));
    }
  }

  /** The live table numbers that have no file. */
  method MissingFiles(v: Levels, onDisk: set<nat>) returns (missing: set<nat>)
    ensures forall n :: n in missing <==> n !in onDisk && exists l, t :: 0 <= l < NUM_LEVELS && t in v[l] && t.number == n
  {
    missing := {};
    for level := 0 to NUM_LEVELS
      invariant forall n :: n in missing <==> n !in onDisk && exists l, t :: 0 <= l < level && t in v[l] && t.number == n
    {
      missing := missing + set t | t in v[level] && t.number !in onDisk :: t.number;
    }
  }

  lemma DiskParts(crc: Crc, rank: Rank, records: seq<Edit>, logFiles: map<nat, Bytes>, onDisk: set<nat>, d: Db)
    requires DiskHolds(crc, rank, records, logFiles, onDisk, d)
    ensures records == d.manifest && onDisk == NumbersOnDisk(d.tables)
    ensures LogsOnDisk(crc, rank, logFiles, d.logs, d.lsm.nextSeq + |d.batch|)
  {
    hide LogsOnDisk, NumbersOnDisk;
  }

  /** The larger of the manifest's last sequence number and the logs'. */
  lemma LargerOfBoth(d: Db, maxSequence: nat)
    requires DbInv(d) && LastSeqOf(Logged(d)) <= maxSequence <= d.lsm.nextSeq + |d.batch|
    ensures RecoversTo(d, Max(ManifestSeq(d.manifest), maxSequence))
  {
    hide RecordsReadable, SortedBySmallest, RecordsOk, DiskOk, LogsOk, BatchOk, LogEntries, LastSeqOf;
  }

  /** Recover: the manifest, the check that no live table is missing, the logs. */
  method Recover(vs: VersionSet.VersionSet, crc: Crc, rank: Rank, records: seq<Edit>, logFiles: map<nat, Bytes>, onDisk: set<nat>,
                 full: set<Entry> -> bool, ghost d: Db)
    returns (status: Status, edit: Edit, ghost chunks: seq<seq<Entry>>, ghost files: Files)
    requires DbInv(d) && DiskHolds(crc, rank, records, logFiles, onDisk, d)
    requires vs.current == VersionSet.EmptyVersion() && vs.compactPointer == map[] && vs.descriptorLog.None?
    modifies vs
    ensures status == Ok && vs.Valid() && vs.descriptorLog.None?
    ensures vs.current == d.lsm.levels && vs.logNumber == d.logNumber && vs.compactPointer == ManifestPointers(d.manifest)
    ensures RecoveredFiles(d, chunks, files) && edit == EMPTY_EDIT.(newFiles := AtLevel(0, files))
    ensures RecoversTo(d, vs.lastSequence)
    ensures forall f :: f in files ==> f.number < vs.nextFileNumber
    ensures ManifestNext(d.manifest) < vs.nextFileNumber && forall n :: n in d.logs && n >= d.logNumber ==> n < vs.nextFileNumber
  {
    hide DbInv, VersionSet.VersionSet.Valid, SortedBySmallest, VersionSet.RecordsFresh, VersionSet.RecordsSound,
      EditAll, FreshAdds, LastValue, RecoverStatus, LogEntries, SeqAscending, FilesFor, ManifestPointers,
      ManifestFiles, Saved, NumbersOnDisk, DiskHolds, LogsOnDisk, RecoversTo, LastSeqOf;
    ManifestIsSound(d);
    DiskParts(crc, rank, records, logFiles, onDisk, d);
    LogsReady(d);
    edit := EMPTY_EDIT;
    var save;
    status, save := vs.Recover(records);
    FilesHoldEverything(d, vs.current);
    var missing := MissingFiles(vs.current, onDisk);
    NothingMissing(d, missing);
    if missing != {} {
      status := Corruption("missing files");
    }
    ghost var first := vs.nextFileNumber;
    var maxSequence, newFiles;
    newFiles, maxSequence, chunks := RecoverLogs(vs, crc, rank, logFiles, full, d.logs, d.logfileNumber, d.lsm.nextSeq + |d.batch|);
    files := newFiles;
    FilesForRecovered(d, chunks, files, first, vs.nextFileNumber);
    edit := edit.(newFiles := AtLevel(0, newFiles));
    LargerOfBoth(d, maxSequence);
    if vs.lastSequence < maxSequence {
      vs.SetLastSequence(maxSequence);
    }
  }

  lemma NothingMissing(d: Db, missing: set<nat>)
    requires DbInv(d)
    requires forall n :: n in missing ==> n !in NumbersOnDisk(d.tables) && exists l, t :: 0 <= l < NUM_LEVELS && t in d.lsm.levels[l] && t.number == n
    ensures missing == {}
  {
    hide RecordsReadable, Inv, SortedBySmallest, RecordsOk, ManifestOk, LogsOk, BatchOk;
  }

  lemma FilesForRecovered(d: Db, chunks: seq<seq<Entry>>, files: Files, lo: nat, hi: nat)
    requires FilesFor(chunks, files, lo, hi) && ManifestNext(d.manifest) < lo && Concat(chunks) == Logged(d)
    ensures RecoveredFiles(d, chunks, files) && forall f :: f in files ==> f.number < hi
  {
    hide Table.Valid, Concat, LogEntries;
  }

  lemma LevelZeroFiles(files: Files)
    ensures (set f | f in AtLevel(0, files)) == (set f | f in files :: (0, f))
    ensures forall p :: p in AtLevel(0, files) ==> p.0 == 0 && p.1 in files
  {
    AtLevelMembers(0, files);
    forall p | p in AtLevel(0, files) ensures p.0 == 0 && p.1 in files {
      assert (p.0, p.1) in AtLevel(0, files);
    }
    var listed, tagged := (set f | f in AtLevel(0, files)), (set f | f in files :: (0, f));
    forall p | p in tagged ensures p in listed {
      assert (p.0, p.1) in AtLevel(0, files);
    }
  }

  /** The recovered files are new to the manifest that starts from the version. */
  lemma RecoveredAreFresh(v: Levels, pointers: Pointers, files: Files, next: nat)
    requires forall l :: 0 <= l < NUM_LEVELS ==> NoSharedNumber(v[l])
    requires forall l, t :: 0 <= l < NUM_LEVELS && t in v[l] ==> t.number < next
    requires (forall f :: f in files ==> f.number > next) && NoSharedNumber(files)
    ensures VersionSet.AddsFreshNumbers([SnapshotRecord(v, pointers)], AtLevel(0, files))
  {
    hide AddedBy, AtLevel, FilesFrom, SnapshotRecord;
    VersionSet.SnapshotSound(v, pointers);
    forall l | 0 <= l < NUM_LEVELS
      ensures NoSharedNumber(NewAt(AtLevel(0, files), l))
      ensures forall t, u :: t in NewAt(AtLevel(0, files), l) && u in AddedBy([SnapshotRecord(v, pointers)], l) ==> t.number != u.number
    {
      NewAtAtLevel(0, files, l);
    }
  }

  /** What the final edit needs before it may be logged. */
  lemma OpenEdit(d: Db, chunks: seq<seq<Entry>>, files: Files, vs: VersionSet.VersionSet, edit: Edit)
    requires DbInv(d) && RecoveredFiles(d, chunks, files) && vs.current == d.lsm.levels
    requires vs.Valid() && vs.descriptorLog.None? && edit.newFiles == AtLevel(0, files) && edit.deletedFiles == {} && edit.compactPointers == []
    requires forall f :: f in files ==> f.number < vs.nextFileNumber
    ensures VersionSet.AddsFreshNumbers(vs.Manifest(edit), edit.newFiles) && edit.LevelsInRange()
    ensures forall f :: f in edit.newFiles ==> f.1.number < vs.nextFileNumber
    ensures vs.Manifest(edit) == [SnapshotRecord(vs.current, vs.compactPointer)]
    ensures d.logNumber < ManifestNext(d.manifest)
  {
    hide RecordsReadable, Inv, LogsOk, BatchOk, RecordsOk, DiskOk, SortedBySmallest, LastValue, ManifestFiles,
      AtLevel, SnapshotRecord, LogEntries, Concat, Table.Valid, VersionSet.AddsFreshNumbers;
    LevelZeroFiles(files);
    assert NoSharedNumber(files);
    RecoveredAreFresh(vs.current, PointersAfter(vs.compactPointer, edit.compactPointers), files, ManifestNext(d.manifest));
    forall p | p in edit.newFiles ensures p.0 < NUM_LEVELS && p.1.number < vs.nextFileNumber {
      assert p.0 == 0 && p.1 in files;
    }
  }

  /** The opened database, as the crash model sees it. */
  ghost function OpenedDb(d: Db, v: Levels, files: Files, levels: Levels, lastSeq: nat, next: nat, newLogNumber: nat): Db {
    Db(State({}, None, levels, lastSeq, lastSeq, next, multiset{}, None, d.lsm.written + SetOf(d.batch)),
       [SnapshotRecord(v, ManifestPointers(d.manifest)), EMPTY_EDIT.(
          logNumber := Some(newLogNumber), prevLogNumber := Some(0), nextFileNumber := Some(next),
          lastSequence := Some(lastSeq), newFiles := AtLevel(0, files))],
       d.logs[newLogNumber := []],
       (set u | u in d.tables && u.number !in NumbersOf(files)) + SetOfFiles(files),
       {}, {}, newLogNumber, newLogNumber, [])
  }

  lemma OpenedIsRecovered(d: Db, chunks: seq<seq<Entry>>, files: Files, levels: Levels, lastSeq: nat, next: nat, newLogNumber: nat)
    requires DbInv(d) && RecoveredFiles(d, chunks, files)
    requires RecoversTo(d, lastSeq)
    requires IsEdit(d.lsm.levels, {}, (set f | f in files :: (0, f)), levels)
    requires newLogNumber < next && ManifestNext(d.manifest) < next
    requires forall n :: n in d.logs && n >= d.logNumber ==> n < newLogNumber
    requires ManifestNext(d.manifest) <= newLogNumber
    requires forall f :: f in files ==> f.number < next
    ensures Recovered(d, OpenedDb(d, d.lsm.levels, files, levels, lastSeq, next, newLogNumber))
  {
    hide RecordsReadable, Inv, LogsOk, BatchOk, RecordsOk, DiskOk, SortedBySmallest, LastValue, AtLevel,
      SnapshotRecord, LogEntries, Concat, Table.Valid, RecoveredFiles, IsEdit, ManifestPointers;
    var d' := OpenedDb(d, d.lsm.levels, files, levels, lastSeq, next, newLogNumber);
    assert RecoveredState(d, d.lsm.levels, files, d');
  }

  /** Open: recovers, starts a new log and records everything in a new manifest.  The
      result is what the crash model calls a recovered database. */
  method Open(crc: Crc, rank: Rank, records: seq<Edit>, logFiles: map<nat, Bytes>, onDisk: set<nat>, full: set<Entry> -> bool, ghost d: Db)
    returns (status: Status, vs: VersionSet.VersionSet, newLogNumber: nat, ghost d': Db)
    requires DbInv(d) && DiskHolds(crc, rank, records, logFiles, onDisk, d)
    ensures status == Ok && fresh(vs) && vs.Valid()
    ensures Recovered(d, d')
    ensures vs.current == d'.lsm.levels && vs.lastSequence == d'.lsm.lastSeq && vs.nextFileNumber == d'.lsm.nextFile
    ensures vs.descriptorLog == Some(d'.manifest) && vs.logNumber == d'.logNumber && newLogNumber == d'.logfileNumber
  {
    hide DbInv, SortedBySmallest, EditAll, FreshAdds, LastValue, RecoverStatus, LogEntries, SeqAscending,
      ManifestPointers, ManifestFiles, RecoveredFiles, SnapshotRecord, AtLevel, IsEdit, VersionSet.AddsFreshNumbers,
      VersionSet.VersionSet.Valid, LastSeqOf, Max, Recovered, DiskHolds, RecoversTo;
    vs := new VersionSet.VersionSet();
    var edit;
    ghost var chunks, files;
    status, edit, chunks, files := Recover(vs, crc, rank, records, logFiles, onDisk, full, d);
    newLogNumber := vs.NewFileNumber();
    edit := edit.(prevLogNumber := Some(0), logNumber := Some(newLogNumber));
    ghost var lastSeq, next := vs.lastSequence, vs.nextFileNumber;
    OpenEdit(d, chunks, files, vs, edit);
    LevelZeroFiles(files);
    ghost var snapshot, logged := SnapshotRecord(vs.current, vs.compactPointer), vs.Completed(edit);
    var ok := vs.LogAndApply(edit, true);
    assert [snapshot] + [logged] == [snapshot, logged];
    assert vs.descriptorLog == Some([snapshot] + [logged]);
    OpenedIsRecovered(d, chunks, files, vs.current, lastSeq, next, newLogNumber);
    d' := OpenedDb(d, d.lsm.levels, files, vs.current, lastSeq, next, newLogNumber);
  }

  /** The batches a run appends are these operations, numbered from the next free number on;
      a step that appends nothing has none. */
  ghost predicate AppendsOps(rank: Rank, states: seq<Db>, steps: seq<DbStep>, batches: seq<seq<WriteBatches.Op>>) {
    && |batches| == |steps| < |states|
    && forall m :: 0 <= m < |steps| ==> OpsOfStep(rank, states[m], steps[m], batches[m])
  }

  ghost predicate OpsOfStep(rank: Rank, d: Db, step: DbStep, ops: seq<WriteBatches.Op>) {
    if step.Append? then step.batch == BatchEntries(rank, d.lsm.nextSeq + 1, ops) else ops == []
  }

  /** What was appended before a batch is older, and the batch lies just above it. */
  lemma BatchOnTop(rank: Rank, states: seq<Db>, steps: seq<DbStep>, n: nat, ops: seq<WriteBatches.Op>)
    requires DbRun(states, steps) && n < |steps| && steps[n].Append? && OpsOfStep(rank, states[n], steps[n], ops)
    ensures Distinct(Appended(steps, n)) && forall e :: e in Appended(steps, n) ==> e.key.seqno < states[n].lsm.nextSeq + 1
    ensures forall i :: 0 <= i < |ops| ==> steps[n].batch[i].key.seqno == states[n].lsm.nextSeq + 1 + i
  {
    hide DbRun, LevelsOk, ViewOk, NumbersOk, MemOrdered, RunningOk, LogsOk, ManifestOk, DiskOk, RecordsOk,
      SortedBySmallest, Appended, BatchEntries, Distinct;
    RunStarts(states, steps);
    EveryDbRunKeepsInv(states, steps, n);
    WrittenIsAppended(states, steps, n);
    RunStep(states, steps, n);
    assert states[n].batch == [] && SetOf(states[n].batch) == {};
    assert Appended(steps, n) == states[n].lsm.written;
  }

  /** Reading everything appended finds what the last operation on the key left. */
  lemma {:induction false} AppendedReads(rank: Rank, states: seq<Db>, steps: seq<DbStep>, batches: seq<seq<WriteBatches.Op>>, n: nat, k: Bytes, s: nat)
    requires Injective(rank) && DbRun(states, steps) && AppendsOps(rank, states, steps, batches) && n <= |steps|
    requires forall e :: e in Appended(steps, n) ==> e.key.seqno <= s
    ensures ReadsLast(rank, Appended(steps, n), batches, n, k, s)
  {
    hide DbRun, Read, ReadsLast, ReadsAfter, BatchReads.Adds, BatchEntries, OpsOfStep, Distinct;
    if n == 0 {
      NothingRead(rank, batches, k, s);
    } else {
      AppendedReads(rank, states, steps, batches, n - 1, k, s);
      assert OpsOfStep(rank, states[n - 1], steps[n - 1], batches[n - 1]);
      if steps[n - 1].Append? {
        AppendedBatch(rank, states, steps, batches[n - 1], n, k, s);
      } else {
        NoOps(rank, states[n - 1], steps[n - 1], batches[n - 1], Appended(steps, n - 1), k, s);
      }
      NextBatch(rank, Appended(steps, n - 1), Appended(steps, n), batches, n - 1, k, s);
    }
  }

  lemma NothingRead(rank: Rank, batches: seq<seq<WriteBatches.Op>>, k: Bytes, s: nat)
    ensures ReadsLast(rank, {}, batches, 0, k, s)
  {
    ReadAbsent({}, rank(k), s);
  }

  lemma NoOps(rank: Rank, d: Db, step: DbStep, ops: seq<WriteBatches.Op>, es: set<Entry>, k: Bytes, s: nat)
    requires !step.Append? && OpsOfStep(rank, d, step, ops)
    ensures ReadsAfter(rank, es, es + {}, ops, |ops|, k, s) && es + {} == es
  {
    hide Read;
    assert es + {} == es;
  }

  lemma AppendedBatch(rank: Rank, states: seq<Db>, steps: seq<DbStep>, ops: seq<WriteBatches.Op>, n: nat, k: Bytes, s: nat)
    requires Injective(rank) && DbRun(states, steps) && 0 < n <= |steps| < |states| && steps[n - 1].Append?
    requires OpsOfStep(rank, states[n - 1], steps[n - 1], ops)
    requires forall e :: e in Appended(steps, n) ==> e.key.seqno <= s
    ensures ReadsAfter(rank, Appended(steps, n - 1), Appended(steps, n), ops, |ops|, k, s)
  {
    hide DbRun, Read, ReadsAfter, Distinct, BatchEntries;
    var first := states[n - 1].lsm.nextSeq + 1;
    BatchOnTop(rank, states, steps, n - 1, ops);
    BatchRead(rank, Appended(steps, n - 1), first, ops, k, s);
    if ops != [] {
      assert steps[n - 1].batch[|ops| - 1] in Appended(steps, n);
    }
    assert SeenBy(first, |ops|, s) == |ops|;
  }

  /** A run that ends anywhere, even in the middle of appending a record, and the database
      opened from the bytes it leaves: reads of the tables recovered give what reading
      everything ever appended gives, and that is what the last operation appended on the
      key left. */
  method OpenAfterCrash(crc: Crc, rank: Rank, records: seq<Edit>, logFiles: map<nat, Bytes>, onDisk: set<nat>, full: set<Entry> -> bool,
                        ghost states: seq<Db>, ghost steps: seq<DbStep>, ghost n: nat, ghost batches: seq<seq<WriteBatches.Op>>)
    returns (status: Status, vs: VersionSet.VersionSet, newLogNumber: nat)
    requires DbRun(states, steps) && n < |states| && DiskHolds(crc, rank, records, logFiles, onDisk, states[n])
    ensures status == Ok && fresh(vs) && vs.Valid()
    ensures n <= |steps| && forall k, sn: nat :: sn >= vs.lastSequence ==> Read(TableEntries(vs.current), k, sn) == Read(Appended(steps, n), k, sn)
    ensures Injective(rank) && AppendsOps(rank, states, steps, batches) ==>
              forall k, sn: nat :: sn >= vs.lastSequence ==> ReadsLast(rank, TableEntries(vs.current), batches, n, k, sn)
  {
    hide DbRun, DbInv, DiskHolds, VersionSet.VersionSet.Valid, Recovered, Read, TableEntries, Appended, AppendsOps,
      ReadsLast;
    RunStarts(states, steps);
    EveryDbRunKeepsInv(states, steps, n);
    ghost var d';
    status, vs, newLogNumber, d' := Open(crc, rank, records, logFiles, onDisk, full, states[n]);
    OnlyTables(states[n], d');
    forall k, sn: nat | sn >= vs.lastSequence ensures Read(TableEntries(vs.current), k, sn) == Read(Appended(steps, n), k, sn) {
      CrashLosesNothing(states, steps, n, d', k, sn);
    }
    if Injective(rank) && AppendsOps(rank, states, steps, batches) {
      AppendedBounded(states, steps, n, d');
      forall k, sn: nat | sn >= vs.lastSequence ensures ReadsLast(rank, TableEntries(vs.current), batches, n, k, sn) {
        AppendedReads(rank, states, steps, batches, n, k, sn);
        SameReads(rank, Appended(steps, n), TableEntries(vs.current), batches, n, k, sn);
      }
    }
  }

  lemma SameReads(rank: Rank, a: set<Entry>, b: set<Entry>, batches: seq<seq<WriteBatches.Op>>, n: nat, k: Bytes, s: nat)
    requires ReadsLast(rank, a, batches, n, k, s) && Read(a, rank(k), s) == Read(b, rank(k), s)
    ensures ReadsLast(rank, b, batches, n, k, s)
  {
    hide Read;
  }

  lemma AppendedBounded(states: seq<Db>, steps: seq<DbStep>, n: nat, d': Db)
    requires DbRun(states, steps) && n < |states| && Recovered(states[n], d')
    ensures n <= |steps| && forall e :: e in Appended(steps, n) ==> e.key.seqno <= d'.lsm.lastSeq
  {
    hide DbRun, LevelsOk, ViewOk, NumbersOk, MemOrdered, RunningOk, LogsOk, ManifestOk, DiskOk, RecordsOk,
      SortedBySmallest, Appended, Recovered, Distinct;
    RunStarts(states, steps);
    EveryDbRunKeepsInv(states, steps, n);
    WrittenIsAppended(states, steps, n);
    RestartKeepsInv(states[n], d');
    StartsQuiet(states[n], d');
  }

  lemma StartsQuiet(d: Db, d': Db)
    requires Recovered(d, d')
    ensures d'.lsm.nextSeq == d'.lsm.lastSeq
  {
    hide RecoveredFiles, RecoversTo, IsEdit, SortedBySmallest, ManifestFiles;
  }

  /** A reopened database has empty memtables. */
  lemma OnlyTables(d: Db, d': Db)
    requires Recovered(d, d')
    ensures All(d'.lsm) == TableEntries(d'.lsm.levels)
  {
    hide TableEntries, RecoveredFiles, RecoversTo, IsEdit, SortedBySmallest, ManifestFiles;
    assert {} + {} + TableEntries(d'.lsm.levels) == TableEntries(d'.lsm.levels);
  }
}

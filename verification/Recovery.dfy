/** The engine with its files: write-ahead logs, table files and the manifest.

    A group's batch is appended to the current log before any of it enters the memtable;
    a flush, a compaction and a move each end with one manifest record.  A crash keeps the
    files and loses everything else.  Appends, table files and the switch to a new
    manifest are taken as atomic and durable; what a crash in the middle of an append to a
    log leaves is in LogBytes. */
module Recovery {
  import opened Options
  import opened DbFormat
  import opened Tables
  import opened CompactionDrop
  import opened Lsm
  import opened VersionBuilder
  import opened Manifest

  type Log = seq<seq<Entry>>

  datatype Db = Db(
    lsm: State,
    manifest: seq<Edit>,
    logs: map<nat, Log>,
    tables: set<Table>,
    pending: set<Table>,
    held: set<Levels>,
    logNumber: nat,
    logfileNumber: nat,
    batch: seq<Entry>)

  // ----- reading the manifest and the logs -----

  /** The entries of the logs numbered lo, ..., hi - 1, in order. */
  function LogEntries(logs: map<nat, Log>, lo: nat, hi: nat): seq<Entry> {
    if lo >= hi then [] else LogEntries(logs, lo, hi - 1) + if hi - 1 in logs then Concat(logs[hi - 1]) else []
  }

  ghost predicate SeqAscending(es: seq<Entry>) {
    forall i, j :: 0 <= i < j < |es| ==> es[i].key.seqno < es[j].key.seqno
  }

  // ----- invariant -----

  ghost predicate LogsOk(d: Db) {
    && d.logNumber <= d.logfileNumber < d.lsm.nextFile
    && d.logfileNumber in d.logs
    && (forall n :: n in d.logs ==> n <= d.logfileNumber)
    && SetOf(LogEntries(d.logs, d.logNumber, d.logfileNumber)) == ImmOf(d.lsm)
    && SetOf(Concat(d.logs[d.logfileNumber])) == d.lsm.mem + SetOf(d.batch)
    && SeqAscending(LogEntries(d.logs, d.logNumber, d.logfileNumber + 1))
  }

  ghost predicate BatchOk(d: Db) {
    && d.lsm.nextSeq + |d.batch| < MAX_SEQUENCE
    && (forall i :: 0 <= i < |d.batch| ==> d.batch[i].key.seqno == d.lsm.nextSeq + 1 + i)
  }

  /** The records add each file number to a level at most once; a live file has never been
      recorded below its level, and the numbers of a running compaction nowhere. */
  ghost predicate RecordsOk(d: Db) {
    && (forall l :: 0 <= l < NUM_LEVELS ==> FreshAdds({}, d.manifest, l))
    && (forall l, u :: 0 <= l < NUM_LEVELS && u in AddedBy(d.manifest, l) ==> u.number < d.lsm.nextFile)
    && (forall l, t, m, u :: 0 <= l < m < NUM_LEVELS && t in d.lsm.levels[l] && u in AddedBy(d.manifest, m) ==> t.number != u.number)
    && (d.lsm.running.Some? ==> forall l, u :: 0 <= l < NUM_LEVELS && u in AddedBy(d.manifest, l) ==> u.number !in d.lsm.running.value.numbers)
  }

  ghost predicate ManifestOk(d: Db) {
    && ManifestFiles(d.manifest, d.lsm.levels)
    && ManifestLog(d.manifest) == d.logNumber
    && d.logNumber < ManifestNext(d.manifest) <= d.lsm.nextFile
    && (forall l, t :: 0 <= l < NUM_LEVELS && t in d.lsm.levels[l] ==> t.number < ManifestNext(d.manifest))
    && ManifestSeq(d.manifest) <= d.lsm.lastSeq
    && (forall e :: e in ImmOf(d.lsm) ==> e.key.seqno <= d.lsm.lastSeq)
    && (forall e :: e in d.lsm.written ==> e.key.seqno <= ManifestSeq(d.manifest) || e in d.lsm.mem + ImmOf(d.lsm))
  }

  /** Every table of the current version, of a version a reader holds and of a pending
      output is on disk, and a number names one file. */
  ghost predicate DiskOk(d: Db) {
    && (forall l, t :: 0 <= l < NUM_LEVELS && t in d.lsm.levels[l] ==> t in d.tables)
    && (forall v: Levels, l, t :: v in d.held && 0 <= l < NUM_LEVELS && t in v[l] ==> t in d.tables)
    && d.pending <= d.tables
    && (forall t, u :: t in d.tables && u in d.tables && t.number == u.number ==> t == u)
  }

  ghost predicate DbInv(d: Db) {
    && Inv(d.lsm)
    && (forall l :: 0 <= l < NUM_LEVELS ==> SortedBySmallest(d.lsm.levels[l]))
    && LogsOk(d) && BatchOk(d) && RecordsOk(d) && ManifestOk(d) && DiskOk(d)
    && RecordsReadable(d.manifest)
  }

  // ----- steps -----

  datatype DbStep =
    | Append(batch: seq<Entry>)
    | Engine(step: Step)
    | SwitchLog
    | WriteFile(t: Table)
    | Install(step: Step)
    | Hold
    | Unhold(v: Levels)
    | DeleteObsolete
    | Restart(d': Db)

  /** The manifest record of an installing step. */
  ghost function RecordOf(d: Db, step: Step): Edit
    requires step.Flush? || step.Finish? || step.Move?
    requires step.Finish? ==> d.lsm.running.Some?
    requires step.Move? ==> step.r.inputs0 != []
  {
    var base := EMPTY_EDIT.(
      logNumber := Some(if step.Flush? then d.logfileNumber else d.logNumber),
      prevLogNumber := Some(0),
      nextFileNumber := Some(if step.Flush? then d.lsm.nextFile + 1 else d.lsm.nextFile),
      lastSequence := Some(d.lsm.lastSeq));
    match step
    case Flush(output, level, _, _) => if output.Some? then base.(newFiles := [(level, output.value)]) else base
    case Finish(outputs, _) =>
      var r := d.lsm.running.value;
      base.(deletedFiles := InputDeletions(r), newFiles := AtLevel(r.level + 1, outputs))
    case Move(r, _) => base.(deletedFiles := {(r.level, r.inputs0[0].number)}, newFiles := [(r.level + 1, r.inputs0[0])])
  }

  ghost function NewFilesOf(step: Step): set<Table> {
    match step
    case Flush(output, _, _, _) => if output.Some? then {output.value} else {}
    case Finish(outputs, _) => SetOfFiles(outputs)
    case _ => {}
  }

  ghost function LiveNumbers(d: Db): set<nat> {
    (set l, t | 0 <= l < NUM_LEVELS && t in d.lsm.levels[l] :: t.number)
    + (set v: Levels, l: nat, t: Table | v in d.held && 0 <= l < NUM_LEVELS && t in v[l] :: t.number)
    + (set t | t in d.pending :: t.number)
  }

  ghost predicate DbEnabled(d: Db, step: DbStep) {
    match step
    case Append(batch) =>
      && d.batch == [] && d.lsm.nextSeq == d.lsm.lastSeq
      && d.lsm.nextSeq + |batch| < MAX_SEQUENCE
      && forall i :: 0 <= i < |batch| ==> batch[i].key.seqno == d.lsm.nextSeq + 1 + i
    case Engine(s) =>
      && Enabled(d.lsm, s)
      && (match s
          case Insert(e) => d.batch != [] && e == d.batch[0]
          case Skip(_) => d.batch == []
          case Publish => d.batch == []
          case Begin(_) => true
          case Allocate => true
          case Abandon => true
          case Acquire => true
          case Release(_) => true
          case _ => false)
    case SwitchLog => Enabled(d.lsm, Switch) && d.batch == []
    case WriteFile(t) => t.number !in LiveNumbers(d)
    case Install(s) =>
      && (s.Flush? || s.Finish? || s.Move?)
      && Enabled(d.lsm, s)
      && NewFilesOf(s) <= d.pending
    case Hold => true
    case Unhold(v) => v in d.held
    case DeleteObsolete => true
    case Restart(d') => Recovered(d, d')
  }

  ghost function DbApply(d: Db, step: DbStep): Db
    requires DbEnabled(d, step) && d.logfileNumber in d.logs
  {
    match step
    case Append(batch) => d.(batch := batch, logs := d.logs[d.logfileNumber := d.logs[d.logfileNumber] + [batch]])
    case Engine(s) =>
      d.(lsm := Apply(d.lsm, s),
         batch := if s.Insert? then d.batch[1..] else d.batch,
         pending := if s.Abandon? then {} else d.pending)
    case SwitchLog => d.(lsm := Apply(d.lsm, Switch), logs := d.logs[d.lsm.nextFile := []], logfileNumber := d.lsm.nextFile)
    case WriteFile(t) => d.(tables := (set u | u in d.tables && u.number != t.number) + {t}, pending := d.pending + {t})
    case Install(s) =>
      d.(lsm := Apply(d.lsm, s),
         manifest := d.manifest + [RecordOf(d, s)],
         logNumber := if s.Flush? then d.logfileNumber else d.logNumber,
         pending := d.pending - NewFilesOf(s))
    case Hold => d.(held := d.held + {d.lsm.levels})
    case Unhold(v) => d.(held := d.held - {v})
    case DeleteObsolete =>
      d.(tables := (set t | t in d.tables && t.number in LiveNumbers(d)),
         logs := (map n | n in d.logs && n >= d.logNumber :: d.logs[n]))
    case Restart(d') => d'
  }

  // ----- recovery -----

  /** The level-0 files recovery writes: consecutive stretches of the logged entries, in
      order, under new numbers. */
  ghost predicate RecoveredFiles(d: Db, chunks: seq<seq<Entry>>, files: Files) {
    && Concat(chunks) == LogEntries(d.logs, d.logNumber, d.logfileNumber + 1)
    && |files| == |chunks|
    && (forall i :: 0 <= i < |files| ==> files[i].Valid() && files[i].entries == SetOf(chunks[i]) && ManifestNext(d.manifest) < files[i].number)
    && (forall i, j :: 0 <= i < j < |files| ==> files[i].number < files[j].number)
  }

  ghost function Max(a: nat, b: nat): nat {
    if a < b then b else a
  }

  ghost function LastSeqOf(es: seq<Entry>): nat {
    if es == [] then 0 else es[|es| - 1].key.seqno
  }

  /** What opening the database after a crash of d gives: the manifest's version with the
      logged entries added as level-0 files, recorded in a new manifest that starts with
      a snapshot of the version, and a new empty log. */
  ghost predicate Recovered(d: Db, d': Db) {
    exists v: Levels, chunks, files: Files ::
      && ManifestFiles(d.manifest, v)
      && (forall l :: 0 <= l < NUM_LEVELS ==> SortedBySmallest(v[l]))
      && RecoveredFiles(d, chunks, files)
      && RecoveredState(d, v, files, d')
  }

  /** The last sequence number a recovery may come to: no less than those of the manifest
      and of the logged entries, no more than were ever used up.  An empty batch in a log
      makes the difference. */
  ghost predicate RecoversTo(d: Db, lastSeq: nat) {
    && ManifestSeq(d.manifest) <= lastSeq && LastSeqOf(LogEntries(d.logs, d.logNumber, d.logfileNumber + 1)) <= lastSeq
    && lastSeq <= d.lsm.nextSeq + |d.batch|
  }

  ghost predicate RecoveredState(d: Db, v: Levels, files: Files, d': Db) {
    var lastSeq := d'.lsm.lastSeq;
    && RecoversTo(d, lastSeq)
    && IsEdit(v, {}, (set f | f in files :: (0, f)), d'.lsm.levels)
    && d'.lsm == State({}, None, d'.lsm.levels, lastSeq, lastSeq, d'.lsm.nextFile, multiset{}, None, d.lsm.written + SetOf(d.batch))
    && d'.logfileNumber < d'.lsm.nextFile
    && (forall n :: n in d.logs ==> n < d'.logfileNumber)
    && (forall f :: f in files ==> f.number < d'.lsm.nextFile)
    && (forall l, t :: 0 <= l < NUM_LEVELS && t in v[l] ==> t.number < d'.lsm.nextFile)
    && d'.manifest == [SnapshotRecord(v, ManifestPointers(d.manifest)), EMPTY_EDIT.(
         logNumber := Some(d'.logfileNumber), prevLogNumber := Some(0), nextFileNumber := Some(d'.lsm.nextFile),
         lastSequence := Some(lastSeq), newFiles := AtLevel(0, files))]
    && d'.logs == d.logs[d'.logfileNumber := []]
    && d'.tables == (set u | u in d.tables && u.number !in NumbersOf(files)) + SetOfFiles(files)
    && d'.pending == {} && d'.held == {} && d'.batch == [] && d'.logNumber == d'.logfileNumber
  }
}

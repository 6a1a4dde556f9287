/** Runs of the database with any number of crashes. */
module RecoveryRuns {
  import opened Options
  import opened DbFormat
  import opened Tables
  import opened VersionSearch
  import opened CompactionDrop
  import opened Lsm
  import opened LsmRuns
  import opened VersionBuilder
  import opened Manifest
  import opened Recovery
  import opened RecoveryProof
  import opened RecoveryRestart

  /** A new database, just opened: log 3 is empty and the manifest lists no files. */
  ghost function DbInit(): Db {
    var s := Init().(nextFile := 4);
    var e := EMPTY_EDIT.(logNumber := Some(3), prevLogNumber := Some(0), nextFileNumber := Some(4), lastSequence := Some(0), newFiles := AtLevel(0, []));
    Db(s, [SnapshotRecord(s.levels, map[]), e], map[3 := []], {}, {}, {}, 3, 3, [])
  }

  lemma DbInitInv()
    ensures DbInv(DbInit())
  {
    hide Read, SnapshotRecord, AddedBy, FreshAdds, EditAll, Inv, RecordsReadable, LogEntries, LastValue, LogsOk;
    var d := DbInit();
    var v, e := d.lsm.levels, d.manifest[1];
    assert forall l :: 0 <= l < NUM_LEVELS ==> v[l] == [];
    forall l | 0 <= l < NUM_LEVELS
      ensures SetOfFiles(v[l]) == EditAll({}, d.manifest, l) && AddedBy(d.manifest, l) == {} && FreshAdds({}, d.manifest, l)
    {
      RestartLevelRecords(v, map[], e, [], l);
      RestartLevelFresh(v, map[], e, [], l);
    }
    assert d.manifest == [d.manifest[0]] + [e];
    AppendRecord([d.manifest[0]], e, 0);
    SnapshotReadable(v, map[], e);
    DbInitLogs();
    InitDbLsm();
  }

  lemma DbInitLogs()
    ensures LogsOk(DbInit())
  {
    hide SnapshotRecord;
    var d := DbInit();
    assert LogEntries(d.logs, 3, 3) == [];
    assert LogEntries(d.logs, 3, 4) == [] + Concat([]);
  }

  lemma InitDbLsm()
    ensures Inv(DbInit().lsm)
  {
    hide Read, LevelsOk;
    InitInv();
    assert All(DbInit().lsm) == All(Init());
  }

  lemma DbStepKeepsInv(d: Db, step: DbStep)
    requires DbInv(d) && DbEnabled(d, step)
    ensures d.logfileNumber in d.logs && DbInv(DbApply(d, step))
  {
    hide Inv, DbInv, DbEnabled;
    assert d.logfileNumber in d.logs by {
      LogsHaveCurrent(d);
    }
    match step {
      case Append(batch) => AppendKeepsInv(d, batch);
      case Engine(s) => EngineKeepsInv(d, s);
      case SwitchLog => SwitchLogKeepsInv(d);
      case WriteFile(t) => WriteFileKeepsInv(d, t);
      case Install(s) => InstallKeepsInv(d, s);
      case Hold => HoldKeepsInv(d, step);
      case Unhold(_) => HoldKeepsInv(d, step);
      case DeleteObsolete => DeleteObsoleteKeepsInv(d);
      case Restart(d') =>
        assert Recovered(d, d') by { EnabledRestart(d, d'); }
        RestartKeepsInv(d, d');
    }
  }

  lemma EnabledRestart(d: Db, d': Db)
    requires DbEnabled(d, Restart(d'))
    ensures Recovered(d, d')
  {
  }

  /** A run: states and the steps between them, crashes included, from a new database. */
  ghost predicate DbRun(states: seq<Db>, steps: seq<DbStep>) {
    && |states| == |steps| + 1
    && states[0] == DbInit()
    && forall i :: 0 <= i < |steps| ==>
         DbEnabled(states[i], steps[i]) && states[i].logfileNumber in states[i].logs && states[i + 1] == DbApply(states[i], steps[i])
  }

  /** Everything the first n steps appended to a log. */
  ghost function Appended(steps: seq<DbStep>, n: nat): set<Entry>
    requires n <= |steps|
  {
    if n == 0 then {}
    else Appended(steps, n - 1) + if steps[n - 1].Append? then SetOf(steps[n - 1].batch) else {}
  }

  lemma {:induction false} EveryDbRunKeepsInv(states: seq<Db>, steps: seq<DbStep>, n: nat)
    requires DbRun(states, steps) && n < |states|
    ensures DbInv(states[n])
  {
    hide DbInv, DbEnabled, DbApply, DbInit;
    if n == 0 {
      DbInitInv();
    } else {
      EveryDbRunKeepsInv(states, steps, n - 1);
      assert DbEnabled(states[n - 1], steps[n - 1]);
      DbStepKeepsInv(states[n - 1], steps[n - 1]);
    }
  }

  lemma StepConserves(d: Db, step: DbStep)
    requires DbInv(d) && DbEnabled(d, step) && d.logfileNumber in d.logs
    ensures
      var d' := DbApply(d, step);
      d'.lsm.written + SetOf(d'.batch) == d.lsm.written + SetOf(d.batch) + if step.Append? then SetOf(step.batch) else {}
  {
    hide Inv, LogsOk, ManifestOk, DiskOk, RecordsOk, IsEdit, OutputsOk, CanStart, PlacedAt, IsSmallestSnapshot,
      RecordOf, NewFilesOf, Recovered;
    match step {
      case Engine(s) =>
        if s.Insert? {
          assert d.batch == [d.batch[0]] + d.batch[1..];
        }
      case Restart(d') => RestartKeepsInv(d, d');
      case _ =>
    }
  }

  lemma NothingWritten()
    ensures DbInit().lsm.written + SetOf(DbInit().batch) == {}
  {
    hide SnapshotRecord;
  }

  /** No step, and no crash, loses or invents an appended entry. */
  lemma {:induction false} WrittenIsAppended(states: seq<Db>, steps: seq<DbStep>, n: nat)
    requires DbRun(states, steps) && n < |states|
    ensures states[n].lsm.written + SetOf(states[n].batch) == Appended(steps, n)
  {
    hide DbInv, DbEnabled, DbApply, DbRun, DbInit, SetOf;
    RunStarts(states, steps);
    if n == 0 {
      NothingWritten();
    } else {
      WrittenIsAppended(states, steps, n - 1);
      EveryDbRunKeepsInv(states, steps, n - 1);
      RunStep(states, steps, n - 1);
      StepConserves(states[n - 1], steps[n - 1]);
    }
  }

  lemma RunStarts(states: seq<Db>, steps: seq<DbStep>)
    requires DbRun(states, steps)
    ensures |states| == |steps| + 1 && states[0] == DbInit()
  {
  }

  lemma RunStep(states: seq<Db>, steps: seq<DbStep>, i: nat)
    requires DbRun(states, steps) && i < |steps|
    ensures |states| == |steps| + 1
    ensures DbEnabled(states[i], steps[i]) && states[i].logfileNumber in states[i].logs && states[i + 1] == DbApply(states[i], steps[i])
  {
  }

  /** Crash recovery, for every run and every point of it: a reader of the reopened
      database gets what reading everything ever appended gives, compaction drops and
      all. */
  lemma CrashLosesNothing(states: seq<Db>, steps: seq<DbStep>, n: nat, d': Db, k: UserKey, sn: nat)
    requires DbRun(states, steps) && n < |states| && Recovered(states[n], d') && sn >= d'.lsm.lastSeq
    ensures Read(All(d'.lsm), k, sn) == Read(Appended(steps, n), k, sn)
  {
    hide DbRun, LevelsOk, SequencesOk, NumbersOk, MemOrdered, RunningOk, LogsOk, ManifestOk, DiskOk, RecordsOk,
      BatchOk, Read, All, Recovered, SortedBySmallest;
    assert |states| == |steps| + 1 by { RunStarts(states, steps); }
    EveryDbRunKeepsInv(states, steps, n);
    WrittenIsAppended(states, steps, n);
    RestartKeepsInv(states[n], d');
    assert d'.lsm.written == Appended(steps, n);
    assert Live(d'.lsm, sn);
  }
}

/** The version set: the current version, the counters, and the manifest they are logged
    to.  Every edit is logged before it is installed, so the records always rebuild the
    state. */
module VersionSet {
  import opened Options
  import opened DbFormat
  import opened Tables
  import opened Lsm
  import opened VersionBuilder
  import opened Manifest

  function EmptyVersion(): Levels {
    seq(NUM_LEVELS, i => [])
  }

  /** The records never add a file number to a level twice. */
  ghost predicate RecordsFresh(records: seq<Edit>) {
    && (forall l :: 0 <= l < NUM_LEVELS ==> FreshAdds({}, records, l))
    && (forall e :: e in records ==> e.LevelsInRange())
  }

  /** ... and the file counter they end with is above the number of every file left. */
  ghost predicate RecordsSound(records: seq<Edit>) {
    && RecordsFresh(records)
    && (forall l, t :: 0 <= l < NUM_LEVELS && t in EditAll({}, records, l) ==> t.number < ManifestNext(records))
  }

  /** The records rebuild this version and these log numbers. */
  ghost predicate Describes(records: seq<Edit>, v: Levels, logNumber: nat, prevLogNumber: nat) {
    && RecoverStatus(records) == Ok
    && RecordsSound(records)
    && ManifestFiles(records, v)
    && LastValue(records, LogNumber) == Some(logNumber)
    && LastValue(records, PrevLogNumber) == Some(prevLogNumber)
  }

  lemma {:induction false} FreshAddsUnique(records: seq<Edit>, l: nat)
    requires FreshAdds({}, records, l)
    ensures forall t, u :: t in AddedBy(records, l) && u in AddedBy(records, l) && t.number == u.number ==> t == u
    ensures EditAll({}, records, l) <= AddedBy(records, l)
  {
    if records != [] {
      var before, e := records[..|records| - 1], records[|records| - 1];
      FreshAddsUnique(before, l);
      assert before + [e] == records;
      AppendRecord(before, e, l);
    }
  }

  /** Sorted files of a level whose records are fresh have different numbers. */
  lemma DescribedNumbers(records: seq<Edit>, files: Files, l: nat)
    requires FreshAdds({}, records, l) && SetOfFiles(files) == EditAll({}, records, l) && SortedBySmallest(files)
    ensures NoSharedNumber(files)
  {
    FreshAddsUnique(records, l);
    forall i, j | 0 <= i < j < |files| ensures files[i].number != files[j].number {
      assert files[i] in SetOfFiles(files) && files[j] in SetOfFiles(files);
      assert BySmallestKey(files[i], files[j]);
    }
  }

  lemma {:induction false} PointersSplit(pointers: Pointers, cps: seq<(nat, InternalKey)>)
    ensures PointersAfter(pointers, cps) == pointers + PointersAfter(map[], cps)
  {
    if cps != [] {
      PointersSplit(pointers, cps[..|cps| - 1]);
    }
  }

  /** Replaying the same pointers again changes nothing. */
  lemma PointersTwice(pointers: Pointers, cps: seq<(nat, InternalKey)>)
    ensures PointersAfter(PointersAfter(pointers, cps), cps) == PointersAfter(pointers, cps)
  {
    PointersSplit(pointers, cps);
    PointersSplit(PointersAfter(pointers, cps), cps);
  }

  lemma StatusAfter(records: seq<Edit>, e: Edit)
    requires e.comparator.Some? ==> e.comparator.value == COMPARATOR
    requires forall x :: x in records && x.comparator.Some? ==> x.comparator.value == COMPARATOR
    requires Complete(e)
    ensures RecoverStatus(records + [e]) == Ok
    ensures forall f :: LastValue(records + [e], f) == FieldOf(e, f)
  {
    hide LastValue;
    AppendRecord(records, e, 0);
  }

  /** The listed files are new to their levels: no level ever had their numbers. */
  ghost predicate AddsFreshNumbers(records: seq<Edit>, newFiles: seq<(nat, Table)>) {
    forall l :: 0 <= l < NUM_LEVELS ==>
      && (forall t, u :: t in NewAt(newFiles, l) && u in AddedBy(records, l) ==> t.number != u.number)
      && NoSharedNumber(NewAt(newFiles, l))
  }

  lemma RecordsAllApply(records: seq<Edit>, i: nat, l: nat)
    requires i < |records|
    ensures
      && DeletedAfter(records[..i + 1], l)
           == (DeletedAfter(records[..i], l) + DeletedAt(records[i], l)) - NumbersOf(NewAt(records[i].newFiles, l))
      && AddedAfter(records[..i + 1], l) == InsertAll(AddedAfter(records[..i], l), NewAt(records[i].newFiles, l))
      && ManifestPointers(records[..i + 1]) == PointersAfter(ManifestPointers(records[..i]), records[i].compactPointers)
      && forall f :: LastValue(records[..i + 1], f)
           == if FieldOf(records[i], f).Some? then FieldOf(records[i], f) else LastValue(records[..i], f)
  {
    assert records[..i + 1][..i] == records[..i];
  }

  /** A logged edit: the longer manifest describes the edited version. */
  lemma LoggedEdit(records: seq<Edit>, v: Levels, e: Edit, v': Levels)
    requires RecordsFresh(records) && ManifestFiles(records, v) && AddsFreshNumbers(records, e.newFiles) && e.LevelsInRange()
    requires e.nextFileNumber.Some? && forall l, t :: 0 <= l < NUM_LEVELS && t in v'[l] ==> t.number < e.nextFileNumber.value
    requires IsEdit(v, e.deletedFiles, (set f | f in e.newFiles), v')
    ensures RecordsSound(records + [e]) && ManifestFiles(records + [e], v')
    ensures forall l :: 0 <= l < NUM_LEVELS ==> SortedBySmallest(v'[l]) && NoSharedNumber(v'[l])
  {
    hide SortedBySmallest, FreshAdds, EditAll, EditFiles, AddedBy, LastValue;
    forall l | 0 <= l < NUM_LEVELS
      ensures SetOfFiles(v'[l]) == EditAll({}, records + [e], l) && FreshAdds({}, records + [e], l)
      ensures NoSharedNumber(v'[l]) && SortedBySmallest(v'[l])
    {
      AppendRecord(records, e, l);
      EditMatches(v, e, v', l);
      AppendFresh(records, e, l);
      DescribedNumbers(records + [e], v'[l], l);
    }
    AppendRecord(records, e, 0);
    assert forall l, t :: 0 <= l < NUM_LEVELS && t in SetOfFiles(v'[l]) ==> t.number < e.nextFileNumber.value;
  }

  /** What the builder needs of an edit: its numbers are not among the current files. */
  lemma FreshForVersion(records: seq<Edit>, v: Levels, e: Edit, l: nat)
    requires RecordsFresh(records) && ManifestFiles(records, v) && AddsFreshNumbers(records, e.newFiles) && l < NUM_LEVELS
    ensures FreshAdds(SetOfFiles(v[l]), [e], l)
  {
    FreshAddsUnique(records, l);
    assert [e][..0] == [];
  }

  lemma SnapshotSound(v: Levels, pointers: Pointers)
    requires forall l :: 0 <= l < NUM_LEVELS ==> NoSharedNumber(v[l])
    ensures ManifestFiles([SnapshotRecord(v, pointers)], v) && RecordsFresh([SnapshotRecord(v, pointers)])
    ensures SnapshotRecord(v, pointers).comparator == Some(COMPARATOR)
    ensures forall l :: 0 <= l < NUM_LEVELS ==> AddedBy([SnapshotRecord(v, pointers)], l) == SetOfFiles(v[l])
    ensures (forall l :: l in pointers ==> l < NUM_LEVELS) ==> ManifestPointers([SnapshotRecord(v, pointers)]) == pointers
  {
    hide FilesFrom, FreshAdds, EditAll, AddedBy, PointerList, ManifestPointers;
    ListsInRange(v, pointers, NUM_LEVELS);
    forall l | 0 <= l < NUM_LEVELS
      ensures SetOfFiles(v[l]) == EditAll({}, [SnapshotRecord(v, pointers)], l) && FreshAdds({}, [SnapshotRecord(v, pointers)], l)
      ensures AddedBy([SnapshotRecord(v, pointers)], l) == SetOfFiles(v[l])
    {
      SnapshotDescribes(v, pointers, l);
    }
    SnapshotDescribes(v, pointers, 0);
  }

  lemma EditedNumbers(v: Levels, e: Edit, v': Levels, n: nat)
    requires IsEdit(v, e.deletedFiles, (set f | f in e.newFiles), v')
    requires forall l, t :: 0 <= l < NUM_LEVELS && t in v[l] ==> t.number < n
    requires forall f :: f in e.newFiles ==> f.1.number < n
    ensures forall l, t :: 0 <= l < NUM_LEVELS && t in v'[l] ==> t.number < n
  {
    hide SortedBySmallest;
  }

  lemma {:induction false} PointersInRange(pointers: Pointers, cps: seq<(nat, InternalKey)>)
    requires (forall l :: l in pointers ==> l < NUM_LEVELS) && forall p :: p in cps ==> p.0 < NUM_LEVELS
    ensures forall l :: l in PointersAfter(pointers, cps) ==> l < NUM_LEVELS
  {
    if cps != [] {
      PointersInRange(pointers, cps[..|cps| - 1]);
    }
  }

  lemma {:induction false} ManifestPointersInRange(records: seq<Edit>)
    requires forall e :: e in records ==> e.LevelsInRange()
    ensures forall l :: l in ManifestPointers(records) ==> l < NUM_LEVELS
  {
    if records != [] {
      var e := records[|records| - 1];
      ManifestPointersInRange(records[..|records| - 1]);
      assert e in records;
      PointersInRange(ManifestPointers(records[..|records| - 1]), e.compactPointers);
    }
  }

  /** All a logged edit leaves in the manifest. */
  lemma LoggedState(records: seq<Edit>, v: Levels, e: Edit, v': Levels)
    requires RecordsFresh(records) && ManifestFiles(records, v) && AddsFreshNumbers(records, e.newFiles) && e.LevelsInRange()
    requires Complete(e) && e.comparator.None?
    requires forall x :: x in records && x.comparator.Some? ==> x.comparator.value == COMPARATOR
    requires forall l, t :: 0 <= l < NUM_LEVELS && t in v[l] ==> t.number < e.nextFileNumber.value
    requires forall f :: f in e.newFiles ==> f.1.number < e.nextFileNumber.value
    requires IsEdit(v, e.deletedFiles, (set f | f in e.newFiles), v')
    ensures Describes(records + [e], v', e.logNumber.value, e.prevLogNumber.value)
    ensures ManifestNext(records + [e]) == e.nextFileNumber.value && ManifestSeq(records + [e]) == e.lastSequence.value
    ensures ManifestPointers(records + [e]) == PointersAfter(ManifestPointers(records), e.compactPointers)
    ensures forall l :: 0 <= l < NUM_LEVELS ==> SortedBySmallest(v'[l]) && NoSharedNumber(v'[l])
    ensures forall l, t :: 0 <= l < NUM_LEVELS && t in v'[l] ==> t.number < e.nextFileNumber.value
  {
    hide FreshAdds, EditAll, AddedBy, IsEdit, SnapshotRecord, RecoverStatus, AddsFreshNumbers, LastValue,
      PointersAfter, ManifestPointers, SortedBySmallest, NoSharedNumber;
    EditedNumbers(v, e, v', e.nextFileNumber.value);
    LoggedEdit(records, v, e, v');
    StatusAfter(records, e);
    AppendRecord(records, e, 0);
  }

  lemma SoundIsFresh(records: seq<Edit>)
    requires RecordsSound(records)
    ensures RecordsFresh(records)
  {
  }

  ghost predicate Collected(b: Builder, records: seq<Edit>)
    requires b.Valid()
    reads b, b.deletedFiles, b.addedFiles
  {
    forall l :: 0 <= l < NUM_LEVELS ==> b.deletedFiles[l] == DeletedAfter(records, l) && b.addedFiles[l] == AddedAfter(records, l)
  }

  lemma NothingCollected()
    ensures forall l :: DeletedAfter([], l) == {} && AddedAfter([], l) == []
    ensures ManifestPointers([]) == map[] && forall f :: LastValue([], f) == None
  {
  }

  lemma SavedVersion(records: seq<Edit>, v: Levels)
    requires RecordsFresh(records)
    requires forall l :: 0 <= l < NUM_LEVELS ==> v[l] == NotDeleted(Merge([], AddedAfter(records, l)), DeletedAfter(records, l))
    ensures ManifestFiles(records, v) && forall l :: 0 <= l < NUM_LEVELS ==> SortedBySmallest(v[l])
  {
    hide SortedBySmallest, FreshAdds, EditAll, AddedAfter, DeletedAfter;
    forall l | 0 <= l < NUM_LEVELS ensures SetOfFiles(v[l]) == EditAll({}, records, l) && SortedBySmallest(v[l]) {
      assert SortedBySmallest([]) by { NothingSorted(); }
      assert SetOfFiles([]) == {};
      SavedLevel([], records, l);
    }
  }

  lemma NothingSorted()
    ensures SortedBySmallest([])
  {
  }

  /** The records a logged edit leaves: what recovering computes from them is the edited
      version and the counters the edit was logged with. */
  lemma RecoverRebuilds(records: seq<Edit>, v: Levels, e: Edit, v': Levels)
    requires RecordsFresh(records) && ManifestFiles(records, v) && AddsFreshNumbers(records, e.newFiles) && e.LevelsInRange()
    requires Complete(e) && e.comparator.None?
    requires forall x :: x in records && x.comparator.Some? ==> x.comparator.value == COMPARATOR
    requires forall l, t :: 0 <= l < NUM_LEVELS && t in v[l] ==> t.number < e.nextFileNumber.value
    requires forall f :: f in e.newFiles ==> f.1.number < e.nextFileNumber.value
    requires IsEdit(v, e.deletedFiles, (set f | f in e.newFiles), v')
    ensures RecoverStatus(records + [e]) == Ok
    ensures forall l :: 0 <= l < NUM_LEVELS ==> Saved([], records + [e], l) == v'[l]
    ensures ManifestLog(records + [e]) == e.logNumber.value
    ensures ValueOr0(LastValue(records + [e], PrevLogNumber)) == e.prevLogNumber.value
    ensures ManifestSeq(records + [e]) == e.lastSequence.value && ManifestNext(records + [e]) == e.nextFileNumber.value
    ensures ManifestPointers(records + [e]) == PointersAfter(ManifestPointers(records), e.compactPointers)
  {
    hide SortedBySmallest, EditAll, LastValue, FreshAdds, RecoverStatus, IsEdit, AddsFreshNumbers, NoSharedNumber,
      ManifestPointers, PointersAfter, Merge, NotDeleted, AddedAfter, DeletedAfter;
    LoggedState(records, v, e, v');
    var w: Levels := seq(NUM_LEVELS, l requires 0 <= l < NUM_LEVELS => Saved([], records + [e], l));
    SavedVersion(records + [e], w);
    ManifestFilesUnique(records + [e], v', w);
  }

  class VersionSet {
    var nextFileNumber: nat
    var manifestFileNumber: nat
    var lastSequence: nat
    var logNumber: nat
    var prevLogNumber: nat
    var current: Levels
    var compactPointer: Pointers
    var descriptorLog: Option<seq<Edit>>

    ghost predicate Valid()
      reads this
    {
      && (forall l :: 0 <= l < NUM_LEVELS ==> SortedBySmallest(current[l]) && NoSharedNumber(current[l]))
      && (forall l, t :: 0 <= l < NUM_LEVELS && t in current[l] ==> t.number < nextFileNumber)
      && (forall l :: l in compactPointer ==> l < NUM_LEVELS)
      && (descriptorLog.Some? ==>
            && Describes(descriptorLog.value, current, logNumber, prevLogNumber)
            && ManifestNext(descriptorLog.value) <= nextFileNumber
            && ManifestSeq(descriptorLog.value) <= lastSequence)
    }

    constructor ()
      ensures Valid() && current == EmptyVersion() && descriptorLog.None? && compactPointer == map[]
      ensures nextFileNumber == 2 && manifestFileNumber == 0 && lastSequence == 0 && logNumber == 0 && prevLogNumber == 0
    {
      nextFileNumber, manifestFileNumber, lastSequence, logNumber, prevLogNumber := 2, 0, 0, 0, 0;
      current, compactPointer, descriptorLog := EmptyVersion(), map[], None;
    }

    method NewFileNumber() returns (n: nat)
      requires Valid()
      modifies this`nextFileNumber
      ensures Valid() && n == old(nextFileNumber) && nextFileNumber == n + 1
      ensures forall l, t :: 0 <= l < NUM_LEVELS && t in current[l] ==> t.number < n
    {
      hide Describes, SortedBySmallest;
      n := nextFileNumber;
      nextFileNumber := nextFileNumber + 1;
    }

    /** Is the number in a file of the version, or counted as used by the manifest? */
    ghost predicate InUse(n: nat)
      reads this
    {
      || (exists l, t :: 0 <= l < NUM_LEVELS && t in current[l] && t.number == n)
      || (descriptorLog.Some? && ManifestNext(descriptorLog.value) > n)
    }

    /** Takes back the number handed out last, unless a later one was handed out since.  It
        does not look whether the number is in use by then; if so, and only then, the
        counter no longer lies above everything. */
    method ReuseFileNumber(n: nat)
      requires Valid()
      modifies this`nextFileNumber
      ensures nextFileNumber == if old(nextFileNumber) == n + 1 then n else old(nextFileNumber)
      ensures Valid() <==> old(nextFileNumber) != n + 1 || !InUse(n)
    {
      hide Describes, SortedBySmallest;
      if nextFileNumber == n + 1 {
        nextFileNumber := n;
      }
    }

    method MarkFileNumberUsed(n: nat)
      requires Valid()
      modifies this`nextFileNumber
      ensures Valid() && n < nextFileNumber && old(nextFileNumber) <= nextFileNumber
      ensures nextFileNumber == old(nextFileNumber) || nextFileNumber == n + 1
    {
      hide Describes, SortedBySmallest;
      if nextFileNumber <= n {
        nextFileNumber := n + 1;
      }
    }

    method SetLastSequence(s: nat)
      requires Valid() && s >= lastSequence
      modifies this`lastSequence
      ensures Valid() && lastSequence == s
    {
      hide Describes, SortedBySmallest;
      lastSequence := s;
    }

    method ApplyPointers(e: Edit)
      modifies this`compactPointer
      ensures compactPointer == PointersAfter(old(compactPointer), e.compactPointers)
    {
      var cps := e.compactPointers;
      assert cps[..0] == [];
      for i := 0 to |cps|
        invariant compactPointer == PointersAfter(old(compactPointer), cps[..i])
      {
        assert cps[..i + 1][..i] == cps[..i];
        compactPointer := compactPointer[cps[i].0 := cps[i].1];
      }
      assert cps[..|cps|] == cps;
    }

    /** The record that opens a new manifest. */
    method WriteSnapshot() returns (record: Edit)
      ensures record == SnapshotRecord(current, compactPointer)
    {
      var pointers: seq<(nat, InternalKey)> := [];
      for level := 0 to NUM_LEVELS
        invariant pointers == PointerList(compactPointer, level)
      {
        if level in compactPointer {
          pointers := pointers + [(level, compactPointer[level])];
        }
      }
      var files: seq<(nat, Table)> := [];
      for level := 0 to NUM_LEVELS
        invariant files == FilesFrom(current, level)
      {
        var level0 := files;
        for i := 0 to |current[level]|
          invariant files == level0 + AtLevel(level, current[level][..i])
        {
          assert AtLevel(level, current[level][..i + 1]) == AtLevel(level, current[level][..i]) + [(level, current[level][i])];
          files := files + [(level, current[level][i])];
        }
        assert current[level][..|current[level]|] == current[level];
      }
      record := EMPTY_EDIT.(comparator := Some(COMPARATOR), compactPointers := pointers, newFiles := files);
    }

    /** The manifest the next edit is logged to. */
    ghost function Manifest(edit: Edit): seq<Edit>
      reads this
    {
      if descriptorLog.Some? then descriptorLog.value
      else [SnapshotRecord(current, PointersAfter(compactPointer, edit.compactPointers))]
    }

    lemma ManifestSound(edit: Edit)
      requires Valid() && edit.LevelsInRange()
      ensures RecordsFresh(Manifest(edit)) && ManifestFiles(Manifest(edit), current)
      ensures forall x :: x in Manifest(edit) && x.comparator.Some? ==> x.comparator.value == COMPARATOR
      ensures forall l :: l in PointersAfter(compactPointer, edit.compactPointers) ==> l < NUM_LEVELS
      ensures descriptorLog.None? ==> ManifestPointers(Manifest(edit)) == PointersAfter(compactPointer, edit.compactPointers)
    {
      hide FreshAdds, EditAll, SnapshotRecord, LastValue, PointersAfter, ManifestPointers, SortedBySmallest,
        FilesFrom, PointerList;
      PointersInRange(compactPointer, edit.compactPointers);
      if descriptorLog.None? {
        SnapshotSound(current, PointersAfter(compactPointer, edit.compactPointers));
      }
    }

    /** The edit as it is logged: missing log numbers and both counters filled in. */
    function Completed(edit: Edit): Edit
      reads this
    {
      edit.(logNumber := if edit.logNumber.Some? then edit.logNumber else Some(logNumber),
            prevLogNumber := if edit.prevLogNumber.Some? then edit.prevLogNumber else Some(prevLogNumber),
            nextFileNumber := Some(nextFileNumber),
            lastSequence := Some(lastSequence))
    }

    /** Logs an edit and installs the version it gives; the first edit also starts the
        manifest with a snapshot.  When the record cannot be written nothing is
        installed, but the compaction pointers have moved. */
    method LogAndApply(edit: Edit, canWrite: bool) returns (ok: bool)
      requires Valid() && edit.LevelsInRange() && edit.comparator.None?
      requires edit.logNumber.Some? ==> logNumber <= edit.logNumber.value < nextFileNumber
      requires AddsFreshNumbers(Manifest(edit), edit.newFiles)
      requires forall f :: f in edit.newFiles ==> f.1.number < nextFileNumber
      modifies this
      ensures Valid() && ok == canWrite
      ensures nextFileNumber == old(nextFileNumber) && lastSequence == old(lastSequence) && manifestFileNumber == old(manifestFileNumber)
      ensures compactPointer == PointersAfter(old(compactPointer), edit.compactPointers)
      ensures ok ==> descriptorLog == Some(old(Manifest(edit)) + [old(Completed(edit))])
      ensures ok ==> Some(logNumber) == old(Completed(edit)).logNumber && Some(prevLogNumber) == old(Completed(edit)).prevLogNumber
      ensures ok ==> IsEdit(old(current), edit.deletedFiles, (set f | f in edit.newFiles), current)
      ensures ok && (old(descriptorLog).Some? ==> ManifestPointers(old(descriptorLog).value) == old(compactPointer)) ==>
        ManifestPointers(descriptorLog.value) == compactPointer
      ensures !ok ==> descriptorLog == old(descriptorLog) && current == old(current) && logNumber == old(logNumber) && prevLogNumber == old(prevLogNumber)
    {
      hide FreshAdds, EditAll, AddedBy, IsEdit, SnapshotRecord, RecoverStatus, AddsFreshNumbers, LastValue,
        PointersAfter, ManifestPointers, SortedBySmallest, NoSharedNumber, Describes, ManifestFiles, RecordsFresh,
        RecordsSound, ManifestNext, ManifestSeq;
      var e := edit;
      if e.logNumber.None? {
        e := e.(logNumber := Some(logNumber));
      }
      if e.prevLogNumber.None? {
        e := e.(prevLogNumber := Some(prevLogNumber));
      }
      e := e.(nextFileNumber := Some(nextFileNumber), lastSequence := Some(lastSequence));
      assert e == Completed(edit);
      ghost var records := Manifest(edit);
      ManifestSound(edit);
      forall l | 0 <= l < NUM_LEVELS ensures FreshAdds(SetOfFiles(current[l]), [e], l) {
        FreshForVersion(records, current, e, l);
      }
      ApplyPointers(e);
      var v := ApplyEdit(current, e);
      var manifest: seq<Edit>;
      if descriptorLog.None? {
        var snapshot := WriteSnapshot();
        manifest := [snapshot];
      } else {
        manifest := descriptorLog.value;
      }
      assert manifest == records;
      ok := canWrite;
      if ok {
        LoggedState(records, current, e, v);
        PointersTwice(old(compactPointer), e.compactPointers);
        descriptorLog := Some(manifest + [e]);
        current := v;
        logNumber := e.logNumber.value;
        prevLogNumber := e.prevLogNumber.value;
      }
    }

    lemma SoundIsValid(records: seq<Edit>)
      requires RecordsSound(records) && ManifestFiles(records, current) && descriptorLog.None? && nextFileNumber > ManifestNext(records)
      requires forall l :: 0 <= l < NUM_LEVELS ==> SortedBySmallest(current[l])
      requires compactPointer == ManifestPointers(records)
      ensures Valid()
    {
      hide SortedBySmallest, FreshAdds, EditAll, ManifestNext, ManifestPointers, NoSharedNumber;
      forall l | 0 <= l < NUM_LEVELS ensures NoSharedNumber(current[l]) {
        DescribedNumbers(records, current[l], l);
      }
      forall l, t | 0 <= l < NUM_LEVELS && t in current[l] ensures t.number < nextFileNumber {
        assert t in SetOfFiles(current[l]);
      }
      ManifestPointersInRange(records);
    }

    /** The loop of Recover: every record into the builder, the last value of every field
        kept; stops at a record written under another comparator. */
    method ReplayRecords(records: seq<Edit>, builder: Builder)
      returns (status: Status, log: Option<nat>, prevLog: Option<nat>, next: Option<nat>, last: Option<nat>)
      requires builder.Valid() && compactPointer == map[] && Collected(builder, [])
      requires forall e :: e in records ==> e.LevelsInRange()
      modifies this`compactPointer, builder.deletedFiles, builder.addedFiles
      ensures status == Ok || (status == RecoverStatus(records) && status.InvalidArgument?)
      ensures status == Ok ==>
        && (forall e :: e in records && e.comparator.Some? ==> e.comparator.value == COMPARATOR)
        && Collected(builder, records)
        && compactPointer == ManifestPointers(records)
        && log == LastValue(records, LogNumber) && prevLog == LastValue(records, PrevLogNumber)
        && next == LastValue(records, NextFileNumber) && last == LastValue(records, LastSequence)
    {
      hide LastValue, ManifestPointers, PointersAfter, InsertAll, NewAt, NumbersOf, DeletedAfter, AddedAfter, DeletedAt;
      status := Ok;
      log, prevLog, next, last := None, None, None, None;
      assert records[..0] == [];
      NothingCollected();
      var i := 0;
      while i < |records| && status == Ok
        invariant i <= |records|
        invariant status == Ok ==> forall e :: e in records[..i] && e.comparator.Some? ==> e.comparator.value == COMPARATOR
        invariant status != Ok ==> status == RecoverStatus(records) && status.InvalidArgument?
        invariant status == Ok ==> Collected(builder, records[..i])
        invariant status == Ok ==> compactPointer == ManifestPointers(records[..i])
        invariant status == Ok ==> log == LastValue(records[..i], LogNumber) && prevLog == LastValue(records[..i], PrevLogNumber)
        invariant status == Ok ==> next == LastValue(records[..i], NextFileNumber) && last == LastValue(records[..i], LastSequence)
      {
        var edit := records[i];
        assert edit in records && records[..i + 1] == records[..i] + [edit];
        if edit.comparator.Some? && edit.comparator.value != COMPARATOR {
          status := InvalidArgument("does not match existing comparator");
        }
        if status == Ok {
          forall l | 0 <= l < NUM_LEVELS
            ensures DeletedAfter(records[..i + 1], l)
              == (DeletedAfter(records[..i], l) + DeletedAt(edit, l)) - NumbersOf(NewAt(edit.newFiles, l))
            ensures AddedAfter(records[..i + 1], l) == InsertAll(AddedAfter(records[..i], l), NewAt(edit.newFiles, l))
          {
            RecordsAllApply(records, i, l);
          }
          RecordsAllApply(records, i, 0);
          ApplyPointers(edit);
          builder.Apply(edit);
        }
        log := if edit.logNumber.Some? then edit.logNumber else log;
        prevLog := if edit.prevLogNumber.Some? then edit.prevLogNumber else prevLog;
        next := if edit.nextFileNumber.Some? then edit.nextFileNumber else next;
        last := if edit.lastSequence.Some? then edit.lastSequence else last;
        i := i + 1;
      }
      if status == Ok {
        assert records[..i] == records;
      }
    }

    /** Rebuilds the state from a manifest: all records through one builder. */
    method Recover(records: seq<Edit>) returns (status: Status, saveManifest: bool)
      requires current == EmptyVersion() && compactPointer == map[] && descriptorLog.None?
      requires forall e :: e in records ==> e.LevelsInRange()
      modifies this
      ensures status == RecoverStatus(records)
      ensures descriptorLog.None?
      ensures status != Ok ==> current == old(current) && logNumber == old(logNumber) && lastSequence == old(lastSequence) && !saveManifest
      ensures status == Ok ==>
        && saveManifest
        && compactPointer == ManifestPointers(records)
        && logNumber == ManifestLog(records) && prevLogNumber == ValueOr0(LastValue(records, PrevLogNumber))
        && lastSequence == ManifestSeq(records)
        && manifestFileNumber == ManifestNext(records) && nextFileNumber == ManifestNext(records) + 1
        && forall l :: 0 <= l < NUM_LEVELS ==> current[l] == Saved([], records, l)
      ensures status == Ok && RecordsFresh(records) ==>
        ManifestFiles(records, current) && forall l :: 0 <= l < NUM_LEVELS ==> SortedBySmallest(current[l])
      ensures status == Ok && RecordsSound(records) ==> Valid()
    {
      hide LastValue, ManifestPointers, PointersAfter, FreshAdds, EditAll, SortedBySmallest, Merge, NotDeleted,
        DeletedAfter, AddedAfter, RecordsFresh, RecordsSound;
      saveManifest := false;
      var builder := new Builder(current);
      NothingCollected();
      var log, prevLog, next, last;
      status, log, prevLog, next, last := ReplayRecords(records, builder);
      if status == Ok {
        if next.None? {
          status := Corruption("no meta-nextfile entry in descriptor");
        } else if log.None? {
          status := Corruption("no meta-lognumber entry in descriptor");
        } else if last.None? {
          status := Corruption("no last-sequence-number entry in descriptor");
        }
      }
      if status == Ok {
        NothingSorted();
        current := builder.SaveTo();
        assert forall l :: 0 <= l < NUM_LEVELS ==> current[l] == Saved([], records, l);
        manifestFileNumber := next.value;
        nextFileNumber := next.value + 1;
        lastSequence := last.value;
        logNumber := log.value;
        prevLogNumber := if prevLog.Some? then prevLog.value else 0;
        saveManifest := true;
        if RecordsFresh(records) {
          SavedVersion(records, current);
        }
        if RecordsSound(records) {
          assert RecordsFresh(records) by { SoundIsFresh(records); }
          SoundIsValid(records);
        }
      }
    }
  }

  /** A version set that logs an edit and stops there, and the one recovered from its
      manifest: the same version, log numbers and counters. */
  method LogAndRecover(vs: VersionSet, edit: Edit) returns (recovered: VersionSet, status: Status)
    requires vs.Valid() && edit.LevelsInRange() && edit.comparator.None?
    requires edit.logNumber.Some? ==> vs.logNumber <= edit.logNumber.value < vs.nextFileNumber
    requires AddsFreshNumbers(vs.Manifest(edit), edit.newFiles)
    requires forall f :: f in edit.newFiles ==> f.1.number < vs.nextFileNumber
    modifies vs
    ensures fresh(recovered) && status == Ok && recovered.Valid()
    ensures IsEdit(old(vs.current), edit.deletedFiles, (set f | f in edit.newFiles), recovered.current)
    ensures Some(recovered.logNumber) == old(vs.Completed(edit)).logNumber
    ensures Some(recovered.prevLogNumber) == old(vs.Completed(edit)).prevLogNumber
    ensures recovered.lastSequence == old(vs.lastSequence)
    ensures recovered.manifestFileNumber == old(vs.nextFileNumber) && recovered.nextFileNumber == old(vs.nextFileNumber) + 1
    ensures (old(vs.descriptorLog).Some? ==> ManifestPointers(old(vs.descriptorLog).value) == old(vs.compactPointer)) ==>
      recovered.compactPointer == PointersAfter(old(vs.compactPointer), edit.compactPointers)
  {
    hide FreshAdds, EditAll, AddedBy, IsEdit, AddsFreshNumbers, LastValue, PointersAfter, ManifestPointers,
      SortedBySmallest, NoSharedNumber, Merge, NotDeleted, DeletedAfter, AddedAfter, ManifestFiles, RecordsSound,
      RecoverStatus;
    ghost var before, e := vs.Manifest(edit), vs.Completed(edit);
    var ok := vs.LogAndApply(edit, true);
    recovered := new VersionSet();
    var records := vs.descriptorLog.value;
    assert RecordsFresh(records) by { SoundIsFresh(records); }
    var save;
    status, save := recovered.Recover(records);
    AppendRecord(before, e, 0);
    ManifestFilesUnique(records, vs.current, recovered.current);
  }
}

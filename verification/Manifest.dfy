/** The manifest: one record per version edit.  What its records say about the files of
    each level, the log number, the file counter and the last sequence number. */
module Manifest {
  import opened Options
  import opened DbFormat
  import opened Tables
  import opened Lsm
  import opened VersionBuilder

  const COMPARATOR := "leveldb.BytewiseComparator"

  datatype Field = LogNumber | PrevLogNumber | NextFileNumber | LastSequence

  function FieldOf(e: Edit, f: Field): Option<nat> {
    match f
    case LogNumber => e.logNumber
    case PrevLogNumber => e.prevLogNumber
    case NextFileNumber => e.nextFileNumber
    case LastSequence => e.lastSequence
  }

  /** The last value the records give a field. */
  function LastValue(records: seq<Edit>, f: Field): Option<nat> {
    if records == [] then None
    else
      var e := records[|records| - 1];
      if FieldOf(e, f).Some? then FieldOf(e, f) else LastValue(records[..|records| - 1], f)
  }

  function ValueOr0(o: Option<nat>): nat {
    if o.Some? then o.value else 0
  }

  function ManifestLog(records: seq<Edit>): nat {
    ValueOr0(LastValue(records, LogNumber))
  }

  function ManifestSeq(records: seq<Edit>): nat {
    ValueOr0(LastValue(records, LastSequence))
  }

  function ManifestNext(records: seq<Edit>): nat {
    ValueOr0(LastValue(records, NextFileNumber))
  }

  /** The version the manifest records describe. */
  ghost predicate ManifestFiles(records: seq<Edit>, v: Levels) {
    forall l :: 0 <= l < NUM_LEVELS ==> SetOfFiles(v[l]) == EditAll({}, records, l)
  }

  /** The records describe one version. */
  lemma ManifestFilesUnique(records: seq<Edit>, v: Levels, w: Levels)
    requires ManifestFiles(records, v) && ManifestFiles(records, w)
    requires forall l :: 0 <= l < NUM_LEVELS ==> SortedBySmallest(v[l]) && SortedBySmallest(w[l])
    ensures v == w
  {
    hide SortedBySmallest;
    forall l | 0 <= l < NUM_LEVELS ensures v[l] == w[l] {
      SameSetSameList(v[l], w[l]);
    }
  }

  datatype Status = Ok | Corruption(what: string) | InvalidArgument(what: string)

  /** What recovering from the records reports. */
  function RecoverStatus(records: seq<Edit>): Status {
    if exists e :: e in records && e.comparator.Some? && e.comparator.value != COMPARATOR then
      InvalidArgument("does not match existing comparator")
    else if LastValue(records, NextFileNumber).None? then Corruption("no meta-nextfile entry in descriptor")
    else if LastValue(records, LogNumber).None? then Corruption("no meta-lognumber entry in descriptor")
    else if LastValue(records, LastSequence).None? then Corruption("no last-sequence-number entry in descriptor")
    else Ok
  }

  /** The manifest can be recovered from. */
  ghost predicate RecordsReadable(records: seq<Edit>) {
    && RecoverStatus(records) == Ok
    && forall e :: e in records ==> e.LevelsInRange()
  }

  // ----- compaction pointers -----

  type Pointers = map<nat, InternalKey>

  function PointersAfter(pointers: Pointers, cps: seq<(nat, InternalKey)>): Pointers {
    if cps == [] then pointers
    else PointersAfter(pointers, cps[..|cps| - 1])[cps[|cps| - 1].0 := cps[|cps| - 1].1]
  }

  function ManifestPointers(records: seq<Edit>): Pointers {
    if records == [] then map[]
    else PointersAfter(ManifestPointers(records[..|records| - 1]), records[|records| - 1].compactPointers)
  }

  function PointerList(pointers: Pointers, n: nat): seq<(nat, InternalKey)> {
    if n == 0 then []
    else PointerList(pointers, n - 1) + if n - 1 in pointers then [(n - 1, pointers[n - 1])] else []
  }

  /** Replaying the listed pointers gives the pointers of the levels below n. */
  lemma {:induction false} PointersListed(pointers: Pointers, n: nat)
    ensures PointersAfter(map[], PointerList(pointers, n)) == map l | l in pointers && l < n :: pointers[l]
  {
    if n > 0 {
      PointersListed(pointers, n - 1);
      var before := PointerList(pointers, n - 1);
      if n - 1 in pointers {
        var longer := before + [(n - 1, pointers[n - 1])];
        assert longer[..|longer| - 1] == before;
      } else {
        assert before + [] == before;
      }
    }
  }

  // ----- records -----

  function AtLevel(level: nat, files: Files): seq<(nat, Table)> {
    seq(|files|, i requires 0 <= i < |files| => (level, files[i]))
  }

  lemma AtLevelMembers(level: nat, files: Files)
    ensures forall l, t :: (l, t) in AtLevel(level, files) <==> l == level && t in files
  {
    forall l, t ensures (l, t) in AtLevel(level, files) <==> l == level && t in files {
      if l == level && t in files {
        var i :| 0 <= i < |files| && files[i] == t;
        assert AtLevel(level, files)[i] == (l, t);
      }
    }
  }

  lemma {:induction false} NewAtAtLevel(level: nat, files: Files, l: nat)
    ensures NewAt(AtLevel(level, files), l) == if l == level then files else []
  {
    if files != [] {
      var rest := files[..|files| - 1];
      NewAtAtLevel(level, rest, l);
      assert AtLevel(level, files)[..|files| - 1] == AtLevel(level, rest);
      assert files == rest + [files[|files| - 1]];
    }
  }

  lemma {:induction false} NewAtAppend(a: seq<(nat, Table)>, b: seq<(nat, Table)>, l: nat)
    ensures NewAt(a + b, l) == NewAt(a, l) + NewAt(b, l)
  {
    if b == [] {
      assert a + b == a;
    } else {
      var rest := b[..|b| - 1];
      NewAtAppend(a, rest, l);
      assert (a + b)[..|a + b| - 1] == a + rest;
    }
  }

  ghost function FilesFrom(v: Levels, n: nat): seq<(nat, Table)>
    requires n <= NUM_LEVELS
  {
    if n == 0 then []
    else FilesFrom(v, n - 1) + AtLevel(n - 1, v[n - 1])
  }

  /** The record that lists a whole version. */
  ghost function SnapshotRecord(v: Levels, pointers: Pointers): Edit {
    EMPTY_EDIT.(
      comparator := Some(COMPARATOR), compactPointers := PointerList(pointers, NUM_LEVELS), newFiles := FilesFrom(v, NUM_LEVELS))
  }

  lemma {:induction false} SnapshotLevel(v: Levels, n: nat, l: nat)
    requires l < NUM_LEVELS && n <= NUM_LEVELS
    ensures NewAt(FilesFrom(v, n), l) == if l < n then v[l] else []
  {
    if n > 0 {
      SnapshotLevel(v, n - 1, l);
      NewAtAppend(FilesFrom(v, n - 1), AtLevel(n - 1, v[n - 1]), l);
      NewAtAtLevel(n - 1, v[n - 1], l);
    }
  }

  /** Appending a record to the manifest. */
  lemma AppendRecord(records: seq<Edit>, e: Edit, l: nat)
    ensures EditAll({}, records + [e], l) == EditFiles(EditAll({}, records, l), e, l)
    ensures AddedBy(records + [e], l) == AddedBy(records, l) + SetOfFiles(NewAt(e.newFiles, l))
    ensures forall f :: LastValue(records + [e], f) == if FieldOf(e, f).Some? then FieldOf(e, f) else LastValue(records, f)
    ensures ManifestPointers(records + [e]) == PointersAfter(ManifestPointers(records), e.compactPointers)
  {
    var all := records + [e];
    assert all[..|all| - 1] == records;
    forall t ensures t in AddedBy(all, l) <==> t in AddedBy(records, l) || t in NewAt(e.newFiles, l) {
    }
  }

  lemma AppendFresh(records: seq<Edit>, e: Edit, l: nat)
    requires FreshAdds({}, records, l)
    requires forall t, u :: t in NewAt(e.newFiles, l) && u in AddedBy(records, l) ==> t.number != u.number
    requires forall i, j :: 0 <= i < j < |NewAt(e.newFiles, l)| ==> NewAt(e.newFiles, l)[i].number != NewAt(e.newFiles, l)[j].number
    ensures FreshAdds({}, records + [e], l)
  {
    var all := records + [e];
    assert all[..|all| - 1] == records;
  }

  /** A snapshot record on its own describes the version it was written from. */
  lemma SnapshotDescribes(v: Levels, pointers: Pointers, l: nat)
    requires l < NUM_LEVELS
    ensures EditAll({}, [SnapshotRecord(v, pointers)], l) == SetOfFiles(v[l])
    ensures AddedBy([SnapshotRecord(v, pointers)], l) == SetOfFiles(v[l])
    ensures ManifestPointers([SnapshotRecord(v, pointers)]) == map m | m in pointers && m < NUM_LEVELS :: pointers[m]
    ensures forall f :: LastValue([SnapshotRecord(v, pointers)], f) == None
    ensures NoSharedNumber(v[l]) ==> FreshAdds({}, [SnapshotRecord(v, pointers)], l)
  {
    hide FilesFrom, PointerList, NewAt;
    var s := SnapshotRecord(v, pointers);
    SnapshotLevel(v, NUM_LEVELS, l);
    PointersListed(pointers, NUM_LEVELS);
    AppendRecord([], s, l);
    assert [] + [s] == [s];
    assert AddedBy([], l) == {};
    if NoSharedNumber(v[l]) {
      AppendFresh([], s, l);
    }
  }

  ghost predicate NoSharedNumber(files: Files) {
    forall i, j :: 0 <= i < j < |files| ==> files[i].number != files[j].number
  }

  lemma {:induction false} ListsInRange(v: Levels, pointers: Pointers, n: nat)
    requires n <= NUM_LEVELS
    ensures forall p :: p in PointerList(pointers, n) ==> p.0 < n
    ensures forall f :: f in FilesFrom(v, n) ==> f.0 < n
  {
    if n > 0 {
      ListsInRange(v, pointers, n - 1);
    }
  }

  lemma AppendReadable(records: seq<Edit>, e: Edit)
    requires e.LevelsInRange() && (forall x :: x in records ==> x.LevelsInRange())
    requires e.comparator.Some? ==> e.comparator.value == COMPARATOR
    requires forall x :: x in records && x.comparator.Some? ==> x.comparator.value == COMPARATOR
    requires Complete(e)
    ensures RecordsReadable(records + [e])
  {
    hide LastValue;
    AppendRecord(records, e, 0);
  }

  predicate Complete(e: Edit) {
    e.logNumber.Some? && e.prevLogNumber.Some? && e.nextFileNumber.Some? && e.lastSequence.Some?
  }

  lemma SnapshotReadable(v: Levels, pointers: Pointers, e: Edit)
    requires e.LevelsInRange() && e.comparator.None? && Complete(e)
    ensures RecordsReadable([SnapshotRecord(v, pointers), e])
  {
    hide FilesFrom, PointerList;
    ListsInRange(v, pointers, NUM_LEVELS);
    assert [SnapshotRecord(v, pointers), e] == [SnapshotRecord(v, pointers)] + [e];
    AppendReadable([SnapshotRecord(v, pointers)], e);
  }
}

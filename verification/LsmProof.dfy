/** Every step keeps the engine's invariant. */
module LsmProof {
  import opened Options
  import opened DbFormat
  import opened Tables
  import opened VersionSearch
  import opened InputSelection
  import opened CompactionDrop
  import opened Lsm

  // ----- memtable steps -----

  /** Adding an entry newer than all others changes reads alike in any set that holds all
      a reader may see. */
  lemma ReadWithNewest(es: set<Entry>, e: Entry, k: UserKey, sn: nat)
    requires Distinct(es + {e}) && forall x :: x in es ==> x.key.seqno < e.key.seqno
    ensures Read(es + {e}, k, sn) == if e.key.ukey == k && e.key.seqno <= sn then AnswerOf(e) else Read(es, k, sn)
  {
    DistinctSubset(es + {e}, es);
    if e.key.ukey == k && e.key.seqno <= sn {
      assert Newest(es + {e}, k, sn, e);
      ReadNewest(es + {e}, k, sn, e);
    } else {
      forall x ensures Visible(es + {e}, k, sn, x) <==> Visible(es, k, sn, x) {
      }
      ReadSame(es + {e}, es, k, sn, sn);
    }
  }

  lemma InsertKeepsView(s: State, e: Entry)
    requires Inv(s) && Enabled(s, Insert(e))
    ensures ViewOk(Apply(s, Insert(e)))
    ensures All(Apply(s, Insert(e))) == All(s) + {e}
    ensures Distinct(s.written + {e})
  {
    hide LevelsOk, RunningOk, NumbersOk, MemOrdered, SnapshotOk, TableEntries, Read;
    var s' := Apply(s, Insert(e));
    assert All(s') == All(s) + {e};
    DistinctSubset(s.written + {e}, All(s) + {e});
    hide Distinct;
    forall k, sn: nat | Live(s', sn) ensures Read(All(s'), k, sn) == Read(s'.written, k, sn) {
      ReadWithNewest(s.written, e, k, sn);
      ReadWithNewest(All(s), e, k, sn);
      assert Live(s, sn);
    }
  }

  lemma InsertKeepsOrder(s: State, e: Entry)
    requires SequencesOk(s) && MemOrdered(s) && e.key.seqno == s.nextSeq + 1
    ensures MemOrdered(s.(mem := s.mem + {e}))
  {
    hide Distinct, TableEntries;
    forall x | x in ImmOf(s) + TableEntries(s.levels) ensures x.key.seqno < e.key.seqno {
      assert x in All(s);
    }
  }

  lemma InsertKeepsInv(s: State, e: Entry)
    requires Inv(s) && Enabled(s, Insert(e))
    ensures Inv(Apply(s, Insert(e)))
  {
    hide LevelsOk, RunningOk, ViewOk, TableEntries, Newer, Distinct;
    InsertKeepsView(s, e);
    InsertKeepsOrder(s, e);
  }

  /** Handing out an output number does not matter to how files lie. */
  lemma NumbersDoNotMatter(v: Levels, r: Running, numbers: seq<nat>)
    requires RunningOk(v, r)
    ensures RunningOk(v, r.(numbers := numbers))
  {
    hide Covered, NoOlderLeft, Newer, BaseLevel, InHull, SortedLevel, NoDuplicates;
  }

  lemma SameEntriesKeepView(s: State, s': State)
    requires ViewOk(s) && All(s') == All(s) && s'.written == s.written
    requires forall sn: nat :: Live(s', sn) ==> Live(s, sn)
    ensures ViewOk(s')
  {
    hide All, Read;
  }

  /** Sequence numbers advance. */
  lemma SequenceStepsKeepInv(s: State, step: Step)
    requires Inv(s) && Enabled(s, step) && (step.Skip? || step.Publish?)
    ensures Inv(Apply(s, step))
  {
    hide LevelsOk, RunningOk, MemOrdered, NumbersOk, TableEntries, Distinct, ViewOk;
    var s' := Apply(s, step);
    assert All(s') == All(s);
    SameMemory(s, s');
    SameEntriesKeepView(s, s');
  }

  /** An output number is handed out, or the running compaction is given up. */
  lemma AllocateKeepsInv(s: State)
    requires Inv(s) && Enabled(s, Allocate)
    ensures Inv(Apply(s, Allocate))
  {
    hide LevelsOk, RunningOk, MemOrdered, TableEntries, Distinct, ViewOk;
    var s' := Apply(s, Allocate);
    NumbersDoNotMatter(s.levels, s.running.value, s'.running.value.numbers);
    assert All(s') == All(s);
    SameMemory(s, s');
    SameEntriesKeepView(s, s');
  }

  lemma AbandonKeepsInv(s: State)
    requires Inv(s) && Enabled(s, Abandon)
    ensures Inv(Apply(s, Abandon))
  {
    hide LevelsOk, RunningOk, MemOrdered, TableEntries, Distinct, ViewOk;
    var s' := Apply(s, Abandon);
    assert All(s') == All(s);
    SameMemory(s, s');
    SameEntriesKeepView(s, s');
  }

  lemma SnapshotStepsKeepInv(s: State, step: Step)
    requires Inv(s) && Enabled(s, step) && (step.Acquire? || step.Release?)
    ensures Inv(Apply(s, step))
  {
    hide LevelsOk, RunningOk, MemOrdered, NumbersOk, TableEntries, Distinct, ViewOk;
    var s' := Apply(s, step);
    assert All(s') == All(s);
    SameMemory(s, s');
    SameEntriesKeepView(s, s');
  }

  /** Order and file numbers speak of the entries and files alone. */
  lemma SameMemory(s: State, s': State)
    requires s'.mem == s.mem && s'.imm == s.imm && s'.levels == s.levels
    ensures MemOrdered(s') <==> MemOrdered(s)
    ensures s'.nextFile == s.nextFile && s'.running == s.running ==> (NumbersOk(s') <==> NumbersOk(s))
  {
    hide Newer, TableEntries;
  }

  lemma SmallStepsKeepInv(s: State, step: Step)
    requires Inv(s) && Enabled(s, step)
    requires step.Skip? || step.Publish? || step.Allocate? || step.Abandon? || step.Acquire? || step.Release?
    ensures Inv(Apply(s, step))
  {
    hide Inv, Enabled, Apply;
    match step
    case Skip(_) => SequenceStepsKeepInv(s, step);
    case Publish => SequenceStepsKeepInv(s, step);
    case Allocate => AllocateKeepsInv(s);
    case Abandon => AbandonKeepsInv(s);
    case Acquire => SnapshotStepsKeepInv(s, step);
    case Release(_) => SnapshotStepsKeepInv(s, step);
  }

  lemma SwitchKeepsInv(s: State)
    requires Inv(s) && Enabled(s, Switch)
    ensures Inv(Apply(s, Switch))
  {
    hide LevelsOk, RunningOk, TableEntries, Distinct, ViewOk;
    var s' := Apply(s, Switch);
    assert s'.mem + ImmOf(s') == s.mem + ImmOf(s);
    assert All(s') == All(s);
    SameEntriesKeepView(s, s');
  }

  // ----- facts about the files of a version -----

  lemma EntryHome(v: Levels, e: Entry) returns (m: nat, t: Table)
    requires e in TableEntries(v)
    ensures m < NUM_LEVELS && t in v[m] && e in t.entries
  {
    m, t :| 0 <= m < NUM_LEVELS && t in v[m] && e in t.entries;
  }

  lemma SortedBySmallestNoDuplicates(files: Files)
    requires SortedBySmallest(files)
    ensures NoDuplicates(files)
  {
  }

  /** Sorted by smallest key and pairwise disjoint is sorted and disjoint. */
  lemma DisjointSorted(files: Files)
    requires SortedBySmallest(files) && ValidFiles(files)
    requires forall t, u :: t in files && u in files && t != u ==> Less(t.largest, u.smallest) || Less(u.largest, t.smallest)
    ensures SortedLevel(files)
  {
    forall i, j | 0 <= i < j < |files| ensures Less(files[i].largest, files[j].smallest) {
      assert files[i] in files && files[j] in files;
      ValidTableRange(files[i]);
      ValidTableRange(files[j]);
      assert BySmallestKey(files[i], files[j]);
    }
  }

  /** Two files of one sorted level, one of them containing a key the other's range touches. */
  lemma NotOverlapNoSharedKey(t: Table, u: Table)
    requires t.Valid() && u.Valid() && !t.Overlaps(u.Lo(), u.Hi())
    ensures Newer(t.entries, u.entries) && Newer(u.entries, t.entries)
    ensures Less(t.largest, u.smallest) || Less(u.largest, t.smallest)
  {
    ValidTableRange(t);
    ValidTableRange(u);
  }

  // ----- flush -----

  /** The flushed file meets no file of the levels it passed or landed on (above 0). */
  lemma PlacedClear(v: Levels, t: Table, level: nat, max: nat)
    requires PlacedAt(v, t.Lo(), t.Hi(), level, max) && level > 0
    ensures forall m, u :: 0 <= m <= level && u in v[m] ==> !u.Overlaps(t.Lo(), t.Hi())
  {
    forall m, u | 0 <= m <= level && u in v[m] ensures !u.Overlaps(t.Lo(), t.Hi()) {
      assert !Blocked(v, if m == 0 then 0 else m - 1, t.Lo(), t.Hi(), max);
      assert !Meets(u, Some(t.Lo()), Some(t.Hi()));
    }
  }

  /** v' is v with t added to one level. */
  ghost predicate Adds(v: Levels, t: Table, level: nat, v': Levels) {
    forall m :: 0 <= m < NUM_LEVELS ==> SortedBySmallest(v'[m]) && forall u :: u in v'[m] <==> u in v[m] || (m == level && u == t)
  }

  lemma FlushAdds(s: State, t: Table, level: nat, max: nat, v': Levels)
    requires Inv(s) && Enabled(s, Flush(Some(t), level, max, v'))
    ensures Adds(s.levels, t, level, v')
    ensures forall m, u :: 0 <= m < NUM_LEVELS && u in s.levels[m] ==> Newer(t.entries, u.entries) && u.number < t.number
  {
    forall m, u | 0 <= m < NUM_LEVELS && u in s.levels[m] ensures Newer(t.entries, u.entries) {
      assert forall e :: e in u.entries ==> e in TableEntries(s.levels);
    }
  }

  lemma AddKeepsLevelOrder(v: Levels, t: Table, level: nat, v': Levels)
    requires LevelsOrdered(v) && Adds(v, t, level, v') && level < NUM_LEVELS
    requires forall m, u :: 0 <= m < NUM_LEVELS && u in v[m] ==> Newer(t.entries, u.entries)
    requires forall m, u :: 0 <= m < level && u in v[m] ==> Newer(u.entries, t.entries)
    ensures LevelsOrdered(v')
  {
    forall l, m, x, y | 0 <= l < m < NUM_LEVELS && x in v'[l] && y in v'[m] ensures Newer(x.entries, y.entries) {
      if y !in v[m] {
        assert x in v[l];
      } else if x !in v[l] {
        assert x == t;
      }
    }
  }

  lemma AddKeepsFiles(v: Levels, t: Table, level: nat, v': Levels)
    requires LevelsOk(v) && Adds(v, t, level, v') && t.Valid() && level < NUM_LEVELS
    requires forall m, u :: 0 <= m < NUM_LEVELS && u in v[m] ==> Newer(t.entries, u.entries) && u.number < t.number
    ensures AllValid(v') && UniqueNumbers(v') && Level0Ordered(v'[0])
  {
    hide LevelsOrdered, Table.Valid, SortedLevel, SortedBySmallest, Newer;
    forall l, x, m, y | 0 <= l < NUM_LEVELS && x in v'[l] && 0 <= m < NUM_LEVELS && y in v'[m] && x.number == y.number
      ensures l == m && x == y
    {
      assert x in v[l] || (l == level && x == t);
      assert y in v[m] || (m == level && y == t);
    }
  }

  lemma AddKeepsSorted(files: Files, t: Table, files': Files)
    requires ValidFiles(files) && SortedLevel(files) && t.Valid() && SortedBySmallest(files')
    requires forall u :: u in files' ==> u in files || u == t
    requires forall u :: u in files ==> Less(t.largest, u.smallest) || Less(u.largest, t.smallest)
    ensures SortedLevel(files')
  {
    forall x, y | x in files' && y in files' && x != y ensures Less(x.largest, y.smallest) || Less(y.largest, x.smallest) {
      if x in files && y in files {
        SortedPair(files, x, y);
      }
    }
    DisjointSorted(files');
  }

  lemma FlushKeepsLevels(s: State, t: Table, level: nat, max: nat, v': Levels)
    requires Inv(s) && Enabled(s, Flush(Some(t), level, max, v'))
    ensures LevelsOk(v')
  {
    var v := s.levels;
    FlushAdds(s, t, level, max, v');
    if level > 0 {
      PlacedClear(v, t, level, max);
      forall m, u | 0 <= m <= level && u in v[m]
        ensures Newer(u.entries, t.entries) && (Less(t.largest, u.smallest) || Less(u.largest, t.smallest))
      {
        NotOverlapNoSharedKey(u, t);
      }
    }
    AddKeepsFiles(v, t, level, v');
    AddKeepsLevelOrder(v, t, level, v');
    forall m | 0 <= m < NUM_LEVELS ensures NoDuplicates(v'[m]) && (m > 0 ==> SortedLevel(v'[m])) {
      SortedBySmallestNoDuplicates(v'[m]);
      if m > 0 {
        if m == level {
          AddKeepsSorted(v[m], t, v'[m]);
        } else {
          SameFilesSorted(v[m], v'[m]);
        }
      }
    }
  }

  lemma SameFilesSorted(files: Files, files': Files)
    requires ValidFiles(files) && SortedLevel(files) && SortedBySmallest(files')
    requires forall u :: u in files' ==> u in files
    ensures SortedLevel(files')
  {
    forall x, y | x in files' && y in files' && x != y ensures Less(x.largest, y.smallest) || Less(y.largest, x.smallest) {
      SortedPair(files, x, y);
    }
    DisjointSorted(files');
  }

  lemma FlushKeepsEntries(s: State, t: Table, level: nat, max: nat, v': Levels)
    requires Inv(s) && Enabled(s, Flush(Some(t), level, max, v'))
    ensures TableEntries(v') == TableEntries(s.levels) + s.imm.value
  {
    hide LevelsOk, MemOrdered, SequencesOk, NumbersOk, ViewOk, SnapshotOk, RunningOk, Blocked, Table.Valid;
    FlushAdds(s, t, level, max, v');
    AddedEntries(s.levels, t, level, v');
  }

  lemma AddedEntries(v: Levels, t: Table, level: nat, v': Levels)
    requires Adds(v, t, level, v') && level < NUM_LEVELS
    ensures TableEntries(v') == TableEntries(v) + t.entries
  {
    forall e | e in TableEntries(v') ensures e in TableEntries(v) + t.entries {
      var m, u := EntryHome(v', e);
    }
    forall e | e in TableEntries(v) + t.entries ensures e in TableEntries(v') {
      if e in TableEntries(v) {
        var m, u := EntryHome(v, e);
        assert u in v'[m];
      } else {
        assert t in v'[level];
      }
    }
  }

  /** A flush in the middle of a compaction: a memtable that meets the hull of the inputs
      stays at or above the upper input level, and any other has no key of the hull. */
  lemma FlushDuringCompaction(v: Levels, r: Running, t: Table, level: nat, max: nat)
    requires AllValid(v) && RunningInputs(v, r) && t.Valid() && PlacedAt(v, t.Lo(), t.Hi(), level, max)
    ensures level > r.level ==> !t.Overlaps(HullLo(r.inputs0 + r.inputs1), HullHi(r.inputs0 + r.inputs1))
  {
    if level > r.level && t.Overlaps(HullLo(r.inputs0 + r.inputs1), HullHi(r.inputs0 + r.inputs1)) {
      PlacedClear(v, t, level, max);
      var m, f := InputMeeting(v, r, t);
      assert false;
    }
  }

  /** The hull has no gap, so a file that meets it meets an input. */
  lemma InputMeeting(v: Levels, r: Running, t: Table) returns (m: nat, f: Table)
    requires AllValid(v) && RunningInputs(v, r) && t.Valid()
    requires t.Overlaps(HullLo(r.inputs0 + r.inputs1), HullHi(r.inputs0 + r.inputs1))
    ensures r.level <= m <= r.level + 1 && f in v[m] && f.Overlaps(t.Lo(), t.Hi())
  {
    var inputs := r.inputs0 + r.inputs1;
    ValidTableRange(t);
    HullNotEmpty(v, r);
    var k := if t.Lo() < HullLo(inputs) then HullLo(inputs) else t.Lo();
    assert InHull(inputs, k);
    assert CoveredAt(inputs, k);
    f :| f in inputs && f.Covers(k);
    m := if f in r.inputs0 then r.level else r.level + 1;
  }

  lemma HullNotEmpty(v: Levels, r: Running)
    requires AllValid(v) && RunningInputs(v, r)
    ensures HullLo(r.inputs0) <= HullHi(r.inputs0)
    ensures HullLo(r.inputs0 + r.inputs1) <= HullLo(r.inputs0)
    ensures HullHi(r.inputs0) <= HullHi(r.inputs0 + r.inputs1)
  {
    MoreFilesWiderRange(r.inputs0, r.inputs0 + r.inputs1);
    KeyRangeIsTight(r.inputs0);
    ValidTableRange(r.inputs0[0]);
  }

  lemma AddKeepsRunning(v: Levels, r: Running, t: Table, level: nat, v': Levels)
    requires RunningOk(v, r) && Adds(v, t, level, v') && level < NUM_LEVELS
    requires forall m, u :: 0 <= m < NUM_LEVELS && u in v[m] ==> Newer(t.entries, u.entries)
    requires HullLo(r.inputs0 + r.inputs1) <= HullLo(r.inputs0) && HullHi(r.inputs0) <= HullHi(r.inputs0 + r.inputs1)
    requires level > r.level ==> !t.Overlaps(HullLo(r.inputs0 + r.inputs1), HullHi(r.inputs0 + r.inputs1))
    ensures RunningOk(v', r)
  {
    hide Covered, Newer, SortedBySmallest, HullLo, HullHi;
    assert RunningInputs(v', r);
    forall k | InHull(r.inputs0 + r.inputs1, k) && BaseLevel(r.base, r.level, k) ensures BaseLevel(v', r.level, k) {
      assert BaseLevel(v, r.level, k);
    }
  }

  lemma FlushKeepsRunning(s: State, t: Table, level: nat, max: nat, v': Levels)
    requires Inv(s) && Enabled(s, Flush(Some(t), level, max, v')) && s.running.Some?
    ensures RunningOk(v', s.running.value)
  {
    hide MemOrdered, SequencesOk, NumbersOk, ViewOk, SnapshotOk, Covered, BaseLevel, Newer, Adds, IsEdit, Blocked,
      Table.Valid;
    var v, r := s.levels, s.running.value;
    FlushAdds(s, t, level, max, v');
    FlushDuringCompaction(v, r, t, level, max);
    HullNotEmpty(v, r);
    AddKeepsRunning(v, r, t, level, v');
  }

  lemma FlushKeepsInv(s: State, step: Step)
    requires Inv(s) && Enabled(s, step) && step.Flush?
    ensures Inv(Apply(s, step))
  {
    hide LevelsOk, RunningOk, IsEdit, PlacedAt;
    var s' := Apply(s, step);
    if step.output.Some? {
      FlushKeepsLevels(s, step.output.value, step.level, step.maxGrandparentBytes, step.levels);
      FlushKeepsEntries(s, step.output.value, step.level, step.maxGrandparentBytes, step.levels);
      FlushNumbers(s, step.output.value, step.level, step.maxGrandparentBytes, step.levels);
      if s.running.Some? {
        FlushKeepsRunning(s, step.output.value, step.level, step.maxGrandparentBytes, step.levels);
      }
    }
    assert All(s') == All(s);
    SameEntriesKeepView(s, s');
  }

  lemma FlushNumbers(s: State, t: Table, level: nat, max: nat, v': Levels)
    requires Inv(s) && Enabled(s, Flush(Some(t), level, max, v'))
    ensures NumbersOk(Apply(s, Flush(Some(t), level, max, v')))
  {
    hide LevelsOk, RunningOk, SequencesOk, ViewOk, PlacedAt;
  }

  // ----- starting a compaction -----

  /** A file of the upper input level outside the inputs is newer than every input of
      that level wherever they share a user key. */
  lemma LeftBehindIsNewer(v: Levels, level: nat, inputs0: Files, inputs1: Files, g: Table, f: Table)
    requires AllValid(v) && Distinct(TableEntries(v)) && GoodChoice(v, level, inputs0, inputs1)
    requires g in v[level] && g !in inputs0 && f in inputs0
    ensures Newer(g.entries, f.entries)
  {
    hide Covered;
    KeyRangeIsTight(inputs0);
    ValidTableRange(f);
    ValidTableRange(g);
    if level > 0 {
      assert !StartsAtBoundary(LargestKey(inputs0), g);
      forall x, y | x in g.entries && y in f.entries && x.key.ukey == y.key.ukey ensures x.key.seqno > y.key.seqno {
        assert x in TableEntries(v) && y in TableEntries(v);
        if Less(g.largest, SmallestKey(inputs0)) {
          assert Less(x.key, y.key);
        }
      }
    }
  }

  lemma SmallestSnapshotBounds(s: State, sn: nat)
    requires IsSmallestSnapshot(s, sn) && forall x :: x in s.snapshots ==> x <= s.lastSeq
    ensures sn <= s.lastSeq && forall x :: x in s.snapshots ==> sn <= x
  {
    if |s.snapshots| == 0 {
      assert s.snapshots == multiset{};
    }
  }

  lemma BeginKeepsInv(s: State, r: Running)
    requires Inv(s) && Enabled(s, Begin(r))
    ensures Inv(Apply(s, Begin(r)))
  {
    hide LevelsOk, RunningOk, Newer, TableEntries, Distinct, ViewOk, GoodChoice, NoOlderLeft, IsSmallestSnapshot;
    StartedRunningOk(s, r);
    SmallestSnapshotBounds(s, r.snapshot);
    var s' := Apply(s, Begin(r));
    assert All(s') == All(s);
    SameEntriesKeepView(s, s');
  }

  lemma StartedRunningOk(s: State, r: Running)
    requires Inv(s) && CanStart(s, r)
    ensures RunningOk(s.levels, r)
  {
    hide LevelsOrdered, Level0Ordered, UniqueNumbers, MemOrdered, NumbersOk, ViewOk, Covered, NoOlderLeft, BaseLevel;
    DistinctSubset(s.written, TableEntries(s.levels));
    hide TableEntries, Distinct;
    OverlappingMembers(s.levels[r.level + 1], Some(HullLo(r.inputs0)), Some(HullHi(r.inputs0)));
    OverlappingIsSorted(s.levels[r.level + 1], Some(HullLo(r.inputs0)), Some(HullHi(r.inputs0)));
    forall g, f | g in s.levels[r.level] && g !in r.inputs0 && f in r.inputs0 ensures Newer(g.entries, f.entries) {
      LeftBehindIsNewer(s.levels, r.level, r.inputs0, r.inputs1, g, f);
    }
  }

  // ----- installing a compaction -----

  predicate IsInput(r: Running, l: nat, t: Table) {
    (l == r.level && t in r.inputs0) || (l == r.level + 1 && t in r.inputs1)
  }

  /** v' is v with the inputs replaced by the outputs. */
  ghost predicate Replaces(v: Levels, r: Running, outputs: Files, v': Levels) {
    forall l :: 0 <= l < NUM_LEVELS ==>
      && SortedBySmallest(v'[l])
      && forall t :: t in v'[l] <==> (t in v[l] && !IsInput(r, l, t)) || (l == r.level + 1 && t in outputs)
  }

  lemma DeletionsAreInputs(v: Levels, r: Running, l: nat, t: Table)
    requires UniqueNumbers(v) && InputsPresent(v, r) && l < NUM_LEVELS && t in v[l]
    ensures (l, t.number) in InputDeletions(r) <==> IsInput(r, l, t)
  {
    if (l, t.number) in InputDeletions(r) {
      var u :| u in v[l] && u.number == t.number && IsInput(r, l, u);
      assert u == t;
    }
  }

  lemma FinishReplaces(s: State, outputs: Files, v': Levels)
    requires Inv(s) && Enabled(s, Finish(outputs, v'))
    ensures Replaces(s.levels, s.running.value, outputs, v')
  {
    hide RunningOk, SequencesOk, MemOrdered, ViewOk, SnapshotOk, OutputsOk, SortedBySmallest;
    var v, r := s.levels, s.running.value;
    RunningInputsPresent(v, r);
    forall l | 0 <= l < NUM_LEVELS
      ensures SortedBySmallest(v'[l])
      ensures forall t :: t in v'[l] <==> (t in v[l] && !IsInput(r, l, t)) || (l == r.level + 1 && t in outputs)
    {
      forall t | t in v[l] ensures (l, t.number) in InputDeletions(r) <==> IsInput(r, l, t) {
        DeletionsAreInputs(v, r, l, t);
      }
    }
  }

  /** The entries outside the inputs. */
  ghost function RestTables(v: Levels, r: Running): set<Entry> {
    set m, t, e | 0 <= m < NUM_LEVELS && t in v[m] && !IsInput(r, m, t) && e in t.entries :: e
  }

  lemma InputHome(v: Levels, r: Running, e: Entry) returns (l: nat, f: Table)
    requires InputsPresent(v, r) && e in InputEntries(r)
    ensures r.level <= l <= r.level + 1 && f in v[l] && IsInput(r, l, f) && e in f.entries
  {
    if e in EntriesOf(r.inputs0) {
      l := r.level;
      f :| f in r.inputs0 && e in f.entries;
    } else {
      l := r.level + 1;
      f :| f in r.inputs1 && e in f.entries;
    }
  }

  lemma SplitEntries(v: Levels, r: Running)
    requires InputsPresent(v, r)
    ensures TableEntries(v) == RestTables(v, r) + InputEntries(r)
  {
    forall e | e in InputEntries(r) ensures e in TableEntries(v) {
      var l, f := InputHome(v, r, e);
    }
    forall e | e in TableEntries(v) ensures e in RestTables(v, r) + InputEntries(r) {
      var m, t := EntryHome(v, e);
      if IsInput(r, m, t) {
        assert e in InputEntries(r);
      }
    }
  }

  lemma ReplacedEntries(v: Levels, r: Running, outputs: Files, v': Levels)
    requires Replaces(v, r, outputs, v') && r.level + 1 < NUM_LEVELS
    ensures TableEntries(v') == RestTables(v, r) + EntriesOf(outputs)
  {
    forall e | e in TableEntries(v') ensures e in RestTables(v, r) + EntriesOf(outputs) {
      var m, t := EntryHome(v', e);
    }
    forall e | e in RestTables(v, r) ensures e in TableEntries(v') {
      var m, t :| 0 <= m < NUM_LEVELS && t in v[m] && !IsInput(r, m, t) && e in t.entries;
      assert t in v'[m];
    }
    forall e | e in EntriesOf(outputs) ensures e in TableEntries(v') {
      var t :| t in outputs && e in t.entries;
      assert t in v'[r.level + 1];
    }
  }

  /** Different files of a version share no entry. */
  lemma DifferentFilesDisjoint(v: Levels, l: nat, t: Table, m: nat, u: Table, e: Entry)
    requires LevelsOk(v) && l < NUM_LEVELS && t in v[l] && m < NUM_LEVELS && u in v[m] && (l != m || t != u)
    requires e in t.entries
    ensures e !in u.entries
  {
    if l == m && l > 0 {
      SortedPair(v[l], t, u);
      ValidTableRange(t);
      ValidTableRange(u);
    } else if l == m {
      assert t.number != u.number;
    }
  }

  lemma MemDisjoint(s: State)
    requires MemOrdered(s)
    ensures s.mem + ImmOf(s) !! TableEntries(s.levels)
  {
    hide TableEntries;
  }

  lemma RestDisjoint(v: Levels, r: Running)
    requires LevelsOk(v) && InputsPresent(v, r)
    ensures RestTables(v, r) !! InputEntries(r)
  {
    hide LevelsOk;
    forall e | e in InputEntries(r) ensures e !in RestTables(v, r) {
      var l, f := InputHome(v, r, e);
      if e in RestTables(v, r) {
        var m, t :| 0 <= m < NUM_LEVELS && t in v[m] && !IsInput(r, m, t) && e in t.entries;
        DifferentFilesDisjoint(v, l, f, m, t, e);
      }
    }
  }

  lemma RunningInputsPresent(v: Levels, r: Running)
    requires RunningOk(v, r)
    ensures InputsPresent(v, r) && r.level + 1 < NUM_LEVELS
  {
  }

  /** Sorted files made of input entries. */
  ghost predicate OutputsFit(r: Running, outputs: Files) {
    ValidFiles(outputs) && SortedLevel(outputs) && EntriesOf(outputs) <= InputEntries(r)
  }

  lemma OutputsWithin(r: Running, outputs: Files)
    requires OutputsOk(r, outputs)
    ensures OutputsFit(r, outputs)
  {
  }

  lemma InputInHull(r: Running, l: nat, f: Table, k: UserKey)
    requires IsInput(r, l, f) && f.Covers(k)
    ensures InHull(r.inputs0 + r.inputs1, k)
  {
    KeyRangeIsTight(r.inputs0 + r.inputs1);
    assert f in r.inputs0 + r.inputs1;
  }

  /** For a base-level user key every file outside the inputs is newer than they are. */
  lemma RestFileIsNewer(v: Levels, r: Running, l: nat, f: Table, m: nat, t: Table, e: Entry, x: Entry)
    requires AllValid(v) && LevelsOrdered(v) && RunningOk(v, r)
    requires l < NUM_LEVELS && f in v[l] && IsInput(r, l, f) && e in f.entries
    requires m < NUM_LEVELS && t in v[m] && !IsInput(r, m, t) && x in t.entries
    requires e.key.ukey == x.key.ukey && BaseLevel(r.base, r.level, e.key.ukey)
    ensures x.key.seqno > e.key.seqno
  {
    hide Covered;
    ValidTableRange(t);
    ValidTableRange(f);
    if m >= r.level + 2 {
      InputInHull(r, l, f, e.key.ukey);
    } else if m == r.level + 1 && l == r.level {
      KeyRangeIsTight(r.inputs0);
    }
  }

  lemma RestTablesNewer(v: Levels, r: Running)
    requires AllValid(v) && LevelsOrdered(v) && RunningOk(v, r)
    ensures NothingOlderLeft(RestTables(v, r), InputEntries(r), BaseKeys(InputEntries(r), r.base, r.level))
  {
    hide LevelsOrdered, AllValid, RunningOk, BaseLevel;
    RunningInputsPresent(v, r);
    forall e, x | e in InputEntries(r) && x in RestTables(v, r) && e.key.ukey == x.key.ukey && BaseLevel(r.base, r.level, e.key.ukey)
      ensures x.key.seqno > e.key.seqno
    {
      var l, f := InputHome(v, r, e);
      var m, t :| 0 <= m < NUM_LEVELS && t in v[m] && !IsInput(r, m, t) && x in t.entries;
      RestFileIsNewer(v, r, l, f, m, t, e, x);
    }
  }

  ghost function RestOf(s: State, r: Running): set<Entry> {
    s.mem + ImmOf(s) + RestTables(s.levels, r)
  }

  lemma FinishEntries(s: State, outputs: Files, v': Levels)
    requires Inv(s) && Enabled(s, Finish(outputs, v'))
    ensures
      var r := s.running.value;
      && RestOf(s, r) !! InputEntries(r) && All(s) == RestOf(s, r) + InputEntries(r)
      && All(Apply(s, Finish(outputs, v'))) == RestOf(s, r) + EntriesOf(outputs)
      && TableEntries(v') <= TableEntries(s.levels)
  {
    hide LevelsOk, RunningOk, IsEdit, OutputsOk, SequencesOk, MemOrdered, ViewOk, NumbersOk, SnapshotOk;
    hide TableEntries, RestTables, EntriesOf, InputEntries;
    var v, r := s.levels, s.running.value;
    FinishReplaces(s, outputs, v');
    RunningInputsPresent(v, r);
    ReplacedEntries(v, r, outputs, v');
    SplitEntries(v, r);
    RestDisjoint(v, r);
    MemDisjoint(s);
    OutputsWithin(r, outputs);
  }

  lemma FinishNothingOlder(s: State, r: Running)
    requires Inv(s) && s.running == Some(r)
    ensures NothingOlderLeft(RestOf(s, r), InputEntries(r), BaseKeys(InputEntries(r), r.base, r.level))
  {
    hide RunningOk, SequencesOk, ViewOk, NumbersOk, SnapshotOk, Level0Ordered, UniqueNumbers, LevelsOrdered, AllValid;
    hide BaseKeys, InputEntries, RestTables, TableEntries;
    RestTablesNewer(s.levels, r);
    RunningInputsPresent(s.levels, r);
    SplitEntries(s.levels, r);
  }

  lemma FinishKeepsView(s: State, outputs: Files, v': Levels)
    requires Inv(s) && Enabled(s, Finish(outputs, v'))
    ensures ViewOk(Apply(s, Finish(outputs, v')))
    ensures All(Apply(s, Finish(outputs, v'))) <= All(s)
  {
    hide LevelsOk, RunningOk, IsEdit, MemOrdered, NumbersOk, All, RestOf, InputEntries, NothingOlderLeft, ValidFiles,
      SortedLevel;
    var r, s' := s.running.value, Apply(s, Finish(outputs, v'));
    FinishEntries(s, outputs, v');
    FinishNothingOlder(s, r);
    DistinctSubset(s.written, All(s));
    CompactionKeepsView(RestOf(s, r), InputEntries(r), r.snapshot, BaseKeys(InputEntries(r), r.base, r.level));
    forall k, sn: nat | Live(s', sn) ensures Read(All(s'), k, sn) == Read(s'.written, k, sn) {
      assert sn >= r.snapshot;
      assert Live(s, sn);
    }
  }

  /** A file left at the lower input level lies on one side of all input entries. */
  lemma LeftBehindBeside(v: Levels, r: Running, h: Table, e: Entry)
    requires AllValid(v) && RunningInputs(v, r) && SortedLevel(v[r.level + 1])
    requires h in v[r.level + 1] && h !in r.inputs1 && !h.Overlaps(HullLo(r.inputs0), HullHi(r.inputs0))
    requires e in InputEntries(r)
    ensures if h.Hi() < HullLo(r.inputs0) then Less(h.largest, e.key) else Less(e.key, h.smallest)
  {
    KeyRangeIsTight(r.inputs0);
    ValidTableRange(h);
    var l, f := InputHome(v, r, e);
    ValidTableRange(f);
    if f in r.inputs0 && l == r.level {
      assert HullLo(r.inputs0) <= f.Lo() && f.Hi() <= HullHi(r.inputs0);
    } else {
      SortedPair(v[l], h, f);
    }
  }

  lemma LeftBehindBesideOutput(v: Levels, r: Running, outputs: Files, h: Table, o: Table)
    requires AllValid(v) && RunningInputs(v, r) && SortedLevel(v[r.level + 1])
    requires h in v[r.level + 1] && h !in r.inputs1 && !h.Overlaps(HullLo(r.inputs0), HullHi(r.inputs0))
    requires o in outputs && o.Valid() && EntriesOf(outputs) <= InputEntries(r)
    ensures Less(h.largest, o.smallest) || Less(o.largest, h.smallest)
  {
    var a :| a in o.entries && a.key == o.smallest;
    var b :| b in o.entries && b.key == o.largest;
    assert a in EntriesOf(outputs) && b in EntriesOf(outputs);
    LeftBehindBeside(v, r, h, a);
    LeftBehindBeside(v, r, h, b);
  }

  lemma FinishSorted(v: Levels, r: Running, outputs: Files, v': Levels)
    requires LevelsOk(v) && RunningOk(v, r) && OutputsFit(r, outputs) && Replaces(v, r, outputs, v')
    ensures forall m :: 1 <= m < NUM_LEVELS ==> SortedLevel(v'[m])
  {
    forall m | 1 <= m < NUM_LEVELS ensures SortedLevel(v'[m]) {
      if m == r.level + 1 {
        forall h, o | h in v[m] && !IsInput(r, m, h) && o in outputs ensures Less(h.largest, o.smallest) || Less(o.largest, h.smallest) {
          LeftBehindBesideOutput(v, r, outputs, h, o);
        }
        OutputsSorted(v[m], r, outputs, v'[m]);
      } else {
        SameFilesSorted(v[m], v'[m]);
      }
    }
  }

  lemma OutputsSorted(files: Files, r: Running, outputs: Files, files': Files)
    requires ValidFiles(files) && SortedLevel(files) && ValidFiles(outputs) && SortedLevel(outputs) && SortedBySmallest(files')
    requires forall t :: t in files' ==> (t in files && !IsInput(r, r.level + 1, t)) || t in outputs
    requires forall h, o :: h in files && !IsInput(r, r.level + 1, h) && o in outputs ==> Less(h.largest, o.smallest) || Less(o.largest, h.smallest)
    ensures SortedLevel(files')
  {
    forall x, y | x in files' && y in files' && x != y ensures Less(x.largest, y.smallest) || Less(y.largest, x.smallest) {
      if x in outputs && y in outputs {
        SortedPair(outputs, x, y);
      } else if x !in outputs && y !in outputs {
        SortedPair(files, x, y);
      }
    }
    DisjointSorted(files');
  }

  /** Outputs are older than every file above them and newer than every file below. */
  lemma OutputsBetween(v: Levels, r: Running, outputs: Files, o: Table, l: nat, x: Table)
    requires LevelsOrdered(v) && RunningOk(v, r) && o in outputs && EntriesOf(outputs) <= InputEntries(r)
    requires l < NUM_LEVELS && x in v[l] && !IsInput(r, l, x)
    ensures l <= r.level ==> Newer(x.entries, o.entries)
    ensures l >= r.level + 2 ==> Newer(o.entries, x.entries)
  {
    hide Covered;
    forall a, b | a in x.entries && b in o.entries && a.key.ukey == b.key.ukey
      ensures (l <= r.level ==> a.key.seqno > b.key.seqno) && (l >= r.level + 2 ==> b.key.seqno > a.key.seqno)
    {
      assert b in EntriesOf(outputs);
      var lb, f := InputHome(v, r, b);
    }
  }

  lemma FinishOrdered(v: Levels, r: Running, outputs: Files, v': Levels)
    requires LevelsOrdered(v) && RunningOk(v, r) && OutputsFit(r, outputs) && Replaces(v, r, outputs, v')
    ensures LevelsOrdered(v')
  {
    hide RunningOk;
    forall l, m, x, y | 0 <= l < m < NUM_LEVELS && x in v'[l] && y in v'[m] ensures Newer(x.entries, y.entries) {
      var oldX, oldY := x in v[l] && !IsInput(r, l, x), y in v[m] && !IsInput(r, m, y);
      if oldX && !oldY {
        OutputsBetween(v, r, outputs, y, l, x);
      } else if oldY && !oldX {
        OutputsBetween(v, r, outputs, x, m, y);
      }
    }
  }

  lemma FinishUniqueNumbers(v: Levels, r: Running, outputs: Files, v': Levels)
    requires UniqueNumbers(v) && OutputsOk(r, outputs) && Replaces(v, r, outputs, v')
    requires forall m, t :: 0 <= m < NUM_LEVELS && t in v[m] ==> t.number !in r.numbers
    ensures UniqueNumbers(v')
  {
    hide KeptSet;
    forall l, x, m, y | 0 <= l < NUM_LEVELS && x in v'[l] && 0 <= m < NUM_LEVELS && y in v'[m] && x.number == y.number
      ensures l == m && x == y
    {
      if x.number in r.numbers {
        assert x in outputs && y in outputs;
      }
    }
  }

  lemma FinishKeepsFiles(v: Levels, r: Running, outputs: Files, v': Levels)
    requires LevelsOk(v) && OutputsFit(r, outputs) && Replaces(v, r, outputs, v')
    ensures AllValid(v') && Level0Ordered(v'[0])
    ensures forall m :: 0 <= m < NUM_LEVELS ==> NoDuplicates(v'[m])
  {
    forall m | 0 <= m < NUM_LEVELS ensures NoDuplicates(v'[m]) {
      SortedBySmallestNoDuplicates(v'[m]);
    }
  }

  lemma FinishKeepsLevels(s: State, outputs: Files, v': Levels)
    requires Inv(s) && Enabled(s, Finish(outputs, v'))
    ensures LevelsOk(v')
    ensures NumbersOk(Apply(s, Finish(outputs, v')))
  {
    hide LevelsOrdered, UniqueNumbers, AllValid, Level0Ordered, NoDuplicates, SortedLevel;
    hide RunningOk, IsEdit, SequencesOk, MemOrdered, ViewOk, SnapshotOk;
    var v, r := s.levels, s.running.value;
    FinishReplaces(s, outputs, v');
    OutputsWithin(r, outputs);
    FinishKeepsFiles(v, r, outputs, v');
    FinishUniqueNumbers(v, r, outputs, v');
    FinishOrdered(v, r, outputs, v');
    FinishSorted(v, r, outputs, v');
  }

  lemma FinishKeepsInv(s: State, outputs: Files, v': Levels)
    requires Inv(s) && Enabled(s, Finish(outputs, v'))
    ensures Inv(Apply(s, Finish(outputs, v')))
  {
    hide LevelsOk, RunningOk, IsEdit, OutputsOk, NumbersOk, ViewOk;
    FinishKeepsLevels(s, outputs, v');
    FinishKeepsView(s, outputs, v');
    FinishEntries(s, outputs, v');
  }

  // ----- moving a file down -----

  lemma MoveReplaces(s: State, r: Running, v': Levels)
    requires Inv(s) && Enabled(s, Move(r, v'))
    ensures RunningOk(s.levels, r) && OutputsFit(r, r.inputs0) && Replaces(s.levels, r, r.inputs0, v')
  {
    hide SequencesOk, MemOrdered, ViewOk, SnapshotOk, NumbersOk, RunningOk, GoodChoice, LevelsOrdered, Level0Ordered;
    var v, f := s.levels, r.inputs0[0];
    StartedRunningOk(s, r);
    RunningInputsPresent(v, r);
    assert r.inputs0 == [f];
    forall l | 0 <= l < NUM_LEVELS
      ensures SortedBySmallest(v'[l])
      ensures forall t :: t in v'[l] <==> (t in v[l] && !IsInput(r, l, t)) || (l == r.level + 1 && t in r.inputs0)
    {
    }
  }

  lemma MoveUniqueNumbers(v: Levels, r: Running, v': Levels)
    requires UniqueNumbers(v) && InputsPresent(v, r) && r.inputs1 == [] && Replaces(v, r, r.inputs0, v')
    ensures UniqueNumbers(v')
    ensures forall m, t :: 0 <= m < NUM_LEVELS && t in v'[m] ==> exists l :: 0 <= l < NUM_LEVELS && t in v[l]
  {
    forall l, x, m, y | 0 <= l < NUM_LEVELS && x in v'[l] && 0 <= m < NUM_LEVELS && y in v'[m] && x.number == y.number
      ensures l == m && x == y
    {
      var lx := if x in r.inputs0 then r.level else l;
      var my := if y in r.inputs0 then r.level else m;
      assert x in v[lx] && y in v[my];
    }
  }

  lemma MoveKeepsInv(s: State, r: Running, v': Levels)
    requires Inv(s) && Enabled(s, Move(r, v'))
    ensures Inv(Apply(s, Move(r, v')))
  {
    hide LevelsOrdered, UniqueNumbers, AllValid, Level0Ordered, NoDuplicates, SortedLevel, RunningOk, OutputsFit,
      GoodChoice, IsEdit;
    hide TableEntries, EntriesOf, InputEntries, RestTables, Replaces, IsInput;
    var v, s' := s.levels, Apply(s, Move(r, v'));
    MoveReplaces(s, r, v');
    RunningInputsPresent(v, r);
    MoveUniqueNumbers(v, r, v');
    FinishKeepsFiles(v, r, r.inputs0, v');
    FinishOrdered(v, r, r.inputs0, v');
    FinishSorted(v, r, r.inputs0, v');
    ReplacedEntries(v, r, r.inputs0, v');
    SplitEntries(v, r);
    OneInput(r);
    assert All(s') == All(s);
    SameEntriesKeepView(s, s');
  }

  lemma OneInput(r: Running)
    requires r.inputs1 == []
    ensures InputEntries(r) == EntriesOf(r.inputs0)
  {
  }
}

/** A run of the engine into a state where the files a compaction leaves behind matter: the
    next compaction the code can choose brings a deleted value back. */
module BoundaryRun {
  import opened Options
  import opened DbFormat
  import opened Tables
  import opened VersionSearch
  import opened InputSelection
  import opened CompactionDrop
  import opened Lsm
  import opened LsmRuns
  import opened BoundaryFiles

  const OLDER := Entry(InternalKey(2.0, 1, Put), [7])
  const FIRST := Entry(InternalKey(1.0, 2, Put), [])
  const MARKER := Entry(InternalKey(2.0, 3, Deletion), [])
  const OVERWRITE := Entry(InternalKey(1.0, 4, Put), [])

  const BOTTOM := Table(3, 2, FIRST.key, OLDER.key, {FIRST, OLDER})
  const MIDDLE := Table(5, 1, MARKER.key, MARKER.key, {MARKER})
  const LOWER := Table(6, 2, FIRST.key, MARKER.key, {FIRST, MARKER})
  const BOUNDARY := Table(7, 1, OLDER.key, OLDER.key, {OLDER})
  const UPPER := Table(9, 1, OVERWRITE.key, OVERWRITE.key, {OVERWRITE})
  const OUTPUT := Table(10, 1, OVERWRITE.key, OVERWRITE.key, {OVERWRITE})

  /** Bytes of level-2 files a flushed memtable may lie over. */
  const MAX_GRANDPARENT_BYTES := 100

  /** A version with files on levels 1 and 2 only. */
  function Two(upper: Files, lower: Files): Levels {
    [[], upper, lower, [], [], [], []]
  }

  /** One file on level 1; on level 2 two files that share user key 2.0. */
  function SplitLevels(): Levels {
    Two([UPPER], [LOWER, BOUNDARY])
  }

  function AfterLevels(): Levels {
    Two([], [OUTPUT, BOUNDARY])
  }

  ghost function SplitState(): State {
    State({}, None, SplitLevels(), 4, 4, 10, multiset{}, None, {OLDER, FIRST, MARKER, OVERWRITE})
  }

  function SplitRunning(): Running {
    Running(1, [UPPER], [LOWER], 4, SplitLevels(), [])
  }

  lemma AllTables()
    ensures BOTTOM.Valid() && MIDDLE.Valid() && LOWER.Valid() && BOUNDARY.Valid() && UPPER.Valid() && OUTPUT.Valid()
  {
    assert FIRST in BOTTOM.entries && OLDER in BOTTOM.entries && MARKER in MIDDLE.entries && FIRST in LOWER.entries && MARKER in LOWER.entries;
    assert OLDER in BOUNDARY.entries && OVERWRITE in UPPER.entries && OVERWRITE in OUTPUT.entries;
  }

  lemma TwoEntries(upper: Files, lower: Files)
    ensures TableEntries(Two(upper, lower)) == EntriesOf(upper) + EntriesOf(lower)
  {
    var v := Two(upper, lower);
    assert v[1] == upper && v[2] == lower;
    forall e | e in EntriesOf(upper) + EntriesOf(lower) ensures e in TableEntries(v) {
      assert (exists t :: t in v[1] && e in t.entries) || (exists t :: t in v[2] && e in t.entries);
    }
  }

  lemma TwoEdit(v: Levels, deleted: set<(nat, nat)>, added: set<(nat, Table)>, upper: Files, lower: Files)
    requires v[0] == [] && forall l :: 3 <= l < NUM_LEVELS ==> v[l] == []
    requires forall p :: p in added ==> p.0 == 1 || p.0 == 2
    requires SortedBySmallest(upper) && SortedBySmallest(lower)
    requires forall t :: t in upper <==> (t in v[1] && (1, t.number) !in deleted) || (1, t) in added
    requires forall t :: t in lower <==> (t in v[2] && (2, t.number) !in deleted) || (2, t) in added
    ensures IsEdit(v, deleted, added, Two(upper, lower))
  {
    hide SortedBySmallest;
    var w := Two(upper, lower);
    forall l | 0 <= l < NUM_LEVELS
      ensures SortedBySmallest(w[l]) && forall t :: t in w[l] <==> (t in v[l] && (l, t.number) !in deleted) || (l, t) in added
    {
      if l != 1 && l != 2 {
        EmptySorted();
        assert w[l] == [] && v[l] == [];
      }
    }
  }

  lemma EmptySorted()
    ensures SortedBySmallest([])
  {
  }

  // ----- the run -----

  /** One entry is written and the memtable it lies in becomes immutable. */
  lemma WriteAndSwitch(s: State, e: Entry)
    requires Reachable(s) && s.mem == {} && s.imm.None? && e.key.seqno == s.nextSeq + 1 < MAX_SEQUENCE
    ensures Reachable(s.(imm := Some({e}), lastSeq := s.nextSeq + 1, nextSeq := s.nextSeq + 1, nextFile := s.nextFile + 1, written := s.written + {e}))
  {
    hide Reachable, PlacedAt, IsEdit, OutputsOk, CanStart;
    var a := s.(mem := {e}, nextSeq := s.nextSeq + 1, written := s.written + {e});
    var b := a.(lastSeq := a.nextSeq);
    ReachNext(s, Insert(e));
    assert Apply(s, Insert(e)) == a;
    ReachNext(a, Publish);
    assert Apply(a, Publish) == b;
    ReachNext(b, Switch);
  }

  lemma FlushTo(s: State, t: Table, level: nat, levels: Levels)
    requires Reachable(s) && s.imm == Some(t.entries) && t.Valid() && t.number == s.nextFile
    requires PlacedAt(s.levels, t.Lo(), t.Hi(), level, MAX_GRANDPARENT_BYTES) && IsEdit(s.levels, {}, {(level, t)}, levels)
    ensures Reachable(s.(imm := None, levels := levels, nextFile := s.nextFile + 1))
  {
    hide Reachable, PlacedAt, IsEdit, OutputsOk, CanStart, Table.Valid;
    ReachNext(s, Flush(Some(t), level, MAX_GRANDPARENT_BYTES, levels));
  }

  lemma NothingMeets(begin: Option<UserKey>, end: Option<UserKey>)
    ensures Overlapping([], begin, end) == [] && !SomeMeets([], begin, end)
  {
  }

  /** Above nothing a memtable goes down to level 2, above a level-2 file it meets to level 1. */
  lemma Placed(t: Table, lower: Files)
    requires lower != [] ==> SomeMeets(lower, Some(t.Lo()), Some(t.Hi()))
    requires TotalFileSize(Overlapping(lower, Some(t.Lo()), Some(t.Hi()))) <= MAX_GRANDPARENT_BYTES
    ensures PlacedAt(Two([], lower), t.Lo(), t.Hi(), if lower == [] then 2 else 1, MAX_GRANDPARENT_BYTES)
  {
    hide SomeMeets, Overlapping;
    var v := Two([], lower);
    NothingMeets(Some(t.Lo()), Some(t.Hi()));
    assert v[0] == [] && v[1] == [] && v[2] == lower && v[3] == [];
  }

  ghost function BottomState(): State {
    State({}, None, Two([], [BOTTOM]), 2, 2, 4, multiset{}, None, {OLDER, FIRST})
  }

  ghost function MarkedState(): State {
    State({}, None, Two([MIDDLE], [BOTTOM]), 3, 3, 6, multiset{2}, None, {OLDER, FIRST, MARKER})
  }

  ghost function CutState(): State {
    State({}, None, Two([], [LOWER, BOUNDARY]), 3, 3, 8, multiset{2}, None, {OLDER, FIRST, MARKER})
  }

  /** The first memtable holds a value for each of two user keys. */
  lemma ReachBottom()
    ensures Reachable(BottomState())
  {
    hide Reachable, PlacedAt, IsEdit, Table.Valid, Enabled, Apply, Two;
    InitReachable();
    FirstWrites();
    BottomEdit();
    AllTables();
    Placed(BOTTOM, []);
    var s := State({}, Some({OLDER, FIRST}), Two([], []), 2, 2, 3, multiset{}, None, {OLDER, FIRST});
    assert {OLDER, FIRST} == BOTTOM.entries;
    FlushTo(s, BOTTOM, 2, Two([], [BOTTOM]));
  }

  lemma FirstWrites()
    ensures Reachable(State({}, Some({OLDER, FIRST}), Two([], []), 2, 2, 3, multiset{}, None, {OLDER, FIRST}))
  {
    hide Reachable, PlacedAt, IsEdit, OutputsOk, CanStart;
    InitReachable();
    var v := Two([], []);
    assert Init().levels == v;
    ReachNext(Init(), Insert(OLDER));
    var a := State({OLDER}, None, v, 0, 1, 2, multiset{}, None, {OLDER});
    assert Apply(Init(), Insert(OLDER)) == a;
    ReachNext(a, Insert(FIRST));
    var b := State({OLDER, FIRST}, None, v, 0, 2, 2, multiset{}, None, {OLDER, FIRST});
    assert Apply(a, Insert(FIRST)) == b;
    ReachNext(b, Publish);
    ReachNext(b.(lastSeq := 2), Switch);
  }

  lemma BottomEdit()
    ensures IsEdit(Two([], []), {}, {(2, BOTTOM)}, Two([], [BOTTOM]))
    ensures TotalFileSize(Overlapping([], Some(BOTTOM.Lo()), Some(BOTTOM.Hi()))) <= MAX_GRANDPARENT_BYTES
  {
    TwoEdit(Two([], []), {}, {(2, BOTTOM)}, [], [BOTTOM]);
  }

  /** A deletion marker arrives while a snapshot of the value is held. */
  lemma ReachMarked()
    ensures Reachable(MarkedState())
  {
    hide Reachable, PlacedAt, IsEdit, Table.Valid, Two, SomeMeets, Overlapping, OutputsOk, CanStart;
    ReachBottom();
    ReachNext(BottomState(), Acquire);
    var a := BottomState().(snapshots := multiset{2});
    assert Apply(BottomState(), Acquire) == a;
    WriteAndSwitch(a, MARKER);
    var b := State({}, Some({MARKER}), Two([], [BOTTOM]), 3, 3, 5, multiset{2}, None, {OLDER, FIRST, MARKER});
    assert a.written + {MARKER} == b.written;
    AllTables();
    MiddleEdit();
    Placed(MIDDLE, [BOTTOM]);
    FlushTo(b, MIDDLE, 1, Two([MIDDLE], [BOTTOM]));
  }

  lemma OnlyOverlap(t: Table, begin: Option<UserKey>, end: Option<UserKey>)
    requires Meets(t, begin, end)
    ensures Overlapping([t], begin, end) == [t] && SomeMeets([t], begin, end)
  {
    hide Meets;
    assert [t][..0] == [] && t in [t];
    assert Overlapping([], begin, end) == [];
  }

  lemma OneSize(t: Table)
    ensures TotalFileSize([t]) == t.size
  {
    assert [t][..0] == [];
    assert TotalFileSize([]) == 0;
  }

  lemma MiddleEdit()
    ensures IsEdit(Two([], [BOTTOM]), {}, {(1, MIDDLE)}, Two([MIDDLE], [BOTTOM]))
    ensures Overlapping([BOTTOM], Some(MIDDLE.Lo()), Some(MIDDLE.Hi())) == [BOTTOM]
    ensures SomeMeets([BOTTOM], Some(MIDDLE.Lo()), Some(MIDDLE.Hi())) && TotalFileSize([BOTTOM]) <= MAX_GRANDPARENT_BYTES
  {
    hide Overlapping, SomeMeets, TotalFileSize;
    TwoEdit(Two([], [BOTTOM]), {}, {(1, MIDDLE)}, [MIDDLE], [BOTTOM]);
    OnlyOverlap(BOTTOM, Some(MIDDLE.Lo()), Some(MIDDLE.Hi()));
    OneSize(BOTTOM);
  }

  function CutRunning(numbers: seq<nat>): Running {
    Running(1, [MIDDLE], [BOTTOM], 2, Two([MIDDLE], [BOTTOM]), numbers)
  }

  /** The snapshot keeps marker and value, and the compaction cuts its output between them. */
  lemma ReachCut()
    ensures Reachable(CutState())
  {
    hide Reachable, IsEdit, OutputsOk, CanStart, Two, PlacedAt, InputDeletions;
    ReachMarked();
    CutStarts();
    CutOutputs();
    var s := MarkedState();
    ReachNext(s, Begin(CutRunning([])));
    var a := s.(running := Some(CutRunning([])));
    ReachNext(a, Allocate);
    var b := s.(running := Some(CutRunning([6])), nextFile := 7);
    assert CutRunning([]).numbers + [6] == [6];
    ReachNext(b, Allocate);
    var c := s.(running := Some(CutRunning([6, 7])), nextFile := 8);
    assert CutRunning([6]).numbers + [7] == [6, 7];
    BothAdded(c.running.value);
    ReachNext(c, Finish([LOWER, BOUNDARY], Two([], [LOWER, BOUNDARY])));
  }

  lemma BothAdded(r: Running)
    requires r.level == 1
    ensures (set o | o in [LOWER, BOUNDARY] :: (r.level + 1, o)) == {(2, LOWER), (2, BOUNDARY)}
  {
    assert LOWER in [LOWER, BOUNDARY] && BOUNDARY in [LOWER, BOUNDARY];
  }

  lemma CutStarts()
    ensures CanStart(MarkedState(), CutRunning([]))
  {
    hide Overlapping, Covered, SmallestKey, LargestKey, SomeMeets, TotalFileSize;
    OneFile(MIDDLE);
    MiddleEdit();
    CutCovered();
    assert MarkedState().snapshots == multiset{2} && |multiset{2}| == 1;
    var v := Two([MIDDLE], [BOTTOM]);
    assert v[1] == [MIDDLE] && v[2] == [BOTTOM];
  }

  lemma CutCovered()
    ensures Covered([MIDDLE] + [BOTTOM])
  {
    hide SmallestKey, LargestKey;
    var both := [MIDDLE] + [BOTTOM];
    KeyRangeIsTight(both);
    assert forall t :: t in both ==> t == MIDDLE || t == BOTTOM;
    forall k | InHull(both, k) ensures CoveredAt(both, k) {
      assert BOTTOM in both && BOTTOM.Covers(k);
    }
  }

  lemma CutKept()
    ensures
      var r := CutRunning([6, 7]);
      KeptSet(InputEntries(r), r.snapshot, BaseKeys(InputEntries(r), r.base, r.level)) == {FIRST, OLDER, MARKER}
  {
    var r := CutRunning([6, 7]);
    assert MIDDLE in r.inputs0 && BOTTOM in r.inputs1;
    assert InputEntries(r) == {FIRST, OLDER, MARKER};
  }

  lemma CutOutputs()
    ensures OutputsOk(CutRunning([6, 7]), [LOWER, BOUNDARY])
    ensures IsEdit(Two([MIDDLE], [BOTTOM]), InputDeletions(CutRunning([6, 7])), {(2, LOWER), (2, BOUNDARY)}, Two([], [LOWER, BOUNDARY]))
  {
    hide KeptSet, BaseKeys, InputEntries, Two, Table.Valid, IsEdit, InputDeletions;
    AllTables();
    CutKept();
    var r, outputs := CutRunning([6, 7]), [LOWER, BOUNDARY];
    assert LOWER in outputs && BOUNDARY in outputs;
    assert EntriesOf(outputs) == {FIRST, OLDER, MARKER};
    CutEdit();
  }

  lemma CutEdit()
    ensures IsEdit(Two([MIDDLE], [BOTTOM]), InputDeletions(CutRunning([6, 7])), {(2, LOWER), (2, BOUNDARY)}, Two([], [LOWER, BOUNDARY]))
  {
    var r := CutRunning([6, 7]);
    assert MIDDLE in r.inputs0 && BOTTOM in r.inputs1;
    assert InputDeletions(r) == {(1, 5), (2, 3)};
    TwoEdit(Two([MIDDLE], [BOTTOM]), {(1, 5), (2, 3)}, {(2, LOWER), (2, BOUNDARY)}, [], [LOWER, BOUNDARY]);
  }

  /** The snapshot is gone, and another memtable lands above the first of the two files. */
  lemma ReachSplit()
    ensures Reachable(SplitState())
  {
    hide Reachable, PlacedAt, IsEdit, Table.Valid, Two, SomeMeets, Overlapping, OutputsOk, CanStart;
    ReachCut();
    ReachNext(CutState(), Release(2));
    var a := CutState().(snapshots := multiset{});
    assert Apply(CutState(), Release(2)) == a;
    WriteAndSwitch(a, OVERWRITE);
    var b := State({}, Some({OVERWRITE}), Two([], [LOWER, BOUNDARY]), 4, 4, 9, multiset{}, None, {OLDER, FIRST, MARKER, OVERWRITE});
    assert a.written + {OVERWRITE} == b.written;
    AllTables();
    UpperEdit();
    Placed(UPPER, [LOWER, BOUNDARY]);
    FlushTo(b, UPPER, 1, SplitLevels());
  }

  lemma UpperEdit()
    ensures IsEdit(Two([], [LOWER, BOUNDARY]), {}, {(1, UPPER)}, Two([UPPER], [LOWER, BOUNDARY]))
    ensures SomeMeets([LOWER, BOUNDARY], Some(UPPER.Lo()), Some(UPPER.Hi()))
    ensures TotalFileSize(Overlapping([LOWER, BOUNDARY], Some(UPPER.Lo()), Some(UPPER.Hi()))) <= MAX_GRANDPARENT_BYTES
  {
    hide Overlapping, TotalFileSize;
    TwoEdit(Two([], [LOWER, BOUNDARY]), {}, {(1, UPPER)}, [UPPER], [LOWER, BOUNDARY]);
    OneFile(UPPER);
    UpperMeetsLower();
    OneSize(LOWER);
    assert LOWER in [LOWER, BOUNDARY] && Meets(LOWER, Some(UPPER.Lo()), Some(UPPER.Hi()));
  }

  // ----- what can be chosen there -----

  lemma Repeats(files: Files, t: Table)
    requires |files| > 1 && forall u :: u in files ==> u == t
    ensures !NoDuplicates(files)
  {
    assert files[0] in files && files[1] in files;
  }

  lemma OneUpper(inputs0: Files)
    requires inputs0 != [] && NoDuplicates(inputs0) && forall t :: t in inputs0 ==> t == UPPER
    ensures inputs0 == [UPPER]
  {
    hide NoDuplicates;
    assert inputs0[0] in inputs0;
    if |inputs0| > 1 {
      Repeats(inputs0, UPPER);
    }
  }

  lemma OverlappingFirst(a: Table, b: Table, begin: Option<UserKey>, end: Option<UserKey>)
    requires Meets(a, begin, end) && !Meets(b, begin, end)
    ensures Overlapping([a, b], begin, end) == [a]
  {
    hide Meets;
    assert [a, b][..1] == [a] && [a][..0] == [];
    assert Overlapping([a], begin, end) == [a];
  }

  lemma UpperMeetsLower()
    ensures Overlapping([LOWER, BOUNDARY], Some(HullLo([UPPER])), Some(HullHi([UPPER]))) == [LOWER]
  {
    hide Overlapping;
    OneFile(UPPER);
    OverlappingFirst(LOWER, BOUNDARY, Some(1.0), Some(1.0));
  }

  lemma SplitCovered()
    ensures Covered([UPPER] + [LOWER])
  {
    hide SmallestKey, LargestKey;
    var both := [UPPER] + [LOWER];
    KeyRangeIsTight(both);
    assert forall t :: t in both ==> t == UPPER || t == LOWER;
    forall k | InHull(both, k) ensures CoveredAt(both, k) {
      assert LOWER in both && LOWER.Covers(k);
    }
  }

  /** Whatever is chosen to compact from level 1 is the one file there and the first of the
      two below. */
  lemma OnlyChoice(inputs0: Files, inputs1: Files)
    ensures GoodChoice(SplitLevels(), 1, inputs0, inputs1) <==> inputs0 == [UPPER] && inputs1 == [LOWER]
  {
    hide Overlapping, Covered, SmallestKey, LargestKey;
    assert SplitLevels()[1] == [UPPER] && SplitLevels()[2] == [LOWER, BOUNDARY];
    UpperMeetsLower();
    SplitCovered();
    OneFile(UPPER);
    if GoodChoice(SplitLevels(), 1, inputs0, inputs1) {
      OneUpper(inputs0);
    }
  }

  // ----- what compacting them does -----

  function NumberedRunning(): Running {
    SplitRunning().(numbers := [10])
  }

  ghost function StartedState(): State {
    SplitState().(running := Some(SplitRunning()))
  }

  ghost function ReadyState(): State {
    SplitState().(running := Some(NumberedRunning()), nextFile := 11)
  }

  ghost function AfterState(): State {
    SplitState().(running := None, levels := AfterLevels(), nextFile := 11)
  }

  lemma SplitKept()
    ensures
      var r := NumberedRunning();
      KeptSet(InputEntries(r), r.snapshot, BaseKeys(InputEntries(r), r.base, r.level)) == {OVERWRITE}
  {
    var r := NumberedRunning();
    assert UPPER in r.inputs0 && LOWER in r.inputs1;
    assert InputEntries(r) == {OVERWRITE, FIRST, MARKER};
    assert Hidden(InputEntries(r), 4, FIRST);
    assert 2.0 in BaseKeys(InputEntries(r), r.base, r.level);
  }

  lemma OutputOk()
    ensures OutputsOk(NumberedRunning(), [OUTPUT])
  {
    hide KeptSet, BaseKeys, InputEntries, SplitLevels, Table.Valid;
    AllTables();
    SplitKept();
    assert OUTPUT in [OUTPUT];
    assert EntriesOf([OUTPUT]) == {OVERWRITE};
  }

  lemma OutputFits()
    ensures IsEdit(SplitLevels(), InputDeletions(NumberedRunning()), {(2, OUTPUT)}, AfterLevels())
  {
    var r := NumberedRunning();
    assert UPPER in r.inputs0 && LOWER in r.inputs1;
    assert InputDeletions(r) == {(1, 9), (2, 6)};
    TwoEdit(SplitLevels(), {(1, 9), (2, 6)}, {(2, OUTPUT)}, [], [OUTPUT, BOUNDARY]);
  }

  lemma OneAdded(r: Running, outputs: Files, t: Table)
    requires outputs == [t]
    ensures (set o | o in outputs :: (r.level + 1, o)) == {(r.level + 1, t)}
  {
    assert t in outputs;
  }

  /** Taking an output number and installing the output are steps the compaction makes. */
  lemma SplitSteps()
    ensures Enabled(StartedState(), Allocate) && Apply(StartedState(), Allocate) == ReadyState()
    ensures Enabled(ReadyState(), Finish([OUTPUT], AfterLevels()))
    ensures Apply(ReadyState(), Finish([OUTPUT], AfterLevels())) == AfterState()
  {
    hide OutputsOk, IsEdit, InputDeletions, SplitLevels, AfterLevels;
    OutputOk();
    OutputFits();
    assert Apply(StartedState(), Allocate).running.value == NumberedRunning();
    OneAdded(ReadyState().running.value, [OUTPUT], OUTPUT);
  }

  /** The state is reached by a run from a new database, the inputs are those the code has to
      choose, the compaction runs by its own rules - and a deleted value is back. */
  lemma BoundaryFileLeftBehind()
    ensures
      var s, r := SplitState(), SplitRunning();
      var started := s.(running := Some(r));
      && Reachable(s) && Inv(s)
      && GoodChoice(s.levels, r.level, r.inputs0, r.inputs1) && r.base == s.levels && IsSmallestSnapshot(s, r.snapshot)
      && !NoneLeftBehind(s.levels, r.level, r.inputs1)
      && Enabled(started, Allocate)
      && var ready := Apply(started, Allocate);
         Enabled(ready, Finish([OUTPUT], AfterLevels()))
         && Read(All(s), 2.0, 4) == NotFound
         && Read(All(Apply(ready, Finish([OUTPUT], AfterLevels()))), 2.0, 4) == Found([7])
  {
    hide Inv, Reachable, TableEntries, Read, GoodChoice, NoneLeftBehind, Enabled, Apply, SplitLevels, AfterLevels;
    ReachSplit();
    ReachableInv(SplitState());
    OnlyChoice([UPPER], [LOWER]);
    LowerEndsAtBoundary();
    SplitReads();
    SplitSteps();
    assert All(SplitState()) == TableEntries(SplitLevels());
    assert All(AfterState()) == TableEntries(AfterLevels());
  }

  lemma LowerEndsAtBoundary()
    ensures !NoneLeftBehind(SplitLevels(), 1, [LOWER])
  {
    OneFile(LOWER);
    assert StartsAtBoundary(LargestKey([LOWER]), BOUNDARY) && BOUNDARY in SplitLevels()[2];
  }

  lemma SplitEntries()
    ensures TableEntries(SplitLevels()) == {OLDER, FIRST, MARKER, OVERWRITE}
    ensures TableEntries(AfterLevels()) == {OVERWRITE, OLDER}
  {
    hide TableEntries;
    TwoEntries([UPPER], [LOWER, BOUNDARY]);
    TwoEntries([], [OUTPUT, BOUNDARY]);
    assert UPPER in [UPPER] && LOWER in [LOWER, BOUNDARY] && BOUNDARY in [LOWER, BOUNDARY];
    assert OUTPUT in [OUTPUT, BOUNDARY] && BOUNDARY in [OUTPUT, BOUNDARY];
  }

  lemma SplitReads()
    ensures Read(TableEntries(SplitLevels()), 2.0, 4) == NotFound
    ensures Read(TableEntries(AfterLevels()), 2.0, 4) == Found([7])
  {
    hide TableEntries, Read;
    SplitEntries();
    var before := {OLDER, FIRST, MARKER, OVERWRITE};
    assert Newest(before, 2.0, 4, MARKER);
    ReadNewest(before, 2.0, 4, MARKER);
    assert Newest({OVERWRITE, OLDER}, 2.0, 4, OLDER);
    ReadNewest({OVERWRITE, OLDER}, 2.0, 4, OLDER);
  }
}

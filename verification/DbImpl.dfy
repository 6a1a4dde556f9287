/** The database object: memtables, the current version, snapshots and the running
    compaction, updated in place.  Each method performs one step (or a few) of the state
    machine in Lsm, so the invariant and what it says about reads carry over. */
module DbImpl {
  import opened Options
  import opened Coding
  import opened DbFormat
  import opened Tables
  import opened VersionSearch
  import opened InputSelection
  import opened CompactionDrop
  import CompactionInput
  import CompactionWork
  import DbIter
  import InternalIterator
  import Merger
  import opened Lsm
  import opened LsmProof
  import opened LsmRuns
  import opened BoundaryFiles
  import opened VersionBuilder
  import opened Lookups
  import opened TableFiles
  import BatchReads
  import opened Ranks
  import VersionGet
  import WriteBatches

  /** The key range of a nonempty set of entries: a table file built from it. */
  method BuildTable(entries: set<Entry>, number: nat, size: nat) returns (t: Table)
    requires entries != {} && forall e :: e in entries ==> e.key.seqno <= MAX_SEQUENCE
    ensures t.Valid() && t.entries == entries && t.number == number
  {
    var first :| first in entries;
    var smallest, largest := first, first;
    var rest := entries - {first};
    while rest != {}
      invariant rest <= entries && smallest in entries && largest in entries
      invariant forall e :: e in entries - rest ==> !Less(e.key, smallest.key) && !Less(largest.key, e.key)
      decreases rest
    {
      var e :| e in rest;
      if Less(e.key, smallest.key) {
        smallest := e;
      }
      if Less(largest.key, e.key) {
        largest := e;
      }
      rest := rest - {e};
    }
    t := Table(number, size, smallest.key, largest.key, entries);
  }

  // ----- output files of a compaction -----

  /** Entries of different chunks of a sorted list are ordered like the chunks. */
  lemma {:induction false} ChunksOrdered(chunks: seq<seq<Entry>>, i: nat, j: nat, x: Entry, y: Entry)
    requires Sorted(Concat(chunks)) && i < j < |chunks| && x in chunks[i] && y in chunks[j]
    ensures Less(x.key, y.key)
  {
    var rest, last := chunks[..|chunks| - 1], chunks[|chunks| - 1];
    var all := Concat(rest) + last;
    assert Concat(chunks) == all;
    if j == |chunks| - 1 {
      ChunkInConcat(rest, i, x);
      var p :| 0 <= p < |Concat(rest)| && Concat(rest)[p] == x;
      var q :| 0 <= q < |last| && last[q] == y;
      assert all[p] == x && all[|Concat(rest)| + q] == y;
    } else {
      assert forall p :: 0 <= p < |Concat(rest)| ==> all[p] == Concat(rest)[p];
      ChunksOrdered(rest, i, j, x, y);
    }
  }

  /** The file runs from the first to the last entry of the list. */
  ghost predicate Spans(t: Table, es: seq<Entry>) {
    es != [] && t.smallest == es[0].key && t.largest == es[|es| - 1].key
  }

  lemma TableSpans(t: Table, es: seq<Entry>)
    requires t.Valid() && es != [] && Sorted(es) && t.entries == SetOf(es)
    ensures Spans(t, es)
  {
    hide Less;
    var x :| x in t.entries && x.key == t.smallest;
    var y :| y in t.entries && y.key == t.largest;
    var i :| 0 <= i < |es| && es[i] == x;
    var j :| 0 <= j < |es| && es[j] == y;
    assert es[0] in t.entries && es[|es| - 1] in t.entries;
    assert i == 0;
    assert j == |es| - 1;
  }

  lemma {:induction false} ChunkSorted(chunks: seq<seq<Entry>>, i: nat)
    requires Sorted(Concat(chunks)) && i < |chunks|
    ensures Sorted(chunks[i])
  {
    hide Less;
    var front, last := chunks[..|chunks| - 1], chunks[|chunks| - 1];
    var all := Concat(chunks);
    assert all == Concat(front) + last;
    if i < |front| {
      assert forall k :: 0 <= k < |Concat(front)| ==> all[k] == Concat(front)[k];
      ChunkSorted(front, i);
    } else {
      assert forall k :: 0 <= k < |last| ==> all[|Concat(front)| + k] == last[k];
    }
  }

  /** One file per chunk, numbered from `number` on. */
  method MakeOutputs(chunks: seq<seq<Entry>>, number: nat) returns (outputs: Files)
    requires Sorted(Concat(chunks)) && (forall c :: c in chunks ==> c != [])
    requires forall e :: e in Concat(chunks) ==> e.key.seqno <= MAX_SEQUENCE
    ensures |outputs| == |chunks| && ValidFiles(outputs) && SortedLevel(outputs)
    ensures forall i :: 0 <= i < |outputs| ==> outputs[i].number == number + i
    ensures EntriesOf(outputs) == SetOf(Concat(chunks))
    ensures forall i :: 0 <= i < |outputs| ==> Spans(outputs[i], chunks[i])
  {
    hide Spans;
    outputs := [];
    for i := 0 to |chunks|
      invariant |outputs| == i
      invariant forall j :: 0 <= j < i ==>
        outputs[j].Valid() && outputs[j].number == number + j && outputs[j].entries == SetOf(chunks[j]) && Spans(outputs[j], chunks[j])
    {
      var c := chunks[i];
      assert c in chunks;
      var es := set e | e in c;
      assert c[0] in es;
      forall e | e in c ensures e.key.seqno <= MAX_SEQUENCE {
        ChunkInConcat(chunks, i, e);
      }
      var t := BuildTable(es, number + i, |c|);
      ChunkSorted(chunks, i);
      TableSpans(t, c);
      outputs := outputs + [t];
    }
    forall i, j | 0 <= i < j < |outputs| ensures Less(outputs[i].largest, outputs[j].smallest) {
      var x :| x in outputs[i].entries && x.key == outputs[i].largest;
      var y :| y in outputs[j].entries && y.key == outputs[j].smallest;
      ChunksOrdered(chunks, i, j, x, y);
    }
    forall e ensures e in EntriesOf(outputs) <==> e in SetOf(Concat(chunks)) {
      if e in EntriesOf(outputs) {
        var t :| t in outputs && e in t.entries;
        var j :| 0 <= j < |outputs| && outputs[j] == t;
        ChunkInConcat(chunks, j, e);
      }
      if e in Concat(chunks) {
        var j := ConcatInChunk(chunks, e);
        assert outputs[j] in outputs;
      }
    }
  }

  // ----- why the steps are enabled -----

  lemma InvLevels(s: State)
    requires Inv(s)
    ensures LevelsOk(s.levels) && s.lastSeq < MAX_SEQUENCE
    ensures forall sn :: sn in s.snapshots ==> sn <= s.lastSeq
    ensures forall m, u :: 0 <= m < NUM_LEVELS && u in s.levels[m] ==> u.number < s.nextFile
  {
    hide LevelsOk, MemOrdered, ViewOk, RunningOk;
  }

  lemma EditSorted(v: Levels, deleted: set<(nat, nat)>, added: set<(nat, Table)>, v': Levels)
    requires IsEdit(v, deleted, added, v')
    ensures forall l :: 0 <= l < NUM_LEVELS ==> SortedBySmallest(v'[l])
  {
  }

  lemma RemoveAt(ns: seq<nat>, i: nat)
    requires i < |ns|
    ensures multiset(ns[..i] + ns[i + 1..]) == multiset(ns) - multiset{ns[i]}
  {
    var before, after := ns[..i], ns[i + 1..];
    assert ns == before + ([ns[i]] + after);
    assert multiset(ns) == multiset(before) + multiset([ns[i]] + after);
    assert multiset([ns[i]] + after) == multiset{ns[i]} + multiset(after);
  }

  lemma RemoveKeepsAscending(ns: seq<nat>, i: nat)
    requires i < |ns| && Ascending(ns)
    ensures Ascending(ns[..i] + ns[i + 1..])
  {
  }

  lemma LevelsOkIsGood(v: Levels)
    requires LevelsOk(v)
    ensures GoodLevels(v) && SearchableLevels(v)
    ensures forall m :: 0 <= m < NUM_LEVELS ==> NonEmptyRanges(v[m])
  {
    hide UniqueNumbers, Level0Ordered, LevelsOrdered;
    forall m | 0 <= m < NUM_LEVELS ensures NonEmptyRanges(v[m]) && SequencesFit(v[m]) {
      forall t | t in v[m] ensures !Less(t.largest, t.smallest) && t.largest.seqno <= MAX_SEQUENCE {
        ValidTableRange(t);
      }
    }
  }

  lemma FlushFits(s: State)
    requires Inv(s) && s.imm.Some?
    ensures SearchableLevels(s.levels)
    ensures forall m, u :: 0 <= m < NUM_LEVELS && u in s.levels[m] ==> u.number < s.nextFile
    ensures forall e :: e in s.imm.value ==> e.key.seqno <= MAX_SEQUENCE
  {
    hide LevelsOk, MemOrdered, ViewOk, RunningOk, SearchableLevels;
    LevelsOkIsGood(s.levels);
    assert s.imm.value <= All(s);
  }

  lemma FreshOne(files: Files, e: Edit, l: nat)
    requires forall t, u :: t in NewAt(e.newFiles, l) && u in files ==> t.number != u.number
    requires forall i, j :: 0 <= i < j < |NewAt(e.newFiles, l)| ==> NewAt(e.newFiles, l)[i].number != NewAt(e.newFiles, l)[j].number
    ensures FreshAdds(SetOfFiles(files), [e], l)
  {
    assert [e][..0] == [];
    assert AddedBy([], l) == {};
  }

  lemma FreshNewFile(v: Levels, level: nat, t: Table, e: Edit)
    requires forall m, u :: 0 <= m < NUM_LEVELS && u in v[m] ==> u.number < t.number
    requires e.newFiles == [(level, t)]
    ensures forall l :: 0 <= l < NUM_LEVELS ==> FreshAdds(SetOfFiles(v[l]), [e], l)
  {
    forall l | 0 <= l < NUM_LEVELS ensures FreshAdds(SetOfFiles(v[l]), [e], l) {
      NewAtOne(l, level, t);
      FreshOne(v[l], e, l);
    }
  }

  lemma FreshMovedFile(v: Levels, level: nat, f: Table, e: Edit)
    requires UniqueNumbers(v) && level + 1 < NUM_LEVELS && f in v[level]
    requires e.newFiles == [(level + 1, f)]
    ensures forall l :: 0 <= l < NUM_LEVELS ==> FreshAdds(SetOfFiles(v[l]), [e], l)
  {
    forall l | 0 <= l < NUM_LEVELS ensures FreshAdds(SetOfFiles(v[l]), [e], l) {
      NewAtOne(l, level + 1, f);
      FreshOne(v[l], e, l);
    }
  }

  /** The oldest live snapshot is the first of the list, or the last sequence. */
  lemma OldestSnapshot(s: State, snapshots: seq<nat>)
    requires s.snapshots == multiset(snapshots) && Ascending(snapshots)
    ensures IsSmallestSnapshot(s, if snapshots == [] then s.lastSeq else snapshots[0])
  {
    if snapshots != [] {
      assert snapshots[0] in multiset(snapshots);
      forall x | x in multiset(snapshots) ensures snapshots[0] <= x {
        var i :| 0 <= i < |snapshots| && snapshots[i] == x;
      }
    }
  }

  /** Chosen inputs that leave no boundary file behind leave nothing older behind. */
  lemma ChoiceCanStart(s: State, r: Running)
    requires Inv(s) && s.running.None? && r.base == s.levels && r.numbers == [] && r.level + 1 < NUM_LEVELS
    requires GoodChoice(s.levels, r.level, r.inputs0, r.inputs1)
    requires IsSmallestSnapshot(s, r.snapshot)
    requires NoneLeftBehind(s.levels, r.level, r.inputs1)
    ensures CanStart(s, r)
  {
    hide LevelsOk, MemOrdered, NumbersOk, ViewOk, SnapshotOk, IsSmallestSnapshot, GoodChoice, NoneLeftBehind,
      NoOlderLeft, TableEntries;
    DistinctSubset(All(s), TableEntries(s.levels));
    NoOlderLeftIffNoneLeftBehind(s.levels, r.level, r.inputs0, r.inputs1);
  }

  /** The list shows the key with the value. */
  ghost predicate ShowsValue(es: seq<Entry>, shown: seq<nat>, k: UserKey, v: Value)
    requires forall p :: 0 <= p < |shown| ==> shown[p] < |es|
  {
    exists p :: 0 <= p < |shown| && es[shown[p]].key.ukey == k && es[shown[p]].value == v
  }

  lemma SnapshotLive(s: State, snapshots: seq<nat>, snapshot: Option<nat>)
    requires s.snapshots == multiset(snapshots) && (snapshot.Some? ==> snapshot.value in snapshots)
    ensures Live(s, if snapshot.Some? then snapshot.value else s.lastSeq)
  {
    assert snapshot.Some? ==> snapshot.value in multiset(snapshots);
  }

  lemma ShownIsWritten(s: State, es: seq<Entry>, sn: nat, k: UserKey, v: Value)
    requires Inv(s) && Live(s, sn) && Sorted(es) && SetOf(es) == All(s)
    ensures ShowsValue(es, DbIter.Live(es, sn, |es|), k, v) <==> Read(s.written, k, sn) == Found(v)
  {
    hide LevelsOk, MemOrdered, NumbersOk, RunningOk, Sorted, Read, All;
    DistinctSubset(s.written, All(s));
    DbIter.LiveIsRead(es, sn, k, v);
    var shown := DbIter.Live(es, sn, |es|);
    if i :| i in shown && es[i].key.ukey == k && es[i].value == v {
      var p :| 0 <= p < |shown| && shown[p] == i;
    }
    if p :| 0 <= p < |shown| && es[shown[p]].key.ukey == k && es[shown[p]].value == v {
      assert shown[p] in shown;
    }
  }

  lemma NothingBelow(v: Levels, level: nat)
    requires level + 1 < NUM_LEVELS
    ensures NoneLeftBehind(v, level, [])
  {
  }

  lemma BeginIsStep(s: State, r: Running)
    requires Inv(s) && s.imm.None? && s.running.None? && r.base == s.levels && r.numbers == [] && r.level + 1 < NUM_LEVELS
    requires GoodChoice(s.levels, r.level, r.inputs0, r.inputs1) && IsSmallestSnapshot(s, r.snapshot)
    ensures
      var s' := s.(running := Some(r));
      NoneLeftBehind(s.levels, r.level, r.inputs1) ==> Inv(s') && StepTo(s, Begin(r), s')
  {
    hide Inv, GoodChoice, CanStart, NoneLeftBehind, IsSmallestSnapshot;
    if NoneLeftBehind(s.levels, r.level, r.inputs1) {
      ChoiceCanStart(s, r);
      StepKeepsInv(s, Begin(r));
    }
  }

  /** Memtable, immutable memtable and version, in that order, decide every live read. */
  lemma LayersAnswer(s: State, rm: Lookup, ri: Lookup, rt: Lookup, k: UserKey, sn: nat)
    requires Inv(s) && Live(s, sn)
    requires Answers(rm, s.mem, k, sn)
    requires rm.Miss? ==> Answers(ri, ImmOf(s), k, sn)
    requires rm.Miss? && ri.Miss? ==> Answers(rt, TableEntries(s.levels), k, sn)
    ensures ResultOf(if rm.Hit? then rm else if ri.Hit? then ri else rt) == Read(s.written, k, sn)
  {
    hide LevelsOk, RunningOk, NumbersOk, SnapshotOk, TableEntries, Newest, Read, Distinct;
    var imm, tables := ImmOf(s), TableEntries(s.levels);
    DistinctSubset(s.written, All(s));
    DistinctSubset(All(s), s.mem + imm);
    DistinctSubset(All(s), s.mem);
    DistinctSubset(All(s), imm);
    DistinctSubset(All(s), tables);
    ReadLayered(s.mem + imm, tables, k, sn);
    ReadLayered(s.mem, imm, k, sn);
    assert Read(All(s), k, sn) == Read(s.written, k, sn);
    if rm.Hit? {
      AnswersIsRead(rm, s.mem, k, sn);
      HitIsVisible(rm, s.mem, k, sn);
      assert Visible(s.mem + imm, k, sn, rm.e);
    } else if ri.Hit? {
      AnswersIsRead(ri, imm, k, sn);
      HitIsVisible(ri, imm, k, sn);
      assert Visible(s.mem + imm, k, sn, ri.e);
    } else {
      AnswersIsRead(rt, tables, k, sn);
      forall e ensures !Visible(s.mem + imm, k, sn, e) {
        assert !Visible(s.mem, k, sn, e) && !Visible(imm, k, sn, e);
      }
    }
  }

  lemma HitIsVisible(r: Lookup, es: set<Entry>, k: UserKey, sn: nat)
    requires r.Hit? && Answers(r, es, k, sn)
    ensures Visible(es, k, sn, r.e)
  {
  }

  lemma InputsDistinct(s: State)
    requires Inv(s) && s.running.Some?
    ensures Distinct(InputEntries(s.running.value)) && s.running.value.snapshot < MAX_SEQUENCE
    ensures forall e :: e in InputEntries(s.running.value) ==> e.key.seqno <= MAX_SEQUENCE
  {
    hide LevelsOk, RunningOk, NumbersOk, ViewOk, MemOrdered, TableEntries, RestTables, InputEntries;
    RunningInputsPresent(s.levels, s.running.value);
    SplitEntries(s.levels, s.running.value);
    DistinctSubset(s.written, InputEntries(s.running.value));
  }

  lemma LevelBound(v: Levels, t: Table, level: nat, max: nat)
    requires PlacedAt(v, t.Lo(), t.Hi(), level, max)
    ensures level < NUM_LEVELS
  {
  }

  lemma BaseIsSearchable(v: Levels)
    requires LevelsOk(v)
    ensures forall m :: 1 <= m < NUM_LEVELS ==> SortedLevel(v[m]) && NonEmptyRanges(v[m])
  {
    LevelsOkIsGood(v);
  }

  lemma StartPresent(s: State, r: Running)
    requires Inv(s) && CanStart(s, r)
    ensures r.level + 1 < NUM_LEVELS && UniqueNumbers(s.levels) && forall t :: t in r.inputs0 ==> t in s.levels[r.level]
  {
  }

  lemma RunningLevels(s: State)
    requires Inv(s) && s.running.Some?
    ensures s.running.value.level + 1 < NUM_LEVELS
  {
  }

  /** What the loop keeps is sorted, and is what the rule on sets keeps. */
  lemma KeptFits(s: State, input: seq<Entry>)
    requires Inv(s) && s.running.Some?
    requires Sorted(input) && SetOf(input) == InputEntries(s.running.value)
    ensures
      var r := s.running.value;
      var kept := Kept(input, |input|, r.snapshot, r.base, r.level);
      && Sorted(kept) && SetOf(kept) == KeptSet(InputEntries(r), r.snapshot, BaseKeys(InputEntries(r), r.base, r.level))
      && forall e :: e in kept ==> e.key.seqno <= MAX_SEQUENCE
  {
    hide Inv, InputEntries, BaseKeys, Kept;
    InputsDistinct(s);
    var r := s.running.value;
    KeptIsKeptSet(input, r.snapshot, r.base, r.level);
    forall e | e in Kept(input, |input|, r.snapshot, r.base, r.level) ensures e.key.seqno <= MAX_SEQUENCE {
      assert e in SetOf(Kept(input, |input|, r.snapshot, r.base, r.level));
    }
  }

  lemma AllocatedOutputsOk(s: State, s': State, input: seq<Entry>, outputs: Files)
    requires s.running.Some? && s'.running.Some?
    requires s'.running.value == s.running.value.(numbers := s'.running.value.numbers)
    requires forall x :: s.nextFile <= x < s.nextFile + |outputs| ==> x in s'.running.value.numbers
    requires forall i :: 0 <= i < |outputs| ==> outputs[i].number == s.nextFile + i
    requires ValidFiles(outputs) && SortedLevel(outputs)
    requires
      var r := s.running.value;
      EntriesOf(outputs) == KeptSet(InputEntries(r), r.snapshot, BaseKeys(InputEntries(r), r.base, r.level))
    ensures OutputsOk(s'.running.value, outputs)
  {
    hide ValidFiles, SortedLevel, KeptSet, BaseKeys;
    assert InputEntries(s'.running.value) == InputEntries(s.running.value);
    forall o | o in outputs ensures o.number in s'.running.value.numbers {
      var i :| 0 <= i < |outputs| && outputs[i] == o;
    }
  }

  lemma {:induction false} NewAtOutputs(outputs: Files, level: nat, newFiles: seq<(nat, Table)>, l: nat)
    requires |newFiles| == |outputs| && forall i :: 0 <= i < |outputs| ==> newFiles[i] == (level, outputs[i])
    ensures NewAt(newFiles, l) == if l == level then outputs else []
  {
    if outputs != [] {
      NewAtOutputs(outputs[..|outputs| - 1], level, newFiles[..|newFiles| - 1], l);
      assert outputs == outputs[..|outputs| - 1] + [outputs[|outputs| - 1]];
    }
  }

  lemma OutputsFresh(v: Levels, number: nat, outputs: Files, level: nat, edit: Edit)
    requires forall m, t :: 0 <= m < NUM_LEVELS && t in v[m] ==> t.number < number
    requires forall i :: 0 <= i < |outputs| ==> outputs[i].number == number + i
    requires |edit.newFiles| == |outputs| && forall i :: 0 <= i < |outputs| ==> edit.newFiles[i] == (level, outputs[i])
    ensures forall l :: 0 <= l < NUM_LEVELS ==> FreshAdds(SetOfFiles(v[l]), [edit], l)
    ensures (set f | f in edit.newFiles) == (set o | o in outputs :: (level, o))
  {
    forall l | 0 <= l < NUM_LEVELS ensures FreshAdds(SetOfFiles(v[l]), [edit], l) {
      NewAtOutputs(outputs, level, edit.newFiles, l);
      FreshOne(v[l], edit, l);
    }
    forall f | f in edit.newFiles ensures f in (set o | o in outputs :: (level, o)) {
      var i :| 0 <= i < |edit.newFiles| && edit.newFiles[i] == f;
      assert outputs[i] in outputs;
    }
    forall o | o in outputs ensures (level, o) in edit.newFiles {
      var i :| 0 <= i < |outputs| && outputs[i] == o;
      assert edit.newFiles[i] == (level, o);
    }
  }

  lemma DeletionsInRange(r: Running)
    requires r.level + 1 < NUM_LEVELS
    ensures forall d :: d in InputDeletions(r) ==> d.0 < NUM_LEVELS
  {
  }

  lemma SameDeletions(r: Running, r': Running)
    requires r' == r.(numbers := r'.numbers)
    ensures InputDeletions(r') == InputDeletions(r)
  {
  }

  method RunCompactionLoop(r: Running, input: seq<Entry>, grandparents: Files, maxGrandparentBytes: nat, full: seq<Entry> -> bool)
    returns (chunks: seq<seq<Entry>>)
    requires LevelsOk(r.base) && Sorted(input) && SortedLevel(grandparents) && NonEmptyRanges(grandparents)
    ensures Concat(chunks) == Kept(input, |input|, r.snapshot, r.base, r.level)
    ensures forall c :: c in chunks ==> CompactionWork.GoodOutput(full, grandparents, maxGrandparentBytes, c)
  {
    BaseIsSearchable(r.base);
    var c := new CompactionWork.Compaction(r.base, r.level, grandparents, maxGrandparentBytes);
    chunks := c.DoCompactionWork(input, r.snapshot, full);
  }

  /** The files a table lies over, without the one it ends in, are not too many. */
  ghost predicate OverlapBounded(grandparents: Files, max: nat, outputs: Files) {
    forall o :: o in outputs ==> CompactionWork.OverlapBytes(grandparents, o.smallest, o.largest) <= max
  }

  lemma ChunksNotEmpty(full: seq<Entry> -> bool, grandparents: Files, max: nat, chunks: seq<seq<Entry>>)
    requires forall c :: c in chunks ==> CompactionWork.GoodOutput(full, grandparents, max, c)
    ensures forall c :: c in chunks ==> c != []
  {
  }

  lemma OutputsBounded(full: seq<Entry> -> bool, grandparents: Files, max: nat, chunks: seq<seq<Entry>>, outputs: Files)
    requires |outputs| == |chunks| && forall i :: 0 <= i < |outputs| ==> Spans(outputs[i], chunks[i])
    requires forall c :: c in chunks ==> CompactionWork.GoodOutput(full, grandparents, max, c)
    ensures OverlapBounded(grandparents, max, outputs)
  {
    forall o | o in outputs ensures CompactionWork.OverlapBytes(grandparents, o.smallest, o.largest) <= max {
      var i :| 0 <= i < |outputs| && outputs[i] == o;
      assert chunks[i] in chunks;
    }
  }

  lemma FinishEnabled(s: State, outputs: Files, edit: Edit, v': Levels)
    requires s.running.Some? && OutputsOk(s.running.value, outputs)
    requires edit.deletedFiles == InputDeletions(s.running.value)
    requires (set f | f in edit.newFiles) == (set o | o in outputs :: (s.running.value.level + 1, o))
    requires IsEdit(s.levels, edit.deletedFiles, (set f | f in edit.newFiles), v')
    ensures Enabled(s, Finish(outputs, v'))
  {
    hide OutputsOk, IsEdit;
  }

  // ----- the database object -----

  ghost predicate StepTo(s: State, step: Step, s': State) {
    Enabled(s, step) && s' == Apply(s, step)
  }

  /** n output numbers handed out to the running compaction. */
  ghost function AllocateMany(s: State, n: nat): (s': State)
    requires s.running.Some?
    ensures s'.running.Some?
  {
    if n == 0 then s else Apply(AllocateMany(s, n - 1), Allocate)
  }

  lemma {:induction false} AllocateManyNumbers(s: State, n: nat)
    requires Inv(s) && s.running.Some?
    ensures
      var s', r := AllocateMany(s, n), s.running.value;
      && Inv(s') && s'.nextFile == s.nextFile + n
      && s' == s.(running := s'.running, nextFile := s'.nextFile)
      && s'.running.value == r.(numbers := s'.running.value.numbers)
      && (forall x :: s.nextFile <= x < s.nextFile + n ==> x in s'.running.value.numbers)
  {
    hide Inv;
    if n > 0 {
      AllocateManyNumbers(s, n - 1);
      StepKeepsInv(AllocateMany(s, n - 1), Allocate);
    }
  }

  /** What a compaction was told of the level after next when it was chosen. */
  ghost predicate HasGrandparents(r: Running, grandparents: Files) {
    r.inputs0 != [] && grandparents == Grandparents(r.base, r.level, r.inputs0 + r.inputs1)
  }

  lemma GrandparentsInOrder(r: Running, grandparents: Files)
    requires LevelsOk(r.base) && HasGrandparents(r, grandparents)
    ensures SortedLevel(grandparents) && NonEmptyRanges(grandparents)
  {
    hide LevelsOrdered, Level0Ordered, UniqueNumbers;
    if r.level + 2 < NUM_LEVELS {
      var inputs, files := r.inputs0 + r.inputs1, r.base[r.level + 2];
      ValidFilesHaveRanges(files);
      OverlappingMembers(files, Some(HullLo(inputs)), Some(HullHi(inputs)));
      OverlappingIsSorted(files, Some(HullLo(inputs)), Some(HullHi(inputs)));
    }
  }

  predicate Ascending(ns: seq<nat>) {
    forall i, j :: 0 <= i < j < |ns| ==> ns[i] <= ns[j]
  }

  lemma WrittenBelow(s: State)
    requires Inv(s)
    ensures Distinct(s.written) && forall e :: e in s.written ==> e.key.seqno <= s.nextSeq
  {
  }

  class DBImpl {
    var mem: set<Entry>
    var imm: Option<set<Entry>>
    var levels: Levels
    var lastSequence: nat
    var nextFileNumber: nat
    var snapshots: seq<nat>
    var running: Option<Running>
    var grandparents: Files
    ghost var nextSeq: nat
    ghost var written: set<Entry>

    ghost function Abstract(): State
      reads this
    {
      Lsm.State.State(mem, imm, levels, lastSequence, nextSeq, nextFileNumber, multiset(snapshots), running, written)
    }

    ghost predicate Valid()
      reads this
    {
      && Inv(Abstract())
      && (forall l :: 0 <= l < NUM_LEVELS ==> SortedBySmallest(levels[l]))
      && Ascending(snapshots)
      && (running.Some? ==> LevelsOk(running.value.base) && HasGrandparents(running.value, grandparents))
    }

    constructor ()
      ensures Valid() && Abstract() == Init()
    {
      mem, imm, levels, lastSequence, nextFileNumber, snapshots, running := {}, None, seq(NUM_LEVELS, i => []), 0, 2, [], None;
      grandparents, nextSeq, written := [], 0, {};
      new;
      InitInv();
      assert Abstract() == Init();
    }

    /** One operation of a batch goes into the memtable. */
    method InsertOne(rank: Rank, op: WriteBatches.Op, seqno: nat)
      requires Valid() && nextSeq + 1 == seqno < MAX_SEQUENCE
      modifies this`mem, this`nextSeq, this`written
      ensures Valid() && nextSeq == seqno
      ensures mem == old(mem) + {BatchReads.EntryFor(rank, seqno, op)} && written == old(written) + {BatchReads.EntryFor(rank, seqno, op)}
    {
      hide Inv, LevelsOk, SortedBySmallest, IsEdit, OutputsOk, CanStart, PlacedAt, Table.Valid, Ascending;
      var e := BatchReads.EntryFor(rank, seqno, op);
      ghost var s := Abstract();
      StepKeepsInv(s, Insert(e));
      mem := mem + {e};
      nextSeq := nextSeq + 1;
      written := written + {e};
      assert Abstract() == Apply(s, Insert(e));
    }

    /** Inserts the operations of one batch into the memtable, in order. */
    method InsertInto(rank: Rank, sequence: nat, ops: seq<WriteBatches.Op>)
      requires Valid() && sequence == nextSeq + 1 && nextSeq + |ops| < MAX_SEQUENCE
      modifies this`mem, this`nextSeq, this`written
      ensures Valid() && nextSeq == old(nextSeq) + |ops|
      ensures mem == old(mem) + SetOf(BatchReads.BatchEntries(rank, sequence, ops))
      ensures written == old(written) + SetOf(BatchReads.BatchEntries(rank, sequence, ops))
    {
      hide Valid, BatchReads.EntryFor;
      ghost var es := BatchReads.BatchEntries(rank, sequence, ops);
      for i := 0 to |ops|
        invariant Valid() && nextSeq == old(nextSeq) + i
        invariant mem == old(mem) + SetOf(es[..i]) && written == old(written) + SetOf(es[..i])
      {
        assert es[..i + 1] == es[..i] + [es[i]];
        InsertOne(rank, ops[i], sequence + i);
      }
      assert es[..|ops|] == es;
    }

    /** Makes the numbers used up visible to new readers. */
    method Publish(sequence: nat)
      requires Valid() && sequence == nextSeq
      modifies this`lastSequence
      ensures Valid() && lastSequence == sequence
    {
      hide Inv, LevelsOk, SortedBySmallest, IsEdit, OutputsOk, CanStart, PlacedAt, Table.Valid, Ascending;
      ghost var s := Abstract();
      StepKeepsInv(s, Step.Publish);
      lastSequence := sequence;
      assert Abstract() == Apply(s, Step.Publish);
    }

    /** Inserts the operations of one batch in order, then publishes the sequence number.
        Reads then find the last operation on each key that their snapshot sees, and what they
        found before where the batch has none. */
    method Write(rank: Rank, ops: seq<WriteBatches.Op>)
      requires Valid() && nextSeq == lastSequence && lastSequence + |ops| < MAX_SEQUENCE
      modifies this`mem, this`lastSequence, this`nextSeq, this`written
      ensures Valid() && nextSeq == lastSequence
      ensures lastSequence == old(lastSequence) + |ops|
      ensures mem == old(mem) + SetOf(BatchReads.BatchEntries(rank, old(lastSequence) + 1, ops))
      ensures written == old(written) + SetOf(BatchReads.BatchEntries(rank, old(lastSequence) + 1, ops))
      ensures Injective(rank) ==> BatchReads.Adds(rank, old(written), written, old(lastSequence) + 1, ops)
    {
      hide Inv, LevelsOk, SortedBySmallest, Ascending, BatchReads.Adds, BatchReads.BatchEntries, Injective,
        HasGrandparents;
      if Injective(rank) {
        WrittenBelow(Abstract());
        BatchReads.BatchAdds(rank, written, lastSequence + 1, ops);
      }
      InsertInto(rank, lastSequence + 1, ops);
      Publish(lastSequence + |ops|);
    }

    /** Makes the memtable immutable; takes a file number for the new log. */
    method SwitchMemTable() returns (newLogNumber: nat)
      requires Valid() && imm.None? && nextSeq == lastSequence
      modifies this
      ensures Valid() && StepTo(old(Abstract()), Switch, Abstract()) && newLogNumber == old(nextFileNumber)
    {
      hide Inv, LevelsOk, SortedBySmallest, IsEdit, OutputsOk, CanStart, PlacedAt, Table.Valid;
      StepKeepsInv(Abstract(), Switch);
      newLogNumber := nextFileNumber;
      nextFileNumber := nextFileNumber + 1;
      imm := Some(mem);
      mem := {};
      assert Abstract() == Apply(old(Abstract()), Switch);
    }

    /** Writes the immutable memtable to a table file, on the level picked for it, and
        installs the new version. */
    method CompactMemTable(maxGrandparentBytes: nat)
      requires Valid() && imm.Some?
      modifies this
      ensures Valid() && imm.None?
      ensures exists step: Step :: step.Flush? && step.maxGrandparentBytes == maxGrandparentBytes && StepTo(old(Abstract()), step, Abstract())
    {
      hide Inv, IsEdit, PlacedAt, FreshAdds, SearchableLevels, SortedBySmallest, LevelsOk, Table.Valid, HasGrandparents;
      ghost var s := Abstract();
      FlushFits(s);
      var number := nextFileNumber;
      nextFileNumber := nextFileNumber + 1;
      var output: Option<Table> := None;
      var level := 0;
      var levels' := levels;
      if imm.value != {} {
        var t := BuildTable(imm.value, number, |imm.value|);
        level := PickLevelForMemTableOutput(levels, t.Lo(), t.Hi(), maxGrandparentBytes);
        LevelBound(levels, t, level, maxGrandparentBytes);
        output := Some(t);
        var edit := EMPTY_EDIT.(newFiles := [(level, t)]);
        FreshNewFile(levels, level, t, edit);
        levels' := ApplyEdit(levels, edit);
        assert (set f | f in edit.newFiles) == {(level, t)};
        EditSorted(levels, {}, {(level, t)}, levels');
      }
      ghost var step := Flush(output, level, maxGrandparentBytes, levels');
      assert Enabled(s, step);
      StepKeepsInv(s, step);
      imm := None;
      levels := levels';
      assert Abstract() == Apply(s, step);
      assert StepTo(s, step, Abstract());
    }

    /** The newest entry of the key visible at the snapshot: memtable, immutable memtable,
        then the bytes of the current version's tables.  For every snapshot a reader can hold
        this is what reading everything ever written gives. */
    method Get(store: Store, ukey: Bytes, snapshot: nat) returns (answer: Answer)
      requires Valid() && store.Ok() && store.HoldsAll(levels)
      requires Live(Abstract(), snapshot) && snapshot <= MAX_SEQUENCE
      ensures answer == Read(written, store.rank(ukey), snapshot)
    {
      hide Inv, Live, Store.Ok, Store.HoldsAll;
      InvLevels(Abstract());
      var k := store.rank(ukey);
      var rt: Lookup := Miss;
      var ri: Lookup := Miss;
      var rm := GetFrom(mem, k, snapshot);
      if rm.Miss? {
        if imm.Some? {
          ri := GetFrom(imm.value, k, snapshot);
        }
        if ri.Miss? {
          rt := VersionGet.Get(store, levels, ukey, snapshot);
        }
      }
      answer := ResultOf(if rm.Hit? then rm else if ri.Hit? then ri else rt);
      LayersAnswer(Abstract(), rm, ri, rt, k, snapshot);
    }

    /** An iterator over the database at a snapshot, or at the last sequence number.  It
        shows each key exactly when reading it in everything ever written finds a value, and
        shows that value. */
    method NewIterator(memory: seq<Entry>, immutable: Option<seq<Entry>>, contents: CompactionInput.Contents, snapshot: Option<nat>)
      returns (it: DbIter.DBIter)
      requires Valid() && (snapshot.Some? ==> snapshot.value in snapshots)
      requires imm.Some? <==> immutable.Some?
      requires InternalIterator.MemoryListed(Abstract(), memory, if immutable.Some? then immutable.value else [])
      requires InternalIterator.DeliversAll(contents, levels)
      ensures fresh(it) && it.Ok() && it.sequence == (if snapshot.Some? then snapshot.value else lastSequence)
      ensures it.Cursor() == |it.Shown()|
      ensures forall k, v :: ShowsValue(it.iter.Merged(), it.Shown(), k, v) <==> Read(written, k, it.sequence) == Found(v)
    {
      hide Inv, Merger.MergingIterator.Merged, Merger.MergingIterator.Ok, Sorted, InternalIterator.MemoryListed,
        InternalIterator.DeliversAll, ShowsValue;
      ghost var s := Abstract();
      var sequence := if snapshot.Some? then snapshot.value else lastSequence;
      var internal := InternalIterator.NewInternalIterator(s, memory, immutable, levels, contents);
      it := new DbIter.DBIter(internal, sequence);
      SnapshotLive(s, snapshots, snapshot);
      forall k, v ensures ShowsValue(it.iter.Merged(), it.Shown(), k, v) <==> Read(written, k, it.sequence) == Found(v) {
        ShownIsWritten(s, it.iter.Merged(), sequence, k, v);
      }
    }

    method GetSnapshot() returns (snapshot: nat)
      requires Valid()
      modifies this`snapshots
      ensures Valid() && snapshot == lastSequence && StepTo(old(Abstract()), Acquire, Abstract())
    {
      hide Inv;
      ghost var s := Abstract();
      InvLevels(s);
      StepKeepsInv(s, Acquire);
      snapshot := lastSequence;
      forall x | x in snapshots ensures x <= lastSequence {
        assert x in multiset(snapshots);
      }
      assert forall i :: 0 <= i < |snapshots| ==> snapshots[i] in snapshots;
      snapshots := snapshots + [snapshot];
      assert Abstract() == Apply(s, Acquire);
    }

    method ReleaseSnapshot(i: nat)
      requires Valid() && i < |snapshots|
      modifies this`snapshots
      ensures Valid() && StepTo(old(Abstract()), Release(old(snapshots)[i]), Abstract())
    {
      hide Inv, Ascending;
      ghost var s := Abstract();
      assert snapshots[i] in multiset(snapshots);
      StepKeepsInv(s, Release(snapshots[i]));
      RemoveAt(snapshots, i);
      RemoveKeepsAscending(snapshots, i);
      snapshots := snapshots[..i] + snapshots[i + 1..];
      assert Abstract() == Apply(s, Release(old(snapshots)[i]));
    }

    /** Moves the single input file one level down. */
    method MoveFile(r: Running)
      requires Valid() && imm.None? && CanStart(Abstract(), r) && |r.inputs0| == 1 && r.inputs1 == []
      modifies this`levels
      ensures Valid()
      ensures exists step: Step :: step.Move? && step.r == r && StepTo(old(Abstract()), step, Abstract())
    {
      hide Inv, LevelsOk, CanStart, IsEdit, FreshAdds, SortedBySmallest, Ascending;
      ghost var s := Abstract();
      StartPresent(s, r);
      var f := r.inputs0[0];
      var edit := EMPTY_EDIT.(deletedFiles := {(r.level, f.number)}, newFiles := [(r.level + 1, f)]);
      FreshMovedFile(levels, r.level, f, edit);
      var levels' := ApplyEdit(levels, edit);
      assert (set g | g in edit.newFiles) == {(r.level + 1, f)};
      EditSorted(levels, edit.deletedFiles, {(r.level + 1, f)}, levels');
      ghost var step := Move(r, levels');
      assert Enabled(s, step);
      StepKeepsInv(s, step);
      levels := levels';
      assert Abstract() == Apply(s, step);
      assert StepTo(s, step, Abstract());
    }

    /** Chooses an automatic compaction.  A single file with nothing below it and little
        grandparent data is moved at once; otherwise the compaction starts running.  Unless
        the lower inputs end in the middle of a user key this is a step of the machine; the
        code does not look, and starts anyway. */
    method BackgroundCompaction(trigger: Trigger, compactPointer: Option<InternalKey>, expandedSizeLimit: nat, maxGrandparentBytes: nat)
      returns (moved: bool, r: Running, largest: InternalKey)
      requires Valid() && imm.None? && running.None? && trigger.level + 1 < NUM_LEVELS
      requires match trigger case BySize(level) => levels[level] != [] case BySeeks(level, file) => file in levels[level]
      modifies this
      ensures r.level == trigger.level && r.base == old(levels) && r.numbers == []
      ensures GoodChoice(old(levels), r.level, r.inputs0, r.inputs1) && IsSmallestSnapshot(old(Abstract()), r.snapshot)
      ensures IsPicked(old(levels), trigger, compactPointer, expandedSizeLimit, r.inputs0, r.inputs1) && r.inputs0 != []
      ensures moved <==> |r.inputs0| == 1 && r.inputs1 == [] && TotalFileSize(Grandparents(old(levels), r.level, r.inputs0 + r.inputs1)) <= maxGrandparentBytes
      ensures largest == LargestKey(r.inputs0) && forall t :: t in r.inputs0 ==> !Less(largest, t.largest)
      ensures moved ==> Valid() && exists step: Step :: step.Move? && step.r == r && StepTo(old(Abstract()), step, Abstract())
      ensures !moved ==> Abstract() == old(Abstract()).(running := Some(r)) && HasGrandparents(r, grandparents)
      ensures !moved && NoneLeftBehind(old(levels), r.level, r.inputs1) ==> Valid() && StepTo(old(Abstract()), Begin(r), Abstract())
    {
      hide Inv, LevelsOk, GoodLevels, SearchableLevels, GoodChoice, CanStart, IsEdit, FreshAdds, SortedBySmallest,
        Ascending, NonEmptyRanges, NoneLeftBehind, IsSmallestSnapshot, IsPicked;
      ghost var s := Abstract();
      InvLevels(s);
      LevelsOkIsGood(levels);
      var c := PickCompaction(levels, trigger, compactPointer, expandedSizeLimit);
      largest := c.largest;
      ChosenNotEmpty(levels, trigger.level, c.inputs0, c.inputs1);
      KeyRangeIsTight(c.inputs0);
      var smallestSnapshot := if snapshots == [] then lastSequence else snapshots[0];
      r := Running(trigger.level, c.inputs0, c.inputs1, smallestSnapshot, levels, []);
      OldestSnapshot(s, snapshots);
      if |c.inputs0| == 1 && c.inputs1 == [] && TotalFileSize(c.grandparents) <= maxGrandparentBytes {
        moved := true;
        NothingBelow(levels, r.level);
        ChoiceCanStart(s, r);
        MoveFile(r);
      } else {
        moved := false;
        running, grandparents := Some(r), c.grandparents;
        BeginIsStep(s, r);
        assert Abstract() == s.(running := Some(r));
      }
    }

    /** Installs the output files in place of the inputs, as one edit. */
    method InstallCompactionResults(outputs: Files)
      requires Valid() && running.Some?
      requires forall i :: 0 <= i < |outputs| ==> outputs[i].number == nextFileNumber + i
      requires OutputsOk(AllocateMany(Abstract(), |outputs|).running.value, outputs)
      modifies this
      ensures Valid() && running.None?
      ensures exists step: Step :: step.Finish? && step.outputs == outputs && StepTo(AllocateMany(old(Abstract()), |outputs|), step, Abstract())
    {
      hide Inv, LevelsOk, IsEdit, FreshAdds, SortedBySmallest, Ascending, OutputsOk, InputDeletions, AllocateMany;
      ghost var s := Abstract();
      var r := running.value;
      InvLevels(s);
      RunningLevels(s);
      ghost var s' := AllocateMany(s, |outputs|);
      AllocateManyNumbers(s, |outputs|);
      var edit := EMPTY_EDIT.(
        deletedFiles := InputDeletions(r),
        newFiles := seq(|outputs|, i requires 0 <= i < |outputs| => (r.level + 1, outputs[i])));
      OutputsFresh(levels, nextFileNumber, outputs, r.level + 1, edit);
      DeletionsInRange(r);
      var levels' := ApplyEdit(levels, edit);
      EditSorted(levels, edit.deletedFiles, (set f | f in edit.newFiles), levels');
      SameDeletions(r, s'.running.value);
      FinishEnabled(s', outputs, edit, levels');
      ghost var step := Finish(outputs, levels');
      StepKeepsInv(s', step);
      nextFileNumber := nextFileNumber + |outputs|;
      levels := levels';
      running := None;
      assert Abstract() == Apply(s', step);
      assert StepTo(s', step, Abstract());
    }

    /** Merges the input files, runs the compaction loop over them, writes the output files
        and installs them in place of the inputs.  No output lies over too much of the level
        after next, not counting the file it ends in. */
    method FinishCompaction(contents: CompactionInput.Contents, maxGrandparentBytes: nat, full: seq<Entry> -> bool)
      requires Valid() && running.Some?
      requires CompactionInput.Delivers(contents, running.value.inputs0 + running.value.inputs1)
      modifies this
      ensures Valid() && running.None?
      ensures exists n: nat, step: Step ::
        && step.Finish? && StepTo(AllocateMany(old(Abstract()), n), step, Abstract())
        && OverlapBounded(old(grandparents), maxGrandparentBytes, step.outputs)
    {
      hide Inv, LevelsOk, SortedBySmallest, Ascending, ValidFiles, SortedLevel, OutputsOk, InputEntries, KeptSet,
        BaseKeys, Kept, AllocateMany, Enabled, RunningOk, CompactionInput.Delivers, CompactionWork.GoodOutput,
        NonEmptyRanges, Spans, OverlapBounded, HasGrandparents;
      ghost var s := Abstract();
      var r := running.value;
      InvRunning(s);
      GrandparentsInOrder(r, grandparents);
      var merged := CompactionInput.MakeInputIterator(levels, r, contents);
      var input := CompactionInput.ReadAll(merged);
      var chunks := RunCompactionLoop(r, input, grandparents, maxGrandparentBytes, full);
      ChunksNotEmpty(full, grandparents, maxGrandparentBytes, chunks);
      KeptFits(s, input);
      var outputs := MakeOutputs(chunks, nextFileNumber);
      OutputsBounded(full, grandparents, maxGrandparentBytes, chunks, outputs);
      AllocateManyNumbers(s, |outputs|);
      AllocatedOutputsOk(s, AllocateMany(s, |outputs|), input, outputs);
      InstallCompactionResults(outputs);
    }
  }

  lemma ChosenNotEmpty(v: Levels, level: nat, inputs0: Files, inputs1: Files)
    requires GoodChoice(v, level, inputs0, inputs1)
    ensures inputs0 != []
  {
  }

  lemma InvRunning(s: State)
    requires Inv(s) && s.running.Some?
    ensures LevelsOk(s.levels) && RunningOk(s.levels, s.running.value)
  {
  }
}

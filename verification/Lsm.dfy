/** The storage engine as a state machine.

    Steps are what happens between two releases of the mutex: one entry of a batch goes
    into the memtable, a batch is published, the memtable is switched, the immutable
    memtable is flushed (also while a compaction is running), a compaction starts,
    allocates output numbers, installs its outputs or is abandoned, a file moves down a
    level, snapshots come and go.  `written` records every entry ever inserted; it is
    what reads are specified against. */
module Lsm {
  import opened Options
  import opened DbFormat
  import opened Tables
  import opened VersionSearch
  import opened InputSelection
  import opened CompactionDrop

  /** A running compaction: its inputs, the version and the snapshot it started from, and
      the output file numbers handed out so far. */
  datatype Running = Running(level: nat, inputs0: Files, inputs1: Files, snapshot: nat, base: Levels, numbers: seq<nat>)

  datatype State = State(
    mem: set<Entry>,
    imm: Option<set<Entry>>,
    levels: Levels,
    lastSeq: nat,
    nextSeq: nat,
    nextFile: nat,
    snapshots: multiset<nat>,
    running: Option<Running>,
    written: set<Entry>)

  function ImmOf(s: State): set<Entry> {
    if s.imm.Some? then s.imm.value else {}
  }

  ghost function TableEntries(v: Levels): (es: set<Entry>)
    ensures forall e :: e in es <==> exists m, t :: 0 <= m < NUM_LEVELS && t in v[m] && e in t.entries
  {
    set m, t, e | 0 <= m < NUM_LEVELS && t in v[m] && e in t.entries :: e
  }

  ghost function All(s: State): set<Entry> {
    s.mem + ImmOf(s) + TableEntries(s.levels)
  }

  // ----- invariant -----

  ghost predicate UniqueNumbers(v: Levels) {
    forall l, t, m, u :: 0 <= l < NUM_LEVELS && t in v[l] && 0 <= m < NUM_LEVELS && u in v[m] && t.number == u.number
      ==> l == m && t == u
  }

  ghost predicate Level0Ordered(files: Files) {
    forall t, u :: t in files && u in files && t.number > u.number ==> Newer(t.entries, u.entries)
  }

  ghost predicate LevelsOrdered(v: Levels) {
    forall l, m, t, u :: 0 <= l < m < NUM_LEVELS && t in v[l] && u in v[m] ==> Newer(t.entries, u.entries)
  }

  ghost predicate AllValid(v: Levels) {
    forall m, t :: 0 <= m < NUM_LEVELS && t in v[m] ==> t.Valid()
  }

  /** Levels above 0 are sorted and disjoint, and every user key gets older going down. */
  ghost predicate LevelsOk(v: Levels) {
    && AllValid(v)
    && (forall m :: 0 <= m < NUM_LEVELS ==> NoDuplicates(v[m]))
    && (forall m :: 1 <= m < NUM_LEVELS ==> SortedLevel(v[m]))
    && UniqueNumbers(v)
    && Level0Ordered(v[0])
    && LevelsOrdered(v)
  }

  ghost predicate MemOrdered(s: State) {
    && Newer(s.mem, ImmOf(s))
    && Newer(s.mem + ImmOf(s), TableEntries(s.levels))
  }

  ghost predicate SequencesOk(s: State) {
    && s.lastSeq <= s.nextSeq < MAX_SEQUENCE
    && Distinct(s.written) && All(s) <= s.written
    && (forall e :: e in s.written ==> e.key.seqno <= s.nextSeq)
    && (forall sn :: sn in s.snapshots ==> sn <= s.lastSeq)
  }

  ghost predicate NumbersOk(s: State) {
    && (forall m, t :: 0 <= m < NUM_LEVELS && t in s.levels[m] ==> t.number < s.nextFile)
    && (s.running.Some? ==>
          && (forall n :: n in s.running.value.numbers ==> n < s.nextFile)
          && (forall m, t :: 0 <= m < NUM_LEVELS && t in s.levels[m] ==> t.number !in s.running.value.numbers))
  }

  /** A snapshot a reader may hold now or get later. */
  ghost predicate Live(s: State, sn: nat) {
    sn in s.snapshots || sn >= s.lastSeq
  }

  /** Nothing a live snapshot can see is lost or resurrected. */
  ghost predicate ViewOk(s: State) {
    forall k, sn :: Live(s, sn) ==> Read(All(s), k, sn) == Read(s.written, k, sn)
  }

  ghost predicate InputsPresent(v: Levels, r: Running) {
    && r.level + 1 < NUM_LEVELS
    && (forall t :: t in r.inputs0 ==> t in v[r.level])
    && (forall t :: t in r.inputs1 ==> t in v[r.level + 1])
  }

  ghost predicate RunningInputs(v: Levels, r: Running) {
    && InputsPresent(v, r)
    && r.inputs0 != []
    && (forall t :: t in r.inputs1 ==> t.Overlaps(HullLo(r.inputs0), HullHi(r.inputs0)))
    && Covered(r.inputs0 + r.inputs1)
  }

  /** What the input iterator relies on: level 0 files are read one by one, the files of any
      other level one after another. */
  ghost predicate InputsInOrder(r: Running) {
    NoDuplicates(r.inputs0) && (r.level > 0 ==> SortedLevel(r.inputs0)) && SortedLevel(r.inputs1)
  }

  /** How the files that are not inputs lie around a running compaction. */
  ghost predicate RunningOk(v: Levels, r: Running) {
    && RunningInputs(v, r) && InputsInOrder(r)
    && (forall g, f :: g in v[r.level] && g !in r.inputs0 && f in r.inputs0 ==> Newer(g.entries, f.entries))
    && (forall h :: h in v[r.level + 1] && h !in r.inputs1 ==> !h.Overlaps(HullLo(r.inputs0), HullHi(r.inputs0)))
    && NoOlderLeft(v[r.level + 1], r.inputs1)
    && (forall k :: InHull(r.inputs0 + r.inputs1, k) && BaseLevel(r.base, r.level, k) ==> BaseLevel(v, r.level, k))
  }

  /** No file left at the lower input level holds an older entry for a key of its inputs. */
  ghost predicate NoOlderLeft(files: Files, inputs1: Files) {
    forall h, f :: h in files && h !in inputs1 && f in inputs1 ==> Newer(h.entries, f.entries)
  }

  ghost predicate SnapshotOk(s: State) {
    s.running.Some? ==>
      && s.running.value.snapshot <= s.lastSeq
      && forall sn :: sn in s.snapshots ==> s.running.value.snapshot <= sn
  }

  ghost predicate Inv(s: State) {
    && LevelsOk(s.levels)
    && MemOrdered(s)
    && SequencesOk(s)
    && NumbersOk(s)
    && ViewOk(s)
    && SnapshotOk(s)
    && (s.running.Some? ==> RunningOk(s.levels, s.running.value))
  }

  // ----- steps -----

  /** The order in which a version keeps the files of a level. */
  predicate BySmallestKey(t: Table, u: Table) {
    Less(t.smallest, u.smallest) || (t.smallest == u.smallest && t.number < u.number)
  }

  predicate SortedBySmallest(files: Files) {
    forall i, j :: 0 <= i < j < |files| ==> BySmallestKey(files[i], files[j])
  }

  /** What applying an edit to a version gives. */
  ghost predicate IsEdit(v: Levels, deleted: set<(nat, nat)>, added: set<(nat, Table)>, v': Levels) {
    forall l :: 0 <= l < NUM_LEVELS ==>
      && SortedBySmallest(v'[l])
      && forall t :: t in v'[l] <==> (t in v[l] && (l, t.number) !in deleted) || (l, t) in added
  }

  function InputDeletions(r: Running): set<(nat, nat)> {
    (set t | t in r.inputs0 :: (r.level, t.number)) + (set t | t in r.inputs1 :: (r.level + 1, t.number))
  }

  ghost function InputEntries(r: Running): set<Entry> {
    EntriesOf(r.inputs0) + EntriesOf(r.inputs1)
  }

  /** The output files hold exactly what the compaction loop keeps, cut in key order. */
  ghost predicate OutputsOk(r: Running, outputs: Files) {
    && ValidFiles(outputs) && SortedLevel(outputs)
    && (forall o :: o in outputs ==> o.number in r.numbers)
    && (forall i, j :: 0 <= i < j < |outputs| ==> outputs[i].number != outputs[j].number)
    && EntriesOf(outputs) == KeptSet(InputEntries(r), r.snapshot, BaseKeys(InputEntries(r), r.base, r.level))
  }

  ghost predicate IsSmallestSnapshot(s: State, sn: nat) {
    if |s.snapshots| == 0 then sn == s.lastSeq
    else sn in s.snapshots && forall x :: x in s.snapshots ==> sn <= x
  }

  datatype Step =
    | Insert(e: Entry)
    | Skip(n: nat)
    | Publish
    | Switch
    | Flush(output: Option<Table>, level: nat, maxGrandparentBytes: nat, levels: Levels)
    | Begin(r: Running)
    | Allocate
    | Finish(outputs: Files, levels: Levels)
    | Abandon
    | Move(r: Running, levels: Levels)
    | Acquire
    | Release(sn: nat)

  /** The chosen inputs meet the drop theorem's precondition. */
  ghost predicate CanStart(s: State, r: Running) {
    && s.running.None?
    && GoodChoice(s.levels, r.level, r.inputs0, r.inputs1)
    && NoOlderLeft(s.levels[r.level + 1], r.inputs1)
    && r.base == s.levels
    && r.numbers == []
    && IsSmallestSnapshot(s, r.snapshot)
  }

  ghost predicate Enabled(s: State, step: Step) {
    match step
    case Insert(e) => e.key.seqno == s.nextSeq + 1 && s.nextSeq + 1 < MAX_SEQUENCE
    case Skip(n) => s.nextSeq + n < MAX_SEQUENCE
    case Publish => true
    case Switch => s.imm.None? && s.nextSeq == s.lastSeq
    case Flush(output, level, max, levels) =>
      && s.imm.Some?
      && (output.None? ==> s.imm.value == {} && levels == s.levels)
      && (output.Some? ==>
            && output.value.Valid() && output.value.entries == s.imm.value && output.value.number == s.nextFile
            && PlacedAt(s.levels, output.value.Lo(), output.value.Hi(), level, max)
            && IsEdit(s.levels, {}, {(level, output.value)}, levels))
    case Begin(r) => s.imm.None? && CanStart(s, r)
    case Allocate => s.running.Some?
    case Finish(outputs, levels) =>
      && s.running.Some?
      && OutputsOk(s.running.value, outputs)
      && IsEdit(s.levels, InputDeletions(s.running.value), set o | o in outputs :: (s.running.value.level + 1, o), levels)
    case Abandon => s.running.Some?
    case Move(r, levels) =>
      && s.imm.None? && CanStart(s, r) && |r.inputs0| == 1 && r.inputs1 == []
      && IsEdit(s.levels, {(r.level, r.inputs0[0].number)}, {(r.level + 1, r.inputs0[0])}, levels)
    case Acquire => true
    case Release(sn) => sn in s.snapshots
  }

  ghost function Apply(s: State, step: Step): State
    requires Enabled(s, step)
  {
    match step
    case Insert(e) => s.(mem := s.mem + {e}, written := s.written + {e}, nextSeq := s.nextSeq + 1)
    case Skip(n) => s.(nextSeq := s.nextSeq + n)
    case Publish => s.(lastSeq := s.nextSeq)
    case Switch => s.(mem := {}, imm := Some(s.mem), nextFile := s.nextFile + 1)
    case Flush(output, level, max, levels) => s.(imm := None, levels := levels, nextFile := s.nextFile + 1)
    case Begin(r) => s.(running := Some(r))
    case Allocate =>
      s.(running := Some(s.running.value.(numbers := s.running.value.numbers + [s.nextFile])), nextFile := s.nextFile + 1)
    case Finish(outputs, levels) => s.(levels := levels, running := None)
    case Abandon => s.(running := None)
    case Move(r, levels) => s.(levels := levels)
    case Acquire => s.(snapshots := s.snapshots + multiset{s.lastSeq})
    case Release(sn) => s.(snapshots := s.snapshots - multiset{sn})
  }

  ghost function Init(): State {
    State({}, None, seq(NUM_LEVELS, i => []), 0, 0, 2, multiset{}, None, {})
  }
}

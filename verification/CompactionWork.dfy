/** The compaction loop: one pass over the merged inputs, with the monotone level
    pointers of IsBaseLevelForKey. */
module CompactionWork {
  import opened Options
  import opened DbFormat
  import opened Tables
  import opened CompactionDrop
  import opened VersionSearch

  /** In a sorted level, with every file before i ending before k and file i not, no
      file other than i can cover k, and i does so iff it does not start after k. */
  lemma PassedCannotCover(files: Files, i: nat, k: UserKey)
    requires SortedLevel(files) && NonEmptyRanges(files) && i < |files| && k <= files[i].Hi()
    requires forall j :: 0 <= j < i ==> files[j].Hi() < k
    ensures (exists t :: t in files && t.Covers(k)) <==> files[i].Lo() <= k
  {
    forall t | t in files && t.Covers(k) ensures files[i].Lo() <= k {
      var j :| 0 <= j < |files| && files[j] == t;
      if i < j {
        assert files[i] in files && Less(files[i].largest, t.smallest);
      }
    }
    assert files[i] in files;
  }

  // ----- how much of the level after next an output lies over -----

  /** How many files of a sorted level end before the key. */
  function PassedCount(files: Files, key: InternalKey): (n: nat)
    ensures n <= |files|
    ensures forall i :: 0 <= i < n ==> Less(files[i].largest, key)
    ensures n < |files| ==> !Less(files[n].largest, key)
  {
    if files == [] || !Less(files[0].largest, key) then 0 else 1 + PassedCount(files[1..], key)
  }

  /** Keys in order pass files in order. */
  lemma PassedGrows(files: Files, a: InternalKey, b: InternalKey)
    requires !Less(b, a)
    ensures PassedCount(files, a) <= PassedCount(files, b)
  {
    hide Less;
    var n := PassedCount(files, b);
    if n < PassedCount(files, a) {
      LessToNotAfter(files[n].largest, a, b);
    }
  }

  lemma LessToNotAfter(x: InternalKey, a: InternalKey, b: InternalKey)
    requires Less(x, a) && !Less(b, a)
    ensures Less(x, b)
  {
    CompareIsTotalOrder(a, b, a);
    CompareIsTotalOrder(x, a, b);
  }

  /** Bytes of the files of a level that end at or after a and before b. */
  function OverlapBytes(files: Files, a: InternalKey, b: InternalKey): nat {
    if files == [] then 0
    else
      var t := files[|files| - 1];
      OverlapBytes(files[..|files| - 1], a, b) + if !Less(t.largest, a) && Less(t.largest, b) then t.size else 0
  }

  lemma SumStep(files: Files, i: nat, j: nat)
    requires i <= j < |files|
    ensures TotalFileSize(files[i..j + 1]) == TotalFileSize(files[i..j]) + files[j].size
  {
    assert files[i..j + 1][..j - i] == files[i..j];
  }

  lemma {:induction false} SumSplit(files: Files, i: nat, j: nat, k: nat)
    requires i <= j <= k <= |files|
    ensures TotalFileSize(files[i..k]) == TotalFileSize(files[i..j]) + TotalFileSize(files[j..k])
    decreases k
  {
    if j < k {
      SumSplit(files, i, j, k - 1);
      SumStep(files, i, k - 1);
      SumStep(files, j, k - 1);
    }
  }

  /** The files passed between two keys are those that end between them. */
  lemma {:induction false} SumIsOverlap(files: Files, a: InternalKey, b: InternalKey, n: nat)
    requires SortedLevel(files) && NonEmptyRanges(files) && n <= |files| && !Less(b, a)
    ensures
      var i, j := PassedCount(files, a), PassedCount(files, b);
      i <= j && OverlapBytes(files[..n], a, b) == TotalFileSize(if n <= i then [] else files[i..if n <= j then n else j])
  {
    hide Less, SortedLevel, NonEmptyRanges, PassedCount;
    PassedGrows(files, a, b);
    if n > 0 {
      var i, j := PassedCount(files, a), PassedCount(files, b);
      SumIsOverlap(files, a, b, n - 1);
      assert files[..n][..n - 1] == files[..n - 1];
      EndsBefore(files, a, n - 1);
      EndsBefore(files, b, n - 1);
      if i < n <= j {
        SumStep(files, i, n - 1);
      }
      assert i == n - 1 ==> files[i..n - 1] == [];
    }
  }

  lemma EndsBefore(files: Files, key: InternalKey, m: nat)
    requires SortedLevel(files) && NonEmptyRanges(files) && m < |files|
    ensures Less(files[m].largest, key) <==> m < PassedCount(files, key)
  {
    var n := PassedCount(files, key);
    if n < m {
      assert files[m] in files;
      assert Less(files[n].largest, files[m].smallest) && !Less(files[m].largest, files[m].smallest);
      CompareIsTotalOrder(files[n].largest, files[m].smallest, files[m].largest);
      CompareIsTotalOrder(files[n].largest, files[m].largest, key);
    }
  }

  lemma NotPassedYet(files: Files, n: nat, key: InternalKey)
    requires n <= PassedCount(files, key)
    ensures n < |files| ==> (Less(files[n].largest, key) <==> n < PassedCount(files, key))
    ensures n == |files| ==> n == PassedCount(files, key)
  {
  }

  lemma KeysAscend(input: seq<Entry>, i: nat)
    requires Sorted(input) && 0 < i < |input|
    ensures input[i - 1].key.ukey <= input[i].key.ukey && Less(input[i - 1].key, input[i].key) && !Less(input[i].key, input[i - 1].key)
  {
    assert Less(input[i - 1].key, input[i].key);
    CompareIsTotalOrder(input[i - 1].key, input[i].key, input[i - 1].key);
  }

  /** One turn: what the loop knows of the entry before decides whether entry i is dropped. */
  lemma KeptNext(input: seq<Entry>, i: nat, last: nat, snapshot: nat, v: Levels, level: nat)
    requires i < |input| && last == LastSequenceForKey(input, i)
    ensures
      var e := input[i];
      var drop := last <= snapshot || (e.key.kind.Deletion? && e.key.seqno <= snapshot && BaseLevel(v, level, e.key.ukey));
      && drop == DropAt(input, i, snapshot, v, level)
      && Kept(input, i + 1, snapshot, v, level) == Kept(input, i, snapshot, v, level) + if drop then [] else [e]
  {
    hide BaseLevel;
    assert Kept(input, i, snapshot, v, level) + [] == Kept(input, i, snapshot, v, level);
  }

  lemma NoneKept(input: seq<Entry>, snapshot: nat, v: Levels, level: nat)
    ensures Concat([]) + [] == Kept(input, 0, snapshot, v, level)
  {
  }

  lemma Appended(a: seq<Entry>, b: seq<Entry>, c: seq<Entry>)
    ensures a + b + c == a + (b + c) && a + [] == a
  {
  }

  // ----- output files -----

  ghost predicate NotFullBefore(full: seq<Entry> -> bool, o: seq<Entry>, n: nat)
    requires n <= |o|
  {
    forall m :: 0 < m < n ==> !full(o[..m])
  }

  /** A finished output: not empty, not full before its last entry, and over grandparents
      that end between its first and its last key of no more than the given size. */
  ghost predicate GoodOutput(full: seq<Entry> -> bool, grandparents: Files, max: nat, o: seq<Entry>) {
    && o != [] && NotFullBefore(full, o, |o|)
    && OverlapBytes(grandparents, o[0].key, o[|o| - 1].key) <= max
  }

  /** An output being written when the loop has come to a key, with the bytes of grandparents
      counted since the last stop. */
  ghost predicate Growing(full: seq<Entry> -> bool, grandparents: Files, max: nat, builder: seq<Entry>, at: InternalKey, bytes: nat) {
    && builder != [] && NotFullBefore(full, builder, |builder|) && bytes <= max
    && !Less(builder[|builder| - 1].key, builder[0].key) && !Less(at, builder[|builder| - 1].key)
    && PassedCount(grandparents, builder[0].key) <= PassedCount(grandparents, at)
    && TotalFileSize(grandparents[PassedCount(grandparents, builder[0].key)..PassedCount(grandparents, at)]) <= bytes
  }

  lemma GrownIsGood(full: seq<Entry> -> bool, grandparents: Files, max: nat, builder: seq<Entry>, at: InternalKey, bytes: nat)
    requires SortedLevel(grandparents) && NonEmptyRanges(grandparents) && Growing(full, grandparents, max, builder, at, bytes)
    ensures GoodOutput(full, grandparents, max, builder)
  {
    hide SortedLevel, NonEmptyRanges, PassedCount, Less, OverlapBytes, TotalFileSize, NotFullBefore;
    var a, b := builder[0].key, builder[|builder| - 1].key;
    var i, j, k := PassedCount(grandparents, a), PassedCount(grandparents, b), PassedCount(grandparents, at);
    PassedGrows(grandparents, b, at);
    SumIsOverlap(grandparents, a, b, |grandparents|);
    assert grandparents[..|grandparents|] == grandparents;
    SumSplit(grandparents, i, j, k);
    assert i == |grandparents| ==> grandparents[i..j] == [];
  }

  lemma GrowingLast(full: seq<Entry> -> bool, grandparents: Files, max: nat, builder: seq<Entry>, at: InternalKey, bytes: nat)
    requires Growing(full, grandparents, max, builder, at, bytes)
    ensures builder != [] && !Less(at, builder[|builder| - 1].key)
  {
  }

  /** The loop comes to the next key without a stop. */
  lemma GrowingOn(full: seq<Entry> -> bool, grandparents: Files, max: nat, builder: seq<Entry>, at: InternalKey, bytes: nat,
      at': InternalKey, bytes': nat)
    requires Growing(full, grandparents, max, builder, at, bytes) && Less(at, at') && bytes' <= max
    requires PassedCount(grandparents, at) <= PassedCount(grandparents, at')
    requires bytes' == bytes + TotalFileSize(grandparents[PassedCount(grandparents, at)..PassedCount(grandparents, at')])
    ensures Growing(full, grandparents, max, builder, at', bytes')
  {
    hide PassedCount, Less, TotalFileSize, NotFullBefore;
    LessIsNotAfter(builder[|builder| - 1].key, at, at');
    SumSplit(grandparents, PassedCount(grandparents, builder[0].key), PassedCount(grandparents, at), PassedCount(grandparents, at'));
  }

  lemma LessIsNotAfter(x: InternalKey, a: InternalKey, b: InternalKey)
    requires !Less(a, x) && Less(a, b)
    ensures !Less(b, x)
  {
    CompareIsTotalOrder(a, b, x);
  }

  /** The entry at that key goes in. */
  lemma GrowingAdd(full: seq<Entry> -> bool, grandparents: Files, max: nat, builder: seq<Entry>, bytes: nat, e: Entry)
    requires builder != [] ==> Growing(full, grandparents, max, builder, e.key, bytes) && !full(builder)
    requires bytes <= max
    ensures Growing(full, grandparents, max, builder + [e], e.key, bytes)
  {
    hide PassedCount;
    var more, n := builder + [e], |builder|;
    CompareIsTotalOrder(e.key, e.key, e.key);
    if builder != [] {
      NotAfterChain(builder[0].key, builder[n - 1].key, e.key);
      forall m | 0 < m < n + 1 ensures !full(more[..m]) {
        assert m < n ==> more[..m] == builder[..m];
        assert m == n ==> more[..m] == builder;
      }
    } else {
      var i := PassedCount(grandparents, e.key);
      assert grandparents[i..i] == [];
    }
  }

  lemma NotAfterChain(a: InternalKey, b: InternalKey, c: InternalKey)
    requires !Less(b, a) && !Less(c, b)
    ensures !Less(c, a)
  {
    CompareIsTotalOrder(c, a, b);
    CompareIsTotalOrder(a, b, a);
  }

  // ----- where outputs end -----

  /** Bytes of grandparents passed since the last stop when the loop comes to entry n. */
  function BytesAt(grandparents: Files, max: nat, input: seq<Entry>, n: nat): nat
    requires n < |input|
  {
    if n == 0 then 0
    else
      var bytes := BytesAt(grandparents, max, input, n - 1);
      var i, j := PassedCount(grandparents, input[n - 1].key), PassedCount(grandparents, input[n].key);
      StopsReset(bytes, max) + if i <= j then TotalFileSize(grandparents[i..j]) else 0
  }

  function StopsReset(bytes: nat, max: nat): nat {
    if bytes > max then 0 else bytes
  }

  function LastKey(o: seq<Entry>): InternalKey
    requires o != []
  {
    o[|o| - 1].key
  }

  /** An output may end where the next one begins: it is full, or the loop came to an entry
      between them with too many bytes passed. */
  ghost predicate CutOk(full: seq<Entry> -> bool, grandparents: Files, max: nat, input: seq<Entry>, o: seq<Entry>, next: InternalKey) {
    o != [] && (full(o) || exists n: nat :: StopBetween(grandparents, max, input, LastKey(o), next, n))
  }

  ghost predicate StopBetween(grandparents: Files, max: nat, input: seq<Entry>, last: InternalKey, next: InternalKey, n: nat) {
    n < |input| && BytesAt(grandparents, max, input, n) > max && Less(last, input[n].key) && !Less(next, input[n].key)
  }

  /** Every output but the last ends for a reason. */
  ghost predicate Cuts(full: seq<Entry> -> bool, grandparents: Files, max: nat, input: seq<Entry>, outputs: seq<seq<Entry>>) {
    forall c :: 0 < c < |outputs| ==> CutAt(full, grandparents, max, input, outputs, c)
  }

  ghost predicate CutAt(full: seq<Entry> -> bool, grandparents: Files, max: nat, input: seq<Entry>, outputs: seq<seq<Entry>>, c: nat)
    requires 0 < c < |outputs|
  {
    outputs[c] != [] && CutOk(full, grandparents, max, input, outputs[c - 1], outputs[c][0].key)
  }

  lemma NoCuts(full: seq<Entry> -> bool, grandparents: Files, max: nat, input: seq<Entry>)
    ensures Cuts(full, grandparents, max, input, [])
  {
  }

  /** Closing an output after which the next may begin at any entry from m on. */
  lemma CutsNext(full: seq<Entry> -> bool, grandparents: Files, max: nat, input: seq<Entry>, outputs: seq<seq<Entry>>, builder: seq<Entry>)
    requires Cuts(full, grandparents, max, input, outputs) && builder != []
    requires outputs != [] ==> CutOk(full, grandparents, max, input, outputs[|outputs| - 1], builder[0].key)
    ensures Cuts(full, grandparents, max, input, Finish(outputs, builder))
    ensures |Finish(outputs, builder)| > 0 && Finish(outputs, builder)[|Finish(outputs, builder)| - 1] == builder
  {
    hide CutOk;
    var all := Finish(outputs, builder);
    assert all == outputs + [builder];
    forall c | 0 < c < |all| ensures CutAt(full, grandparents, max, input, all, c) {
      if c < |outputs| {
        assert CutAt(full, grandparents, max, input, outputs, c);
      }
    }
  }

  /** A stop at entry i lets the next output begin anywhere from there on. */
  lemma StopIsReason(full: seq<Entry> -> bool, grandparents: Files, max: nat, input: seq<Entry>, o: seq<Entry>, i: nat)
    requires Sorted(input) && 0 < i < |input| && BytesAt(grandparents, max, input, i) > max
    requires o != [] && !Less(input[i - 1].key, o[|o| - 1].key)
    ensures forall m :: i <= m < |input| ==> CutOk(full, grandparents, max, input, o, input[m].key)
  {
    hide BytesAt;
    KeysAscend(input, i);
    NotAfterThenLess(o[|o| - 1].key, input[i - 1].key, input[i].key);
    forall m | i <= m < |input| ensures CutOk(full, grandparents, max, input, o, input[m].key) {
      if i < m {
        assert Less(input[i].key, input[m].key);
      }
      CompareIsTotalOrder(input[i].key, input[m].key, input[i].key);
      assert StopBetween(grandparents, max, input, LastKey(o), input[m].key, i);
    }
  }

  lemma NotAfterThenLess(x: InternalKey, a: InternalKey, b: InternalKey)
    requires !Less(a, x) && Less(a, b)
    ensures Less(x, b)
  {
    CompareIsTotalOrder(x, a, b);
  }

  lemma FullIsReason(full: seq<Entry> -> bool, grandparents: Files, max: nat, input: seq<Entry>, o: seq<Entry>)
    requires o != [] && full(o)
    ensures forall k :: CutOk(full, grandparents, max, input, o, k)
  {
  }

  lemma BytesNext(grandparents: Files, max: nat, input: seq<Entry>, i: nat, bytes: nat)
    requires i < |input|
    requires i > 0 ==> bytes == StopsReset(BytesAt(grandparents, max, input, i - 1), max)
    requires i > 0 ==> PassedCount(grandparents, input[i - 1].key) <= PassedCount(grandparents, input[i].key)
    ensures BytesAt(grandparents, max, input, i)
      == if i == 0 then 0
         else bytes + TotalFileSize(grandparents[PassedCount(grandparents, input[i - 1].key)..PassedCount(grandparents, input[i].key)])
  {
  }

  // ----- the outputs while the loop runs -----

  /** Outputs and the one being written when the loop has done i entries and come to a key. */
  ghost predicate Written(full: seq<Entry> -> bool, grandparents: Files, max: nat, input: seq<Entry>, i: nat, at: InternalKey,
      outputs: seq<seq<Entry>>, builder: seq<Entry>, bytes: nat) {
    && (forall o :: o in outputs ==> GoodOutput(full, grandparents, max, o))
    && Cuts(full, grandparents, max, input, outputs)
    && (builder != [] ==> Growing(full, grandparents, max, builder, at, bytes) && !full(builder))
    && (outputs != [] && builder != [] ==> CutOk(full, grandparents, max, input, outputs[|outputs| - 1], builder[0].key))
    && (outputs != [] && builder == [] ==>
          forall m :: i <= m < |input| ==> CutOk(full, grandparents, max, input, outputs[|outputs| - 1], input[m].key))
  }

  /** Before entry i. */
  ghost predicate Writing(full: seq<Entry> -> bool, grandparents: Files, max: nat, input: seq<Entry>, i: nat,
      outputs: seq<seq<Entry>>, builder: seq<Entry>, bytes: nat) {
    && i <= |input|
    && (i == 0 ==> outputs == [] && builder == [] && bytes == 0)
    && (i > 0 ==> bytes == StopsReset(BytesAt(grandparents, max, input, i - 1), max))
    && (i > 0 ==> Written(full, grandparents, max, input, i, input[i - 1].key, outputs, builder, bytes))
  }

  lemma NoneWritten(full: seq<Entry> -> bool, grandparents: Files, max: nat, input: seq<Entry>)
    ensures Writing(full, grandparents, max, input, 0, [], [], 0)
  {
  }

  lemma WritingBytes(full: seq<Entry> -> bool, grandparents: Files, max: nat, input: seq<Entry>, i: nat,
      outputs: seq<seq<Entry>>, builder: seq<Entry>, bytes: nat)
    requires Writing(full, grandparents, max, input, i, outputs, builder, bytes)
    ensures i <= |input| && if i == 0 then bytes == 0 else bytes == StopsReset(BytesAt(grandparents, max, input, i - 1), max)
  {
  }

  /** The loop comes to entry i; when too many bytes are passed the output ends. */
  lemma StopStep(full: seq<Entry> -> bool, grandparents: Files, max: nat, input: seq<Entry>, i: nat,
      outputs: seq<seq<Entry>>, builder: seq<Entry>, bytes: nat, outputs': seq<seq<Entry>>, builder': seq<Entry>)
    requires Sorted(input) && SortedLevel(grandparents) && NonEmptyRanges(grandparents) && i < |input|
    requires Writing(full, grandparents, max, input, i, outputs, builder, bytes)
    requires i > 0 ==> PassedCount(grandparents, input[i - 1].key) <= PassedCount(grandparents, input[i].key)
    requires
      if BytesAt(grandparents, max, input, i) > max && builder != [] then outputs' == Finish(outputs, builder) && builder' == []
      else outputs' == outputs && builder' == builder
    ensures Written(full, grandparents, max, input, i, input[i].key, outputs', builder', StopsReset(BytesAt(grandparents, max, input, i), max))
  {
    hide Sorted, SortedLevel, NonEmptyRanges, PassedCount, GoodOutput, Cuts, CutOk, Growing, BytesAt, Less;
    if i == 0 {
      NoCuts(full, grandparents, max, input);
    } else {
      BytesNext(grandparents, max, input, i, bytes);
      var at := input[i - 1].key;
      if builder != [] {
        GrowingLast(full, grandparents, max, builder, at, bytes);
        if BytesAt(grandparents, max, input, i) > max {
          GrownIsGood(full, grandparents, max, builder, at, bytes);
          CutsNext(full, grandparents, max, input, outputs, builder);
          StopIsReason(full, grandparents, max, input, builder, i);
        } else {
          KeysAscend(input, i);
          GrowingOn(full, grandparents, max, builder, at, bytes, input[i].key, BytesAt(grandparents, max, input, i));
        }
      }
    }
  }

  /** Entry i is dropped. */
  lemma SkipStep(full: seq<Entry> -> bool, grandparents: Files, max: nat, input: seq<Entry>, i: nat,
      outputs: seq<seq<Entry>>, builder: seq<Entry>, bytes: nat)
    requires i < |input| && bytes == StopsReset(BytesAt(grandparents, max, input, i), max)
    requires Written(full, grandparents, max, input, i, input[i].key, outputs, builder, bytes)
    ensures Writing(full, grandparents, max, input, i + 1, outputs, builder, bytes)
  {
    hide GoodOutput, Cuts, CutOk, Growing, BytesAt;
  }

  /** Entry i is added; a full output ends with it. */
  lemma AddStep(full: seq<Entry> -> bool, grandparents: Files, max: nat, input: seq<Entry>, i: nat,
      outputs: seq<seq<Entry>>, builder: seq<Entry>, bytes: nat)
    requires SortedLevel(grandparents) && NonEmptyRanges(grandparents) && i < |input|
    requires bytes == StopsReset(BytesAt(grandparents, max, input, i), max)
    requires Written(full, grandparents, max, input, i, input[i].key, outputs, builder, bytes)
    ensures
      var more := builder + [input[i]];
      if full(more) then Writing(full, grandparents, max, input, i + 1, Finish(outputs, more), [], bytes)
      else Writing(full, grandparents, max, input, i + 1, outputs, more, bytes)
  {
    hide SortedLevel, NonEmptyRanges, GoodOutput, Cuts, CutOk, Growing, BytesAt;
    var more := builder + [input[i]];
    GrowingAdd(full, grandparents, max, builder, bytes, input[i]);
    assert more[0] == if builder == [] then input[i] else builder[0];
    if full(more) {
      GrownIsGood(full, grandparents, max, more, input[i].key, bytes);
      CutsNext(full, grandparents, max, input, outputs, more);
      FullIsReason(full, grandparents, max, input, more);
    }
  }

  /** The last output ends with the loop. */
  lemma LastStep(full: seq<Entry> -> bool, grandparents: Files, max: nat, input: seq<Entry>,
      outputs: seq<seq<Entry>>, builder: seq<Entry>, bytes: nat)
    requires SortedLevel(grandparents) && NonEmptyRanges(grandparents)
    requires Writing(full, grandparents, max, input, |input|, outputs, builder, bytes)
    ensures
      var all := if builder != [] then Finish(outputs, builder) else outputs;
      (forall o :: o in all ==> GoodOutput(full, grandparents, max, o)) && Cuts(full, grandparents, max, input, all)
  {
    hide SortedLevel, NonEmptyRanges, GoodOutput, Cuts, CutOk, Growing, BytesAt;
    NoCuts(full, grandparents, max, input);
    if builder != [] {
      GrownIsGood(full, grandparents, max, builder, input[|input| - 1].key, bytes);
      CutsNext(full, grandparents, max, input, outputs, builder);
    }
  }

  class Compaction {
    const inputVersion: Levels
    const level: nat
    const levelPtrs: array<nat>
    ghost var lastAsked: Option<UserKey>
    const grandparents: Files
    const maxGrandparentBytes: nat
    var grandparentIndex: nat
    var seenKey: bool
    var overlappedBytes: nat
    ghost var lastKey: Option<InternalKey>

    /** The files a level pointer has passed all end before the last key asked for. */
    ghost predicate Valid()
      reads this`lastAsked, levelPtrs
    {
      && levelPtrs.Length == NUM_LEVELS
      && (forall m :: level + 2 <= m < NUM_LEVELS ==> SortedLevel(inputVersion[m]) && NonEmptyRanges(inputVersion[m]))
      && (forall m :: level + 2 <= m < NUM_LEVELS ==> levelPtrs[m] <= |inputVersion[m]|)
      && (forall m, i :: level + 2 <= m < NUM_LEVELS && 0 <= i < levelPtrs[m] ==>
            lastAsked.Some? && inputVersion[m][i].Hi() < lastAsked.value)
    }

    /** The grandparents passed so far are those that end before the last key. */
    ghost predicate Counting()
      reads this`grandparentIndex, this`seenKey, this`overlappedBytes, this`lastKey
    {
      && SortedLevel(grandparents) && NonEmptyRanges(grandparents)
      && (seenKey <==> lastKey.Some?)
      && grandparentIndex == (if lastKey.Some? then PassedCount(grandparents, lastKey.value) else 0)
      && overlappedBytes <= maxGrandparentBytes && (lastKey.None? ==> overlappedBytes == 0)
    }

    constructor (v: Levels, level: nat, grandparents: Files, maxGrandparentBytes: nat)
      requires forall m :: level + 2 <= m < NUM_LEVELS ==> SortedLevel(v[m]) && NonEmptyRanges(v[m])
      requires SortedLevel(grandparents) && NonEmptyRanges(grandparents)
      ensures Valid() && inputVersion == v && this.level == level && lastAsked == None && fresh(levelPtrs)
      ensures Counting() && lastKey == None && this.grandparents == grandparents && this.maxGrandparentBytes == maxGrandparentBytes
    {
      inputVersion, this.level, lastAsked := v, level, None;
      levelPtrs := new nat[NUM_LEVELS](_ => 0);
      this.grandparents, this.maxGrandparentBytes := grandparents, maxGrandparentBytes;
      grandparentIndex, seenKey, overlappedBytes, lastKey := 0, false, 0, None;
    }

    /** Counts the bytes of the grandparents passed since the last stop, the first key of all
        excepted, and stops when they are too many. */
    method ShouldStopBefore(key: InternalKey) returns (stop: bool)
      requires Counting() && (lastKey.Some? ==> !Less(key, lastKey.value))
      modifies this`grandparentIndex, this`seenKey, this`overlappedBytes, this`lastKey
      ensures Counting() && lastKey == Some(key) && grandparentIndex >= old(grandparentIndex)
      ensures
        var passed := old(overlappedBytes)
          + if old(seenKey) then TotalFileSize(grandparents[old(grandparentIndex)..grandparentIndex]) else 0;
        stop == (passed > maxGrandparentBytes) && overlappedBytes == if stop then 0 else passed
    {
      hide Less, SortedLevel, NonEmptyRanges, PassedCount;
      ghost var from, bytes := grandparentIndex, overlappedBytes;
      if lastKey.Some? {
        PassedGrows(grandparents, lastKey.value, key);
      }
      assert grandparents[from..from] == [];
      while grandparentIndex < |grandparents| && Less(grandparents[grandparentIndex].largest, key)
        invariant from <= grandparentIndex <= |grandparents| && seenKey == old(seenKey)
        invariant grandparentIndex <= PassedCount(grandparents, key)
        invariant overlappedBytes == bytes + if seenKey then TotalFileSize(grandparents[from..grandparentIndex]) else 0
      {
        SumStep(grandparents, from, grandparentIndex);
        NotPassedYet(grandparents, grandparentIndex, key);
        if seenKey {
          overlappedBytes := overlappedBytes + grandparents[grandparentIndex].size;
        }
        grandparentIndex := grandparentIndex + 1;
      }
      NotPassedYet(grandparents, grandparentIndex, key);
      seenKey := true;
      lastKey := Some(key);
      if overlappedBytes > maxGrandparentBytes {
        overlappedBytes := 0;
        return true;
      }
      return false;
    }

    /** Advances the pointer of one level to the first file not entirely before k and
        says whether that file, hence any file of the level, covers k. */
    method AdvanceLevel(lvl: nat, k: UserKey) returns (covered: bool)
      requires Valid() && lastAsked == Some(k) && level + 2 <= lvl < NUM_LEVELS
      modifies levelPtrs
      ensures Valid()
      ensures covered <==> exists t :: t in inputVersion[lvl] && t.Covers(k)
    {
      var files := inputVersion[lvl];
      while levelPtrs[lvl] < |files|
        invariant Valid()
      {
        var f := files[levelPtrs[lvl]];
        if k <= f.Hi() {
          PassedCannotCover(files, levelPtrs[lvl], k);
          assert f in files;
          return k >= f.Lo();
        }
        levelPtrs[lvl] := levelPtrs[lvl] + 1;
      }
      return false;
    }

    /** True exactly when no file two or more levels down covers the key, provided keys
        are asked for in ascending order. */
    method IsBaseLevelForKey(k: UserKey) returns (base: bool)
      requires Valid() && (lastAsked.Some? ==> lastAsked.value <= k)
      modifies this`lastAsked, levelPtrs
      ensures Valid() && lastAsked == Some(k)
      ensures base <==> BaseLevel(inputVersion, level, k)
    {
      lastAsked := Some(k);
      var lvl := level + 2;
      while lvl < NUM_LEVELS
        invariant level + 2 <= lvl
        invariant Valid() && lastAsked == Some(k)
        invariant forall m, t :: level + 2 <= m < lvl && m < NUM_LEVELS && t in inputVersion[m] ==> !t.Covers(k)
      {
        var covered := AdvanceLevel(lvl, k);
        if covered {
          return false;
        }
        lvl := lvl + 1;
      }
      return true;
    }

    /** The loop over the merged input.  Whatever makes a file full, the outputs together are
        exactly the kept entries in order; none is empty, none was full before its last
        entry, and none lies over too many grandparents. */
    method DoCompactionWork(input: seq<Entry>, smallestSnapshot: nat, full: seq<Entry> -> bool) returns (outputs: seq<seq<Entry>>)
      requires Valid() && lastAsked == None && Sorted(input) && Counting() && lastKey == None
      modifies this, levelPtrs
      ensures Concat(outputs) == Kept(input, |input|, smallestSnapshot, inputVersion, level)
      ensures forall o :: o in outputs ==> GoodOutput(full, grandparents, maxGrandparentBytes, o)
      ensures Cuts(full, grandparents, maxGrandparentBytes, input, outputs)
    {
      hide BytesAt, Cuts, Sorted, Less, Kept, DropAt, Concat, BaseLevel, Valid, Counting, GoodOutput, Writing,
        Written, PassedCount;
      NoneKept(input, smallestSnapshot, inputVersion, level);
      NoneWritten(full, grandparents, maxGrandparentBytes, input);
      CountingFacts();
      outputs := [];
      var builder: seq<Entry> := [];
      var currentUserKey: Option<UserKey> := None;
      var lastSequenceForKey := MAX_SEQUENCE;
      for i := 0 to |input|
        invariant Valid() && Counting()
        invariant lastAsked.Some? ==> i > 0 && lastAsked.value <= input[i - 1].key.ukey
        invariant lastKey == if i == 0 then None else Some(input[i - 1].key)
        invariant currentUserKey == if i == 0 then None else Some(input[i - 1].key.ukey)
        invariant lastSequenceForKey == if i == 0 then MAX_SEQUENCE else input[i - 1].key.seqno
        invariant Concat(outputs) + builder == Kept(input, i, smallestSnapshot, inputVersion, level)
        invariant Writing(full, grandparents, maxGrandparentBytes, input, i, outputs, builder, overlappedBytes)
      {
        var key := input[i].key;
        if i > 0 {
          KeysAscend(input, i);
        }
        ghost var outputs0, builder0, bytes := outputs, builder, overlappedBytes;
        CountingFacts();
        var stop := ShouldStopBefore(key);
        CountingFacts();
        WritingBytes(full, grandparents, maxGrandparentBytes, input, i, outputs, builder, bytes);
        BytesNext(grandparents, maxGrandparentBytes, input, i, bytes);
        if stop && builder != [] {
          Appended(Concat(outputs), builder, []);
          outputs, builder := Finish(outputs, builder), [];
        }
        StopStep(full, grandparents, maxGrandparentBytes, input, i, outputs0, builder0, bytes, outputs, builder);
        var drop := false;
        if currentUserKey.None? || key.ukey != currentUserKey.value {
          currentUserKey := Some(key.ukey);
          lastSequenceForKey := MAX_SEQUENCE;
        }
        KeptNext(input, i, lastSequenceForKey, smallestSnapshot, inputVersion, level);
        if lastSequenceForKey <= smallestSnapshot {
          drop := true;
        } else if key.kind.Deletion? && key.seqno <= smallestSnapshot {
          drop := IsBaseLevelForKey(key.ukey);
        }
        lastSequenceForKey := key.seqno;
        if !drop {
          Appended(Concat(outputs), builder, [input[i]]);
          AddStep(full, grandparents, maxGrandparentBytes, input, i, outputs, builder, overlappedBytes);
          builder := builder + [input[i]];
          if full(builder) {
            Appended(Concat(Finish(outputs, builder)), [], []);
            outputs, builder := Finish(outputs, builder), [];
          }
        } else {
          SkipStep(full, grandparents, maxGrandparentBytes, input, i, outputs, builder, overlappedBytes);
        }
      }
      Appended(Concat(outputs), builder, []);
      CountingFacts();
      LastStep(full, grandparents, maxGrandparentBytes, input, outputs, builder, overlappedBytes);
      if builder != [] {
        outputs, builder := Finish(outputs, builder), [];
      }
    }

    lemma CountingFacts()
      requires Counting()
      ensures lastKey.None? ==> overlappedBytes == 0
      ensures grandparentIndex <= |grandparents| && overlappedBytes <= maxGrandparentBytes && (seenKey <==> lastKey.Some?)
      ensures SortedLevel(grandparents) && NonEmptyRanges(grandparents)
      ensures lastKey.Some? ==> grandparentIndex == PassedCount(grandparents, lastKey.value)
    {
    }
  }

  /** Closing an output file appends it to the list. */
  function Finish(outputs: seq<seq<Entry>>, builder: seq<Entry>): (r: seq<seq<Entry>>)
    ensures Concat(r) == Concat(outputs) + builder
  {
    var r := outputs + [builder];
    assert r[..|r| - 1] == outputs;
    r
  }
}

/** The iterator users see.  It walks internal entries (all versions of all keys) and
    shows, for the snapshot it reads at, each live user key once with its current value. */
module DbIter {
  import opened Options
  import opened DbFormat
  import opened CompactionDrop
  import opened Cursors
  import Merger

  // ----- what is to be shown -----

  predicate VisibleAt(es: seq<Entry>, s: nat, i: nat)
    requires i < |es|
  {
    es[i].key.seqno <= s
  }

  /** Entry i holds the current value of a live key: it is the newest visible entry of
      its user key and not a deletion marker. */
  predicate Yields(es: seq<Entry>, s: nat, i: nat)
    requires i < |es|
  {
    && VisibleAt(es, s, i) && es[i].key.kind.Put?
    && forall j: nat :: j < i && es[j].key.ukey == es[i].key.ukey ==> !VisibleAt(es, s, j)
  }

  /** The positions below n to be shown, in order. */
  function Live(es: seq<Entry>, s: nat, n: nat): (live: seq<nat>)
    requires n <= |es|
    ensures forall p :: 0 <= p < |live| ==> live[p] < n
  {
    if n == 0 then [] else Live(es, s, n - 1) + if Yields(es, s, n - 1) then [n - 1] else []
  }

  lemma {:induction false} LiveMembers(es: seq<Entry>, s: nat, n: nat)
    requires n <= |es|
    ensures forall i: nat :: i in Live(es, s, n) <==> i < n && Yields(es, s, i)
    ensures forall p, q :: 0 <= p < q < |Live(es, s, n)| ==> Live(es, s, n)[p] < Live(es, s, n)[q]
  {
    if n > 0 {
      LiveMembers(es, s, n - 1);
    }
  }

  lemma SortedKeys(es: seq<Entry>)
    requires Sorted(es)
    ensures forall i, j :: 0 <= i <= j < |es| ==> es[i].key.ukey <= es[j].key.ukey
    ensures forall i, j :: 0 <= i < j < |es| && es[i].key.ukey == es[j].key.ukey ==> es[i].key.seqno >= es[j].key.seqno
  {
    forall i, j | 0 <= i < j < |es|
      ensures es[i].key.ukey <= es[j].key.ukey
      ensures es[i].key.ukey == es[j].key.ukey ==> es[i].key.seqno >= es[j].key.seqno
    {
      assert Less(es[i].key, es[j].key);
    }
  }

  /** The shown list is the read specification: a key is shown exactly when reading it at
      the snapshot finds a value, with that value. */
  lemma LiveIsRead(es: seq<Entry>, s: nat, k: UserKey, v: Value)
    requires Sorted(es) && Distinct(SetOf(es))
    ensures (exists i :: i in Live(es, s, |es|) && es[i].key.ukey == k && es[i].value == v)
      <==> Read(SetOf(es), k, s) == Found(v)
  {
    hide Sorted, Distinct, Read, Yields, Live;
    LiveMembers(es, s, |es|);
    if i :| i in Live(es, s, |es|) && es[i].key.ukey == k && es[i].value == v {
      ShownIsRead(es, s, i);
    }
    if Read(SetOf(es), k, s) == Found(v) {
      var i := ReadIsShown(es, s, k, v);
      assert i in Live(es, s, |es|);
    }
  }

  lemma ShownIsRead(es: seq<Entry>, s: nat, i: nat)
    requires Sorted(es) && Distinct(SetOf(es)) && i < |es| && Yields(es, s, i)
    ensures Read(SetOf(es), es[i].key.ukey, s) == Found(es[i].value)
  {
    hide Sorted, Distinct, Read;
    YieldsIsNewest(es, s, i);
    ReadNewest(SetOf(es), es[i].key.ukey, s, es[i]);
  }

  lemma ReadIsShown(es: seq<Entry>, s: nat, k: UserKey, v: Value) returns (i: nat)
    requires Sorted(es) && Distinct(SetOf(es)) && Read(SetOf(es), k, s) == Found(v)
    ensures i < |es| && Yields(es, s, i) && es[i].key.ukey == k && es[i].value == v
  {
    hide Less, Sorted;
    SortedKeys(es);
    var e := TheNewest(SetOf(es), k, s);
    i :| i < |es| && es[i] == e;
    forall j: nat | j < i && es[j].key.ukey == k ensures !VisibleAt(es, s, j) {
      if VisibleAt(es, s, j) {
        assert Visible(SetOf(es), k, s, es[j]);
        SortedDiffer(es, j, i);
      }
    }
  }

  lemma SortedDiffer(es: seq<Entry>, i: nat, j: nat)
    requires Sorted(es) && i < j < |es|
    ensures es[i] != es[j]
  {
    assert Less(es[i].key, es[j].key);
  }

  lemma YieldsIsNewest(es: seq<Entry>, s: nat, i: nat)
    requires Sorted(es) && i < |es| && Yields(es, s, i)
    ensures Newest(SetOf(es), es[i].key.ukey, s, es[i])
  {
    hide Less;
    SortedKeys(es);
    forall x | Visible(SetOf(es), es[i].key.ukey, s, x) ensures x.key.seqno <= es[i].key.seqno {
      var j: nat :| j < |es| && es[j] == x;
      assert VisibleAt(es, s, j);
    }
  }

  lemma LiveKeysAscend(es: seq<Entry>, s: nat, p: nat, q: nat)
    requires Sorted(es) && p < q < |Live(es, s, |es|)|
    ensures es[Live(es, s, |es|)[p]].key.ukey < es[Live(es, s, |es|)[q]].key.ukey
  {
    hide Less;
    LiveMembers(es, s, |es|);
    SortedKeys(es);
    var i, j := Live(es, s, |es|)[p], Live(es, s, |es|)[q];
    assert i in Live(es, s, |es|) && j in Live(es, s, |es|);
  }

  // ----- ranks -----

  /** Stretches without shown entries do not change the rank. */
  lemma {:induction false} NoneBetween(es: seq<Entry>, s: nat, a: nat, b: nat)
    requires a <= b <= |es| && forall j: nat :: a <= j < b ==> !Yields(es, s, j)
    ensures Live(es, s, a) == Live(es, s, b)
  {
    if a < b {
      NoneBetween(es, s, a, b - 1);
    }
  }

  lemma {:induction false} LivePrefix(es: seq<Entry>, s: nat, a: nat, b: nat)
    requires a <= b <= |es|
    ensures Live(es, s, a) <= Live(es, s, b)
  {
    if a < b {
      LivePrefix(es, s, a, b - 1);
    }
  }

  /** The place of a shown entry in the shown list. */
  function Rank(es: seq<Entry>, s: nat, i: nat): nat
    requires i <= |es|
  {
    |Live(es, s, i)|
  }

  lemma RankAt(es: seq<Entry>, s: nat, i: nat)
    requires i < |es| && Yields(es, s, i)
    ensures Rank(es, s, i) < |Live(es, s, |es|)| && Live(es, s, |es|)[Rank(es, s, i)] == i
  {
    LivePrefix(es, s, i + 1, |es|);
    assert Live(es, s, i + 1)[Rank(es, s, i)] == i;
  }

  /** The next shown entry has the next rank. */
  lemma RankNext(es: seq<Entry>, s: nat, i: nat, j: nat)
    requires i < |es| && Yields(es, s, i) && i < j <= |es| && forall m: nat :: i < m < j ==> !Yields(es, s, m)
    ensures Rank(es, s, j) == Rank(es, s, i) + 1
  {
    NoneBetween(es, s, i + 1, j);
  }

  datatype Direction = Forward | Reverse

  class DBIter {
    const iter: Merger.MergingIterator
    const sequence: nat
    var savedKey: Option<UserKey>
    var savedValue: Value
    var direction: Direction
    var valid: bool
    ghost var at: nat

    ghost predicate Ok()
      reads this, iter, iter.children
    {
      && iter.Ok()
      && (valid ==>
            && at < |iter.Merged()| && Yields(iter.Merged(), sequence, at)
            && (direction.Forward? ==> iter.pos == at)
            && (direction.Reverse? ==>
                  && savedKey == Some(iter.Merged()[at].key.ukey) && savedValue == iter.Merged()[at].value
                  && Passed(iter.Merged(), sequence, iter.pos, at)))
    }

    /** What is shown, as positions in the internal list. */
    ghost function Shown(): seq<nat>
      reads this, iter, iter.children
    {
      Live(iter.Merged(), sequence, |iter.Merged()|)
    }

    /** The cursor: a place in the shown list, or its length when not valid. */
    ghost function Cursor(): (c: nat)
      reads this, iter, iter.children
      requires Ok()
    {
      if valid then Rank(iter.Merged(), sequence, at) else |Shown()|
    }

    constructor (iter: Merger.MergingIterator, sequence: nat)
      requires iter.Ok()
      ensures Ok() && this.iter == iter && this.sequence == sequence && Cursor() == |Shown()|
    {
      this.iter, this.sequence := iter, sequence;
      savedKey, savedValue, direction, valid, at := None, [], Forward, false, 0;
    }

    /** A valid iterator shows the key and value of its place in the list. */
    lemma CursorShows()
      requires Ok() && valid
      ensures Cursor() < |Shown()| && Shown()[Cursor()] == at
    {
      RankAt(iter.Merged(), sequence, at);
    }

    method Key() returns (k: UserKey)
      requires Ok() && valid
      ensures Cursor() < |Shown()| && k == iter.Merged()[Shown()[Cursor()]].key.ukey
    {
      CursorShows();
      k := if direction.Forward? then iter.Key().ukey else savedKey.value;
    }

    method Value() returns (v: Value)
      requires Ok() && valid
      ensures Cursor() < |Shown()| && v == iter.Merged()[Shown()[Cursor()]].value
    {
      CursorShows();
      v := if direction.Forward? then iter.Value() else savedValue;
    }

    /** Walks forward to the first shown entry, past the saved key when skipping. */
    method FindNextUserEntry(skipping: bool)
      requires iter.Ok() && iter.Valid() && direction.Forward? && (skipping ==> savedKey.Some?)
      requires Behind(iter.Merged(), sequence, iter.pos, if skipping then savedKey else None)
      requires skipping ==> NothingBelow(iter.Merged(), sequence, iter.pos, savedKey.value)
      modifies this, iter, iter.children
      ensures Ok() && direction.Forward?
      ensures FirstFrom(iter.Merged(), sequence, old(iter.pos), if skipping then old(savedKey) else None, if valid then at else |iter.Merged()|)
    {
      hide Merger.MergingIterator.Ok, Merger.MergingIterator.Valid, Merger.MergingIterator.Key,
        Merger.MergingIterator.Value, Merger.MergingIterator.Merged, Less, Sorted, Behind, NothingShown, NothingBelow,
        Yields, SkipSource;
      iter.ValidBeforeEnd();
      var skip := skipping;
      ghost var es, from, skip0 := iter.Merged(), iter.pos, if skipping then savedKey else None;
      SearchStarts(es, sequence, from, skip0);
      var more := true;
      while more
        invariant iter.Ok() && direction.Forward? && from <= iter.pos <= |es| && more == iter.Valid() == (iter.pos < |es|)
        invariant skip ==> savedKey.Some?
        invariant Behind(es, sequence, iter.pos, if skip then savedKey else None)
        invariant SkipSource(es, sequence, iter.pos, skip0, if skip then savedKey else None)
        invariant NothingShown(es, sequence, from, iter.pos, skip0)
        invariant skip0.Some? ==> NothingBelow(es, sequence, iter.pos, skip0.value)
        decreases |es| - iter.pos
      {
        var ikey := iter.Key();
        ghost var i, was := iter.pos, if skip then savedKey else None;
        if ikey.seqno <= sequence {
          match ikey.kind {
            case Deletion =>
              savedKey := Some(ikey.ukey);
              skip := true;
              StepDeletion(es, sequence, from, i, skip0, was);
            case Put =>
              if skip && ikey.ukey <= savedKey.value {
                StepHidden(es, sequence, from, i, skip0, was);
              } else {
                StepShown(es, sequence, from, i, skip0, was);
                valid := true;
                at := iter.pos;
                savedKey := None;
                return;
              }
          }
        } else {
          StepTooNew(es, sequence, from, i, skip0, was);
        }
        iter.Next();
        more := iter.Valid();
      }
      savedKey := None;
      valid := false;
      SearchFails(es, sequence, from, skip0);
    }

    /** Walks backward over whole user keys to the nearest shown entry at or before the
        internal position, and on to the nearest visible entry before that key. */
    method FindPrevUserEntry()
      requires iter.Ok() && direction.Reverse?
      modifies this, iter, iter.children
      ensures Ok() && (if valid then direction.Reverse? else direction.Forward?)
      ensures valid ==> old(iter.pos) < |iter.Merged()| && LastUpTo(iter.Merged(), sequence, old(iter.pos), at)
      ensures !valid && old(iter.pos) < |iter.Merged()| ==> NoneShown(iter.Merged(), sequence, 0, old(iter.pos) + 1)
    {
      hide Merger.MergingIterator.Ok, Merger.MergingIterator.Valid, Merger.MergingIterator.Key,
        Merger.MergingIterator.Value, Merger.MergingIterator.Merged, Less, Sorted, Yields, Collected, NoneShown,
        Passed;
      iter.ValidBeforeEnd();
      ghost var es, p := iter.Merged(), iter.pos;
      var valueType := Deletion;
      ghost var y: nat := |es|;
      if iter.Valid() {
        CollectStarts(es, sequence, p);
        var more := true;
        while more
          invariant iter.Ok() && direction.Reverse? && more == iter.Valid() == (iter.pos < |es|) && iter.pos <= |es| && p < |es|
          invariant more ==> iter.pos <= p
          invariant valueType.Put? ==> y <= p && savedKey == Some(es[y].key.ukey) && savedValue == es[y].value
          invariant valueType.Deletion? ==> y == |es|
          invariant Collected(es, sequence, if more then iter.pos + 1 else 0, p, y)
          decreases if more then iter.pos + 1 else 0
        {
          var ikey := iter.Key();
          ghost var i := iter.pos;
          if ikey.seqno <= sequence {
            if valueType != Deletion && ikey.ukey < savedKey.value {
              CollectStops(es, sequence, i, p, y);
              break;
            }
            CollectVisible(es, sequence, i, p, y);
            valueType := ikey.kind;
            if valueType == Deletion {
              savedKey := None;
              savedValue := [];
              y := |es|;
            } else {
              savedKey := Some(ikey.ukey);
              savedValue := iter.Value();
              y := i;
            }
          } else {
            CollectTooNew(es, sequence, i, p, y);
          }
          iter.Prev();
          more := iter.Valid();
        }
        if iter.pos == |es| {
          CollectEnds(es, sequence, p, y);
        }
      }
      if valueType == Deletion {
        valid := false;
        savedKey := None;
        savedValue := [];
        direction := Forward;
      } else {
        valid := true;
        at := y;
      }
    }

    method SeekToFirst()
      requires Ok()
      modifies this, iter, iter.children
      ensures Ok() && Cursor() == 0
    {
      hide Merger.MergingIterator.Ok, Merger.MergingIterator.Valid, Merger.MergingIterator.Key,
        Merger.MergingIterator.Value, Merger.MergingIterator.Merged, Less, Sorted, Behind, NothingShown, Yields,
        FirstFrom, Live;
      iter.ValidBeforeEnd();
      direction := Forward;
      savedValue := [];
      iter.SeekToFirst();
      if iter.Valid() {
        NothingBehind(iter.Merged(), sequence);
        FindNextUserEntry(false);
        FirstIsZero(iter.Merged(), sequence, if valid then at else |iter.Merged()|);
      } else {
        valid := false;
        assert iter.Merged() == [];
        NoEntries(sequence);
      }
    }

    method SeekToLast()
      requires Ok()
      modifies this, iter, iter.children
      ensures Ok() && Cursor() == LastPos(|Shown()|)
    {
      hide Merger.MergingIterator.Ok, Merger.MergingIterator.Valid, Merger.MergingIterator.Key,
        Merger.MergingIterator.Value, Merger.MergingIterator.Merged, Less, Sorted, Yields, NoneShown, LastUpTo,
        Passed, Live;
      iter.ValidBeforeEnd();
      direction := Reverse;
      savedValue := [];
      iter.SeekToLast();
      ghost var p := iter.pos;
      FindPrevUserEntry();
      if iter.Merged() == [] {
        NoEntries(sequence);
      } else if valid {
        LastHasLastRank(iter.Merged(), sequence, p, at);
      } else {
        NoneAtAll(iter.Merged(), sequence);
      }
    }

    /** Stops at the first shown key at or after the target. */
    method Seek(target: UserKey)
      requires Ok()
      modifies this, iter, iter.children
      ensures Ok()
      ensures forall c: nat :: c < |Shown()| ==> (c < Cursor() <==> iter.Merged()[Shown()[c]].key.ukey < target)
    {
      hide Merger.MergingIterator.Ok, Merger.MergingIterator.Valid, Merger.MergingIterator.Key,
        Merger.MergingIterator.Value, Merger.MergingIterator.Merged, Less, Sorted, Behind, NothingShown, Yields,
        FirstFrom, Live;
      iter.ValidBeforeEnd();
      direction := Forward;
      savedValue := [];
      savedKey := None;
      iter.Seek(LookupKey(target, sequence));
      ghost var from := iter.pos;
      SeekSplits(iter.Merged(), sequence, target, from);
      if iter.Valid() {
        FindNextUserEntry(false);
        SeekRank(iter.Merged(), sequence, target, from, if valid then at else |iter.Merged()|);
      } else {
        valid := false;
        SearchStarts(iter.Merged(), sequence, from, None);
        SearchFails(iter.Merged(), sequence, from, None);
        SeekRank(iter.Merged(), sequence, target, from, |iter.Merged()|);
      }
    }

    method Next()
      requires Ok() && valid
      modifies this, iter, iter.children
      ensures Ok() && Cursor() == old(Cursor()) + 1
    {
      hide Merger.MergingIterator.Ok, Merger.MergingIterator.Valid, Merger.MergingIterator.Key,
        Merger.MergingIterator.Value, Merger.MergingIterator.Merged, Less, Sorted, Behind, NothingShown, NothingBelow,
        Yields, FirstFrom, Live, Passed;
      iter.ValidBeforeEnd();
      ghost var es, y := iter.Merged(), at;
      if direction.Reverse? {
        PassedBelow(es, sequence, iter.pos, y);
        direction := Forward;
        if !iter.Valid() {
          iter.SeekToFirst();
        } else {
          iter.Next();
        }
        assert iter.Valid();
      } else {
        savedKey := Some(iter.Key().ukey);
        ShownSplits(es, sequence, y);
      }
      ghost var from := iter.pos;
      FindNextUserEntry(true);
      NextRank(es, sequence, from, y, if valid then at else |es|);
    }

    method Prev()
      requires Ok() && valid
      modifies this, iter, iter.children
      ensures Ok() && Cursor() == PrevPos(|Shown()|, old(Cursor()))
    {
      hide Merger.MergingIterator.Ok, Merger.MergingIterator.Valid, Merger.MergingIterator.Key,
        Merger.MergingIterator.Value, Merger.MergingIterator.Merged, Less, Sorted, Yields, NoneShown, LastUpTo,
        Passed, Live;
      iter.ValidBeforeEnd();
      ghost var es, y := iter.Merged(), at;
      if direction.Forward? {
        var key := iter.Key().ukey;
        savedKey := Some(key);
        iter.Prev();
        while iter.Valid() && iter.Key().ukey >= key
          invariant iter.Ok() && valid && direction.Forward?
          invariant iter.Valid() ==> iter.pos < y
          invariant forall j: nat :: (iter.Valid() ==> iter.pos < j) && j < y ==> es[j].key.ukey >= key
          decreases if iter.Valid() then iter.pos + 1 else 0
        {
          iter.Prev();
        }
        SameKeyNotShown(es, sequence, y, if iter.Valid() then iter.pos + 1 else 0);
        if !iter.Valid() {
          valid := false;
          savedKey := None;
          savedValue := [];
          FirstHasRankZero(es, sequence, y);
          return;
        }
        direction := Reverse;
      } else {
        PassedNotShown(es, sequence, iter.pos, y);
      }
      ghost var p := iter.pos;
      FindPrevUserEntry();
      if p == |es| {
        FirstHasRankZero(es, sequence, y);
      } else if valid {
        PrevRank(es, sequence, p, at, y);
      } else {
        NoneShownJoin(es, sequence, p + 1, y);
        FirstHasRankZero(es, sequence, y);
      }
    }
  }

  // ----- ranks of the positions the searches stop at -----

  lemma NothingBehind(es: seq<Entry>, s: nat)
    ensures Behind(es, s, 0, None)
  {
  }

  lemma NoEntries(s: nat)
    ensures Live([], s, 0) == []
  {
  }

  lemma FirstIsZero(es: seq<Entry>, s: nat, pos: nat)
    requires FirstFrom(es, s, 0, None, pos)
    ensures Rank(es, s, pos) == 0
  {
    hide Yields;
    NoneBetween(es, s, 0, pos);
  }

  lemma NoneAtAll(es: seq<Entry>, s: nat)
    requires NoneShown(es, s, 0, |es|)
    ensures Live(es, s, |es|) == []
  {
    hide Yields;
    NoneBetween(es, s, 0, |es|);
  }

  lemma LastHasLastRank(es: seq<Entry>, s: nat, p: nat, y: nat)
    requires LastUpTo(es, s, p, y) && p == |es| - 1
    ensures Rank(es, s, y) == |Live(es, s, |es|)| - 1
  {
    hide Yields;
    NoneBetween(es, s, y + 1, |es|);
  }

  /** Seeking the lookup key splits the list: what is before it is below the target or
      too new, what is from it on is not below the target. */
  lemma SeekSplits(es: seq<Entry>, s: nat, target: UserKey, from: nat)
    requires Sorted(es) && from == SeekPos(es, LookupKey(target, s))
    ensures Behind(es, s, from, None)
    ensures forall j: nat :: j < from && VisibleAt(es, s, j) ==> es[j].key.ukey < target
    ensures forall j: nat :: from <= j < |es| ==> es[j].key.ukey >= target
  {
    forall j: nat | from <= j < |es| ensures es[j].key.ukey >= target {
      if from < j {
        assert Less(es[from].key, es[j].key);
      }
    }
  }

  lemma SeekRank(es: seq<Entry>, s: nat, target: UserKey, from: nat, pos: nat)
    requires Sorted(es) && FirstFrom(es, s, from, None, pos)
    requires forall j: nat :: j < from && VisibleAt(es, s, j) ==> es[j].key.ukey < target
    requires forall j: nat :: from <= j < |es| ==> es[j].key.ukey >= target
    ensures forall c: nat :: c < |Live(es, s, |es|)| ==> (c < Rank(es, s, pos) <==> es[Live(es, s, |es|)[c]].key.ukey < target)
  {
    hide Sorted;
    LivePrefix(es, s, pos, |es|);
    LiveMembers(es, s, |es|);
    NoneBetween(es, s, from, pos);
    var live := Live(es, s, |es|);
    forall c: nat | c < |live| ensures c < Rank(es, s, pos) <==> es[live[c]].key.ukey < target {
      assert live[c] in live && Yields(es, s, live[c]);
      if c < Rank(es, s, pos) {
        assert live[c] == Live(es, s, from)[c];
      } else {
        RankOrder(es, s, pos, |es|, c);
      }
    }
  }

  /** Shown positions of rank at least that of pos are at or after pos. */
  lemma {:induction false} RankOrder(es: seq<Entry>, s: nat, pos: nat, n: nat, c: nat)
    requires pos <= n <= |es| && Rank(es, s, pos) <= c < |Live(es, s, n)|
    ensures Live(es, s, n)[c] >= pos
    decreases n
  {
    hide Yields;
    if pos < n && c < |Live(es, s, n - 1)| {
      RankOrder(es, s, pos, n - 1, c);
    }
  }

  /** Around a shown position: keys before it are not above, keys after it not below. */
  lemma ShownSplits(es: seq<Entry>, s: nat, y: nat)
    requires Sorted(es) && y < |es|
    ensures Behind(es, s, y, Some(es[y].key.ukey)) && NothingBelow(es, s, y, es[y].key.ukey)
  {
    hide Less, Sorted;
    SortedKeys(es);
  }

  lemma PassedBelow(es: seq<Entry>, s: nat, pos: nat, y: nat)
    requires Sorted(es) && y < |es| && Passed(es, s, pos, y)
    ensures
      var from := if pos < |es| then pos + 1 else 0;
      && from <= y
      && Behind(es, s, from, Some(es[y].key.ukey)) && NothingBelow(es, s, from, es[y].key.ukey)
  {
    hide Less, Sorted;
    SortedKeys(es);
  }

  lemma NextRank(es: seq<Entry>, s: nat, from: nat, y: nat, pos: nat)
    requires Sorted(es) && y < |es| && Yields(es, s, y) && from <= y && FirstFrom(es, s, from, Some(es[y].key.ukey), pos)
    ensures Rank(es, s, pos) == Rank(es, s, y) + 1
  {
    hide Less, Sorted;
    SortedKeys(es);
    forall m: nat | y < m < pos ensures !Yields(es, s, m) {
      if es[m].key.ukey == es[y].key.ukey {
        assert VisibleAt(es, s, y);
      }
    }
    RankNext(es, s, y, pos);
  }

  /** Entries of the shown key before the shown one are too new. */
  lemma SameKeyNotShown(es: seq<Entry>, s: nat, y: nat, a: nat)
    requires Sorted(es) && y < |es| && Yields(es, s, y) && a <= y
    requires forall j: nat :: a <= j < y ==> es[j].key.ukey >= es[y].key.ukey
    ensures NoneShown(es, s, a, y)
  {
    hide Less, Sorted;
    SortedKeys(es);
    forall j: nat | a <= j < y ensures !Yields(es, s, j) {
      assert es[j].key.ukey == es[y].key.ukey;
    }
  }

  lemma PassedNotShown(es: seq<Entry>, s: nat, pos: nat, y: nat)
    requires y < |es| && Passed(es, s, pos, y)
    ensures NoneShown(es, s, if pos < |es| then pos + 1 else 0, y)
    ensures pos < |es| ==> pos < y
  {
  }

  lemma FirstHasRankZero(es: seq<Entry>, s: nat, y: nat)
    requires y <= |es| && NoneShown(es, s, 0, y)
    ensures Rank(es, s, y) == 0
  {
    hide Yields;
    NoneBetween(es, s, 0, y);
  }

  lemma NoneShownJoin(es: seq<Entry>, s: nat, a: nat, y: nat)
    requires a <= y <= |es| && NoneShown(es, s, 0, a) && NoneShown(es, s, a, y)
    ensures NoneShown(es, s, 0, y)
  {
  }

  lemma PrevRank(es: seq<Entry>, s: nat, p: nat, i: nat, y: nat)
    requires LastUpTo(es, s, p, i) && p < y < |es| && Yields(es, s, y) && NoneShown(es, s, p + 1, y)
    ensures Rank(es, s, i) + 1 == Rank(es, s, y)
  {
    hide Yields;
    RankNext(es, s, i, y);
  }

  // ----- searching backward -----

  ghost predicate NoneShown(es: seq<Entry>, s: nat, a: nat, b: nat)
    requires b <= |es|
  {
    forall j: nat :: a <= j < b ==> !Yields(es, s, j)
  }

  /** y is the last shown position at or before p. */
  ghost predicate LastUpTo(es: seq<Entry>, s: nat, p: nat, y: nat) {
    y <= p < |es| && Yields(es, s, y) && NoneShown(es, s, y + 1, p + 1)
  }

  /** What the backward scan has seen of positions i..p: y is its lowest visible entry, if
      that is not a deletion marker, and nothing else seen is to be shown. */
  ghost predicate Collected(es: seq<Entry>, s: nat, i: nat, p: nat, y: nat) {
    && i <= p + 1 <= |es|
    && (y < |es| ==>
          && i <= y <= p && VisibleAt(es, s, y) && es[y].key.kind.Put?
          && (forall j: nat :: i <= j < y ==> !VisibleAt(es, s, j))
          && NoneShown(es, s, y + 1, p + 1))
    && (y >= |es| ==> NoneShown(es, s, i, p + 1))
  }

  /** The internal position is past every entry of the key at y: the nearest visible entry
      before it, or not valid. */
  ghost predicate Passed(es: seq<Entry>, s: nat, pos: nat, y: nat)
    requires y < |es|
  {
    && (pos < |es| ==> pos < y && VisibleAt(es, s, pos) && es[pos].key.ukey < es[y].key.ukey)
    && forall j: nat :: j < y && (pos < |es| ==> pos < j) ==> !VisibleAt(es, s, j)
  }

  lemma CollectStarts(es: seq<Entry>, s: nat, p: nat)
    requires p < |es|
    ensures Collected(es, s, p + 1, p, |es|)
  {
  }

  lemma CollectTooNew(es: seq<Entry>, s: nat, i: nat, p: nat, y: nat)
    requires Collected(es, s, i + 1, p, y) && !VisibleAt(es, s, i)
    ensures Collected(es, s, i, p, y)
  {
  }

  lemma CollectVisible(es: seq<Entry>, s: nat, i: nat, p: nat, y: nat)
    requires Sorted(es) && Collected(es, s, i + 1, p, y) && VisibleAt(es, s, i)
    requires y < |es| ==> es[i].key.ukey >= es[y].key.ukey
    ensures Collected(es, s, i, p, if es[i].key.kind.Put? then i else |es|)
  {
    hide Less, Sorted;
    SortedKeys(es);
    if y < |es| {
      assert es[i].key.ukey == es[y].key.ukey;
      assert !Yields(es, s, y);
    }
  }

  lemma CollectStops(es: seq<Entry>, s: nat, i: nat, p: nat, y: nat)
    requires Sorted(es) && Collected(es, s, i + 1, p, y) && VisibleAt(es, s, i) && y < |es| && es[i].key.ukey < es[y].key.ukey
    ensures LastUpTo(es, s, p, y) && Passed(es, s, i, y)
  {
    hide Less, Sorted;
    SortedKeys(es);
  }

  lemma CollectEnds(es: seq<Entry>, s: nat, p: nat, y: nat)
    requires Collected(es, s, 0, p, y)
    ensures y < |es| ==> LastUpTo(es, s, p, y) && Passed(es, s, |es|, y)
    ensures y >= |es| ==> NoneShown(es, s, 0, p + 1)
  {
  }

  // ----- searching forward -----

  /** Entries before pos that can still matter: with a key to skip, only keys up to it are
      behind; without one, nothing visible of the keys still ahead is. */
  ghost predicate Behind(es: seq<Entry>, s: nat, pos: nat, skip: Option<UserKey>) {
    && pos <= |es|
    && forall j: nat :: j < pos && VisibleAt(es, s, j) ==>
         if skip.Some? then es[j].key.ukey <= skip.value
         else forall m :: pos <= m < |es| ==> es[j].key.ukey < es[m].key.ukey
  }

  /** No visible entry from pos on is below k. */
  ghost predicate NothingBelow(es: seq<Entry>, s: nat, pos: nat, k: UserKey) {
    forall j: nat :: pos <= j < |es| && VisibleAt(es, s, j) ==> k <= es[j].key.ukey
  }

  /** The positions from..pos show nothing past the key to skip. */
  ghost predicate NothingShown(es: seq<Entry>, s: nat, from: nat, pos: nat, skip0: Option<UserKey>)
    requires pos <= |es|
  {
    forall j: nat :: from <= j < pos && Yields(es, s, j) ==> skip0.Some? && es[j].key.ukey <= skip0.value
  }

  /** A key to skip is the one the search began with or that of a visible entry behind. */
  ghost predicate SkipSource(es: seq<Entry>, s: nat, pos: nat, skip0: Option<UserKey>, skip: Option<UserKey>)
    requires pos <= |es|
  {
    && (skip0.Some? ==> skip.Some? && skip0.value <= skip.value)
    && (skip == skip0 || (skip.Some? && exists d: nat :: d < pos && VisibleAt(es, s, d) && es[d].key.ukey == skip.value))
  }

  /** pos is the first shown position at or after from whose key is past skip0, or the end. */
  ghost predicate FirstFrom(es: seq<Entry>, s: nat, from: nat, skip0: Option<UserKey>, pos: nat) {
    && from <= pos <= |es|
    && NothingShown(es, s, from, pos, skip0)
    && (pos < |es| ==> Yields(es, s, pos) && (skip0.Some? ==> skip0.value < es[pos].key.ukey))
  }

  lemma SearchStarts(es: seq<Entry>, s: nat, from: nat, skip0: Option<UserKey>)
    requires from <= |es|
    ensures NothingShown(es, s, from, from, skip0) && SkipSource(es, s, from, skip0, skip0)
  {
  }

  lemma SearchFails(es: seq<Entry>, s: nat, from: nat, skip0: Option<UserKey>)
    requires from <= |es| && NothingShown(es, s, from, |es|, skip0)
    ensures FirstFrom(es, s, from, skip0, |es|)
  {
  }

  lemma StepTooNew(es: seq<Entry>, s: nat, from: nat, i: nat, skip0: Option<UserKey>, skip: Option<UserKey>)
    requires i < |es| && !VisibleAt(es, s, i)
    requires Behind(es, s, i, skip) && NothingShown(es, s, from, i, skip0) && SkipSource(es, s, i, skip0, skip)
    ensures Behind(es, s, i + 1, skip) && NothingShown(es, s, from, i + 1, skip0) && SkipSource(es, s, i + 1, skip0, skip)
    ensures forall k :: NothingBelow(es, s, i, k) ==> NothingBelow(es, s, i + 1, k)
  {
  }

  lemma StepDeletion(es: seq<Entry>, s: nat, from: nat, i: nat, skip0: Option<UserKey>, skip: Option<UserKey>)
    requires Sorted(es) && i < |es| && VisibleAt(es, s, i) && es[i].key.kind.Deletion?
    requires Behind(es, s, i, skip) && NothingShown(es, s, from, i, skip0) && SkipSource(es, s, i, skip0, skip)
    requires skip0.Some? ==> NothingBelow(es, s, i, skip0.value)
    ensures
      var skip' := Some(es[i].key.ukey);
      Behind(es, s, i + 1, skip') && NothingShown(es, s, from, i + 1, skip0) && SkipSource(es, s, i + 1, skip0, skip')
    ensures forall k :: NothingBelow(es, s, i, k) ==> NothingBelow(es, s, i + 1, k)
  {
    hide Less, Sorted;
    SortedKeys(es);
  }

  lemma StepHidden(es: seq<Entry>, s: nat, from: nat, i: nat, skip0: Option<UserKey>, skip: Option<UserKey>)
    requires Sorted(es) && i < |es| && VisibleAt(es, s, i) && skip.Some? && es[i].key.ukey <= skip.value
    requires Behind(es, s, i, skip) && NothingShown(es, s, from, i, skip0) && SkipSource(es, s, i, skip0, skip)
    ensures Behind(es, s, i + 1, skip) && NothingShown(es, s, from, i + 1, skip0) && SkipSource(es, s, i + 1, skip0, skip)
    ensures forall k :: NothingBelow(es, s, i, k) ==> NothingBelow(es, s, i + 1, k)
  {
    hide Less, Sorted;
    SortedKeys(es);
    if skip != skip0 {
      var d: nat :| d < i && VisibleAt(es, s, d) && es[d].key.ukey == skip.value;
      assert es[d].key.ukey == es[i].key.ukey;
      assert !Yields(es, s, i);
    }
  }

  lemma StepShown(es: seq<Entry>, s: nat, from: nat, i: nat, skip0: Option<UserKey>, skip: Option<UserKey>)
    requires from <= i < |es| && VisibleAt(es, s, i) && es[i].key.kind.Put? && (skip.Some? ==> skip.value < es[i].key.ukey)
    requires Behind(es, s, i, skip) && NothingShown(es, s, from, i, skip0) && SkipSource(es, s, i, skip0, skip)
    ensures FirstFrom(es, s, from, skip0, i)
  {
    forall j: nat | j < i && es[j].key.ukey == es[i].key.ukey ensures !VisibleAt(es, s, j) {
    }
  }
}

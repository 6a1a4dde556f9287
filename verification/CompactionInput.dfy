/** What a compaction reads: one iterator for each level-0 input file, one over all input
    files of any other level, and the merging iterator over these. */
module CompactionInput {
  import opened DbFormat
  import opened Tables
  import opened CompactionDrop
  import opened InputSelection
  import opened Lsm
  import opened Cursors
  import opened Merger

  /** The entries of a table file in key order, as its iterator delivers them. */
  type Contents = Table -> seq<Entry>

  ghost predicate Delivers(contents: Contents, files: Files) {
    forall t :: t in files ==> Sorted(contents(t)) && SetOf(contents(t)) == t.entries
  }

  /** The files of a level one after another. */
  function Concatenated(files: Files, contents: Contents): seq<Entry> {
    if files == [] then [] else Concatenated(files[..|files| - 1], contents) + contents(files[|files| - 1])
  }

  /** One list for each file of level 0, one for all files of any other level. */
  function ListsOf(level: nat, files: Files, contents: Contents): seq<seq<Entry>> {
    if files == [] then []
    else if level == 0 then seq(|files|, i requires 0 <= i < |files| => contents(files[i]))
    else [Concatenated(files, contents)]
  }

  function InputLists(r: Running, contents: Contents): seq<seq<Entry>> {
    ListsOf(r.level, r.inputs0, contents) + ListsOf(r.level + 1, r.inputs1, contents)
  }

  // ----- the lists are sorted, disjoint and complete -----

  lemma {:induction false} ConcatenatedMembers(files: Files, contents: Contents)
    requires Delivers(contents, files)
    ensures forall e :: e in Concatenated(files, contents) <==> e in EntriesOf(files)
  {
    hide Sorted;
    if files != [] {
      var rest, t := files[..|files| - 1], files[|files| - 1];
      ConcatenatedMembers(rest, contents);
      forall e ensures e in Concatenated(files, contents) <==> e in EntriesOf(files) {
        assert e in contents(t) <==> e in SetOf(contents(t));
        EntriesOfLast(files, e);
      }
    }
  }

  lemma EntriesOfLast(files: Files, e: Entry)
    requires files != []
    ensures e in EntriesOf(files) <==> e in EntriesOf(files[..|files| - 1]) || e in files[|files| - 1].entries
  {
    assert files == files[..|files| - 1] + [files[|files| - 1]];
  }

  lemma SortedAppend(a: seq<Entry>, b: seq<Entry>)
    requires Sorted(a) && Sorted(b) && forall x, y :: x in a && y in b ==> Less(x.key, y.key)
    ensures Sorted(a + b)
  {
    hide Less;
  }

  /** An entry of an earlier file of a sorted level comes before one of the last file. */
  lemma EarlierFile(files: Files, x: Entry, y: Entry)
    requires files != [] && SortedLevel(files) && ValidFiles(files)
    requires x in EntriesOf(files[..|files| - 1]) && y in files[|files| - 1].entries
    ensures Less(x.key, y.key)
  {
    var rest, t := files[..|files| - 1], files[|files| - 1];
    var u :| u in rest && x in u.entries;
    var i :| 0 <= i < |rest| && rest[i] == u;
    assert files[i] == u && u in files && t in files;
    assert Less(u.largest, t.smallest) && !Less(u.largest, x.key) && !Less(y.key, t.smallest);
    CompareIsTotalOrder(x.key, u.largest, t.smallest);
    CompareIsTotalOrder(x.key, t.smallest, y.key);
    CompareIsTotalOrder(t.smallest, y.key, x.key);
  }

  lemma {:induction false} ConcatenatedSorted(files: Files, contents: Contents)
    requires Delivers(contents, files) && SortedLevel(files) && ValidFiles(files)
    ensures Sorted(Concatenated(files, contents))
  {
    hide Less, Sorted, SetOf, Table.Valid;
    if files != [] {
      var rest, t := files[..|files| - 1], files[|files| - 1];
      ConcatenatedSorted(rest, contents);
      ConcatenatedMembers(rest, contents);
      forall x, y | x in Concatenated(rest, contents) && y in contents(t) ensures Less(x.key, y.key) {
        assert y in SetOf(contents(t));
        EarlierFile(files, x, y);
      }
      SortedAppend(Concatenated(rest, contents), contents(t));
    } else {
      NothingIsSorted();
    }
  }

  /** The lists of one level: sorted, and together the entries of its files. */
  lemma LevelLists(level: nat, files: Files, contents: Contents)
    requires Delivers(contents, files) && ValidFiles(files) && (level > 0 ==> SortedLevel(files))
    ensures AllSorted(ListsOf(level, files, contents))
    ensures forall e :: InSome(ListsOf(level, files, contents), e) <==> e in EntriesOf(files)
  {
    hide Sorted, Table.Valid, SortedLevel;
    var lists := ListsOf(level, files, contents);
    if files != [] {
      if level == 0 {
        forall e ensures InSome(lists, e) <==> e in EntriesOf(files) {
          FileLists(files, contents, e);
        }
      } else {
        ConcatenatedSorted(files, contents);
        ConcatenatedMembers(files, contents);
        forall e ensures InSome(lists, e) <==> e in EntriesOf(files) {
          assert lists[0] == Concatenated(files, contents);
        }
      }
    }
  }

  lemma FileLists(files: Files, contents: Contents, e: Entry)
    requires Delivers(contents, files)
    ensures InSome(ListsOf(0, files, contents), e) <==> e in EntriesOf(files)
  {
    hide Sorted;
    var lists := ListsOf(0, files, contents);
    if c :| 0 <= c < |lists| && e in lists[c] {
      assert e in SetOf(contents(files[c])) && files[c] in files;
    }
    if t :| t in files && e in t.entries {
      var c :| 0 <= c < |files| && files[c] == t;
      assert e in SetOf(contents(files[c])) && e in lists[c];
    }
  }

  /** An entry lies in one input file only: its key tells which of two is newer. */
  lemma NoSharedEntry(v: Levels, l: nat, t: Table, m: nat, u: Table, x: Entry, y: Entry)
    requires LevelsOk(v) && l < NUM_LEVELS && m < NUM_LEVELS && t in v[l] && u in v[m]
    requires l < m || (l == 0 && m == 0 && t != u)
    requires x in t.entries && y in u.entries
    ensures x.key != y.key
  {
    hide AllValid, NoDuplicates, SortedLevel;
    if l == m {
      assert t.number != u.number;
      assert Newer(t.entries, u.entries) || Newer(u.entries, t.entries);
    } else {
      assert Newer(t.entries, u.entries);
    }
  }

  /** The file of a level an entry of a list comes from; in level 0 it is the list's own. */
  lemma HomeInLevel(level: nat, files: Files, contents: Contents, c: nat, e: Entry) returns (t: Table)
    requires Delivers(contents, files) && c < |ListsOf(level, files, contents)| && e in ListsOf(level, files, contents)[c]
    ensures t in files && e in t.entries && (level == 0 ==> c < |files| && files[c] == t)
  {
    hide Sorted;
    if level == 0 {
      t := files[c];
      assert e in SetOf(contents(t));
    } else {
      ConcatenatedMembers(files, contents);
      t :| t in files && e in t.entries;
    }
  }

  /** Everything the merging iterator needs of its children. */
  lemma InputListsFit(v: Levels, r: Running, contents: Contents)
    requires LevelsOk(v) && RunningOk(v, r) && Delivers(contents, r.inputs0 + r.inputs1)
    ensures AllSorted(InputLists(r, contents)) && NoSharedKeys(InputLists(r, contents))
    ensures forall e :: InSome(InputLists(r, contents), e) <==> e in InputEntries(r)
  {
    hide LevelsOk, Covered, NoOlderLeft, Newer, Sorted, SortedLevel, ListsOf;
    InputsValid(v, r);
    DeliversParts(contents, r.inputs0, r.inputs1);
    LevelLists(r.level, r.inputs0, contents);
    LevelLists(r.level + 1, r.inputs1, contents);
    var a, b := ListsOf(r.level, r.inputs0, contents), ListsOf(r.level + 1, r.inputs1, contents);
    forall e ensures InSome(a + b, e) <==> InSome(a, e) || InSome(b, e) {
      InEither(a, b, e);
    }
    forall c: nat, d: nat, x: Entry, y: Entry | c < d < |a + b| && x in (a + b)[c] && y in (a + b)[d] ensures x.key != y.key {
      TwoLists(v, r, contents, c, d, x, y);
    }
    assert AllSorted(a + b);
  }

  lemma InEither(a: seq<seq<Entry>>, b: seq<seq<Entry>>, e: Entry)
    ensures InSome(a + b, e) <==> InSome(a, e) || InSome(b, e)
  {
    if c :| 0 <= c < |a| && e in a[c] {
      assert e in (a + b)[c];
    }
    if c :| 0 <= c < |b| && e in b[c] {
      assert e in (a + b)[|a| + c];
    }
  }

  lemma InputsValid(v: Levels, r: Running)
    requires LevelsOk(v) && RunningOk(v, r)
    ensures ValidFiles(r.inputs0) && ValidFiles(r.inputs1) && InputsInOrder(r) && InputsPresent(v, r)
  {
    hide Covered, NoOlderLeft, Newer;
  }

  lemma DeliversParts(contents: Contents, files: Files, more: Files)
    requires Delivers(contents, files + more)
    ensures Delivers(contents, files) && Delivers(contents, more)
  {
    hide Sorted;
  }

  lemma TwoLists(v: Levels, r: Running, contents: Contents, c: nat, d: nat, x: Entry, y: Entry)
    requires LevelsOk(v) && InputsPresent(v, r) && InputsInOrder(r)
    requires Delivers(contents, r.inputs0) && Delivers(contents, r.inputs1)
    requires c < d < |InputLists(r, contents)| && x in InputLists(r, contents)[c] && y in InputLists(r, contents)[d]
    ensures x.key != y.key
  {
    hide LevelsOk, Delivers, SortedLevel;
    var a, b := ListsOf(r.level, r.inputs0, contents), ListsOf(r.level + 1, r.inputs1, contents);
    ListCount(r.level, r.inputs0, contents);
    ListCount(r.level + 1, r.inputs1, contents);
    if c < |a| {
      var t := HomeInLevel(r.level, r.inputs0, contents, c, x);
      if d < |a| {
        var u := HomeInLevel(r.level, r.inputs0, contents, d, y);
        NoSharedEntry(v, r.level, t, r.level, u, x, y);
      } else {
        var u := HomeInLevel(r.level + 1, r.inputs1, contents, d - |a|, y);
        NoSharedEntry(v, r.level, t, r.level + 1, u, x, y);
      }
    }
  }

  lemma ListCount(level: nat, files: Files, contents: Contents)
    ensures level > 0 ==> |ListsOf(level, files, contents)| <= 1
  {
  }

  // ----- the iterator -----

  /** Iterators over the given lists. */
  method NewIterators(lists: seq<seq<Entry>>) returns (children: seq<ListIterator>)
    requires AllSorted(lists)
    ensures |children| == |lists| && forall c :: 0 <= c < |children| ==> fresh(children[c]) && children[c].Ok() && children[c].entries == lists[c]
    ensures forall c, d :: 0 <= c < d < |children| ==> children[c] != children[d]
  {
    hide Sorted;
    children := [];
    for i := 0 to |lists|
      invariant |children| == i
      invariant forall c :: 0 <= c < i ==> fresh(children[c]) && children[c].Ok() && children[c].entries == lists[c]
      invariant forall c, d :: 0 <= c < d < i ==> children[c] != children[d]
    {
      var child := new ListIterator(lists[i]);
      children := children + [child];
    }
  }

  /** The merging iterator over the inputs of a compaction: a cursor over exactly the input
      entries, in key order. */
  method MakeInputIterator(ghost v: Levels, r: Running, contents: Contents) returns (it: MergingIterator)
    requires LevelsOk(v) && RunningOk(v, r) && Delivers(contents, r.inputs0 + r.inputs1)
    ensures fresh(it) && it.Ok() && forall c :: 0 <= c < |it.children| ==> fresh(it.children[c])
    ensures Sorted(it.Merged()) && SetOf(it.Merged()) == InputEntries(r)
  {
    hide LevelsOk, RunningOk, Delivers, Sorted, InputLists, InputEntries, InSome;
    InputListsFit(v, r, contents);
    var lists := InputLists(r, contents);
    var children := NewIterators(lists);
    it := new MergingIterator(children);
    assert it.Lists() == lists;
    UnionSortedToo(lists);
    UnionMembers(lists);
  }

  /** The whole of what an iterator delivers from its first entry on. */
  method ReadAll(it: MergingIterator) returns (input: seq<Entry>)
    requires it.Ok()
    modifies it, it.children
    ensures it.Ok() && input == it.Merged()
  {
    hide MergingIterator.Ok, MergingIterator.Valid, MergingIterator.Merged, MergingIterator.Key, MergingIterator.Value;
    it.SeekToFirst();
    input := [];
    it.ValidBeforeEnd();
    while it.Valid()
      invariant it.Ok() && it.pos <= |it.Merged()| && input == it.Merged()[..it.pos]
      invariant it.Valid() <==> it.pos < |it.Merged()|
      decreases |it.Merged()| - it.pos
    {
      input := input + [Entry(it.Key(), it.Value())];
      it.Next();
      it.ValidBeforeEnd();
    }
  }
}

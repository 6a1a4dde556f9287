/** The iterator over a whole database: the memtables, every file of level 0, and each other
    level as one list, merged.  What it walks over is exactly the engine's entries. */
module InternalIterator {
  import opened Options
  import opened DbFormat
  import opened Tables
  import opened CompactionDrop
  import opened Lsm
  import opened Merger
  import opened CompactionInput

  // ----- lists without shared keys -----

  /** No entry of the one has the key of an entry of the other. */
  ghost predicate Apart(es: set<Entry>, fs: set<Entry>) {
    forall x, y :: x in es && y in fs ==> x.key != y.key
  }

  /** Sorted lists without shared keys that together hold the entries. */
  ghost predicate Holds(lists: seq<seq<Entry>>, es: set<Entry>) {
    AllSorted(lists) && NoSharedKeys(lists) && forall e :: InSome(lists, e) <==> e in es
  }

  lemma HoldsTogether(a: seq<seq<Entry>>, es: set<Entry>, b: seq<seq<Entry>>, fs: set<Entry>)
    requires Holds(a, es) && Holds(b, fs) && Apart(es, fs)
    ensures Holds(a + b, es + fs)
  {
    hide Sorted, InSome;
    forall e ensures InSome(a + b, e) <==> e in es + fs {
      InEither(a, b, e);
    }
    forall c: nat, d: nat, x: Entry, y: Entry | c < d < |a + b| && x in (a + b)[c] && y in (a + b)[d] ensures x.key != y.key {
      if c < |a| {
        InListed(a, c, x);
        if d >= |a| {
          InListed(b, d - |a|, y);
        }
      }
    }
  }

  lemma InListed(lists: seq<seq<Entry>>, c: nat, x: Entry)
    requires c < |lists| && x in lists[c]
    ensures InSome(lists, x)
  {
  }

  lemma OneList(es: seq<Entry>)
    requires Sorted(es)
    ensures Holds([es], SetOf(es))
  {
    hide Sorted;
    forall e ensures InSome([es], e) <==> e in SetOf(es) {
      assert [es][0] == es;
    }
  }

  lemma NoList()
    ensures Holds([], {})
  {
  }

  // ----- the lists of a version -----

  ghost predicate DeliversAll(contents: Contents, v: Levels) {
    forall l :: 0 <= l < NUM_LEVELS ==> Delivers(contents, v[l])
  }

  /** The lists of the first n levels. */
  function VersionLists(v: Levels, n: nat, contents: Contents): seq<seq<Entry>>
    requires n <= NUM_LEVELS
  {
    if n == 0 then [] else VersionLists(v, n - 1, contents) + ListsOf(n - 1, v[n - 1], contents)
  }

  ghost function EntriesAbove(v: Levels, n: nat): set<Entry>
    requires n <= NUM_LEVELS
  {
    if n == 0 then {} else EntriesAbove(v, n - 1) + EntriesOf(v[n - 1])
  }

  lemma LevelHolds(v: Levels, l: nat, contents: Contents)
    requires LevelsOk(v) && l < NUM_LEVELS && Delivers(contents, v[l])
    ensures Holds(ListsOf(l, v[l], contents), EntriesOf(v[l]))
  {
    hide LevelsOk, Sorted, ListsOf, SortedLevel, Delivers, InSome;
    LevelOk(v, l);
    LevelLists(l, v[l], contents);
    ListCount(l, v[l], contents);
    var lists := ListsOf(l, v[l], contents);
    forall c: nat, d: nat, x: Entry, y: Entry | c < d < |lists| && x in lists[c] && y in lists[d] ensures x.key != y.key {
      var t := HomeInLevel(l, v[l], contents, c, x);
      var u := HomeInLevel(l, v[l], contents, d, y);
      NoSharedEntry(v, l, t, l, u, x, y);
    }
  }

  lemma LevelOk(v: Levels, l: nat)
    requires LevelsOk(v) && l < NUM_LEVELS
    ensures ValidFiles(v[l]) && NoDuplicates(v[l]) && (l > 0 ==> SortedLevel(v[l]))
  {
  }

  lemma LevelsApart(v: Levels, l: nat, m: nat)
    requires LevelsOk(v) && l < m < NUM_LEVELS
    ensures Apart(EntriesOf(v[l]), EntriesOf(v[m]))
  {
    hide LevelsOk;
    forall x, y | x in EntriesOf(v[l]) && y in EntriesOf(v[m]) ensures x.key != y.key {
      var t :| t in v[l] && x in t.entries;
      var u :| u in v[m] && y in u.entries;
      NoSharedEntry(v, l, t, m, u, x, y);
    }
  }

  lemma {:induction false} AboveApart(v: Levels, n: nat, m: nat)
    requires LevelsOk(v) && n <= m < NUM_LEVELS
    ensures Apart(EntriesAbove(v, n), EntriesOf(v[m]))
  {
    hide LevelsOk, EntriesOf;
    if n > 0 {
      AboveApart(v, n - 1, m);
      LevelsApart(v, n - 1, m);
    }
  }

  lemma {:induction false} VersionHolds(v: Levels, n: nat, contents: Contents)
    requires LevelsOk(v) && n <= NUM_LEVELS && DeliversAll(contents, v)
    ensures Holds(VersionLists(v, n, contents), EntriesAbove(v, n))
  {
    hide LevelsOk, Holds, Delivers, Apart, EntriesOf, ListsOf;
    if n == 0 {
      NoList();
    } else {
      VersionHolds(v, n - 1, contents);
      LevelHolds(v, n - 1, contents);
      AboveApart(v, n - 1, n - 1);
      HoldsTogether(VersionLists(v, n - 1, contents), EntriesAbove(v, n - 1), ListsOf(n - 1, v[n - 1], contents), EntriesOf(v[n - 1]));
    }
  }

  lemma {:induction false} AboveMembers(v: Levels, n: nat, e: Entry)
    requires n <= NUM_LEVELS
    ensures e in EntriesAbove(v, n) <==> exists l, t :: 0 <= l < n && t in v[l] && e in t.entries
  {
    if n > 0 {
      AboveMembers(v, n - 1, e);
    }
  }

  lemma AllLevels(v: Levels)
    ensures EntriesAbove(v, NUM_LEVELS) == TableEntries(v)
  {
    hide EntriesAbove;
    forall e ensures e in EntriesAbove(v, NUM_LEVELS) <==> e in TableEntries(v) {
      AboveMembers(v, NUM_LEVELS, e);
    }
  }

  // ----- the lists of a database -----

  /** What the iterators of the memtables deliver. */
  ghost predicate MemoryListed(s: State, mem: seq<Entry>, imm: seq<Entry>) {
    && Sorted(mem) && SetOf(mem) == s.mem
    && (s.imm.Some? ==> Sorted(imm) && SetOf(imm) == s.imm.value)
  }

  function DbLists(mem: seq<Entry>, imm: Option<seq<Entry>>, v: Levels, contents: Contents): seq<seq<Entry>> {
    [mem] + (if imm.Some? then [imm.value] else []) + VersionLists(v, NUM_LEVELS, contents)
  }

  lemma NewerApart(es: set<Entry>, fs: set<Entry>)
    requires Newer(es, fs)
    ensures Apart(es, fs)
  {
  }

  lemma DbListsHold(s: State, mem: seq<Entry>, imm: seq<Entry>, contents: Contents)
    requires Inv(s) && MemoryListed(s, mem, imm) && DeliversAll(contents, s.levels)
    ensures Holds(DbLists(mem, if s.imm.Some? then Some(imm) else None, s.levels, contents), All(s))
  {
    hide LevelsOk, SequencesOk, NumbersOk, ViewOk, SnapshotOk, RunningOk, Sorted, Holds, DeliversAll, Newer, Apart,
      VersionLists;
    NewerApart(s.mem, ImmOf(s));
    NewerApart(s.mem + ImmOf(s), TableEntries(s.levels));
    VersionHolds(s.levels, NUM_LEVELS, contents);
    AllLevels(s.levels);
    OneList(mem);
    var second: seq<seq<Entry>> := if s.imm.Some? then [imm] else [];
    if s.imm.Some? {
      OneList(imm);
    } else {
      NoList();
    }
    assert Holds(second, ImmOf(s));
    HoldsTogether([mem], s.mem, second, ImmOf(s));
    HoldsTogether([mem] + second, s.mem + ImmOf(s), VersionLists(s.levels, NUM_LEVELS, contents), TableEntries(s.levels));
  }

  /** The merging iterator over all of the database. */
  method NewInternalIterator(ghost s: State, mem: seq<Entry>, imm: Option<seq<Entry>>, v: Levels, contents: Contents)
    returns (it: MergingIterator)
    requires Inv(s) && v == s.levels && DeliversAll(contents, v)
    requires (s.imm.Some? <==> imm.Some?) && MemoryListed(s, mem, if imm.Some? then imm.value else [])
    ensures fresh(it) && it.Ok() && forall c :: 0 <= c < |it.children| ==> fresh(it.children[c])
    ensures Sorted(it.Merged()) && SetOf(it.Merged()) == All(s) && it.pos == |it.Merged()|
  {
    hide Inv, All, Sorted, DbLists, DeliversAll, MemoryListed, InSome;
    DbListsHold(s, mem, if imm.Some? then imm.value else [], contents);
    var lists := DbLists(mem, imm, v, contents);
    var children := NewIterators(lists);
    it := new MergingIterator(children);
    assert it.Lists() == lists;
    UnionSortedToo(lists);
    UnionMembers(lists);
  }
}

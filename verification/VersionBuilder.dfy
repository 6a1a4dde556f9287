/** Applying version edits.  A Builder collects any number of edits and writes the
    resulting version once, instead of one version per edit. */
module VersionBuilder {
  import opened Options
  import opened DbFormat
  import opened Tables
  import opened Lsm

  /** A version edit.  A manifest record names a table by number, size and key range; the
      entries come with the table file. */
  datatype Edit = Edit(
    comparator: Option<string>,
    logNumber: Option<nat>,
    prevLogNumber: Option<nat>,
    nextFileNumber: Option<nat>,
    lastSequence: Option<nat>,
    compactPointers: seq<(nat, InternalKey)>,
    deletedFiles: set<(nat, nat)>,
    newFiles: seq<(nat, Table)>)
  {
    predicate LevelsInRange() {
      && (forall p :: p in compactPointers ==> p.0 < NUM_LEVELS)
      && (forall d :: d in deletedFiles ==> d.0 < NUM_LEVELS)
      && (forall f :: f in newFiles ==> f.0 < NUM_LEVELS)
    }
  }

  const EMPTY_EDIT := Edit(None, None, None, None, None, [], {}, [])

  function DeletedAt(e: Edit, l: nat): set<nat> {
    set d | d in e.deletedFiles && d.0 == l :: d.1
  }

  /** The files an edit adds to level l, in the order listed. */
  function NewAt(newFiles: seq<(nat, Table)>, l: nat): Files {
    if newFiles == [] then []
    else
      var f := newFiles[|newFiles| - 1];
      NewAt(newFiles[..|newFiles| - 1], l) + if f.0 == l then [f.1] else []
  }

  function NumbersOf(files: Files): set<nat> {
    set t | t in files :: t.number
  }

  function SetOfFiles(files: Files): set<Table> {
    set t | t in files
  }

  lemma {:induction false} NewAtMembers(newFiles: seq<(nat, Table)>, l: nat)
    ensures forall t :: t in NewAt(newFiles, l) <==> (l, t) in newFiles
  {
    if newFiles != [] {
      var rest, f := newFiles[..|newFiles| - 1], newFiles[|newFiles| - 1];
      NewAtMembers(rest, l);
      assert newFiles == rest + [f];
    }
  }

  lemma NewAtOne(l: nat, level: nat, t: Table)
    ensures NewAt([(level, t)], l) == if l == level then [t] else []
  {
    assert [(level, t)][..0] == [];
  }

  // ----- ordered insertion and merging -----

  /** Insertion into an ordered set: no effect when an equivalent file is present. */
  function InsertSorted(files: Files, t: Table): Files {
    if files == [] then [t]
    else if BySmallestKey(t, files[0]) then [t] + files
    else if BySmallestKey(files[0], t) then [files[0]] + InsertSorted(files[1..], t)
    else files
  }

  predicate Equivalent(t: Table, u: Table) {
    t.smallest == u.smallest && t.number == u.number
  }

  lemma {:induction false} InsertSortedKeepsOrder(files: Files, t: Table)
    requires SortedBySmallest(files)
    ensures SortedBySmallest(InsertSorted(files, t))
    ensures forall u :: u in InsertSorted(files, t) ==> u in files || u == t
    ensures forall u :: u in files ==> u in InsertSorted(files, t)
    ensures (forall u :: u in files ==> !Equivalent(u, t)) ==> t in InsertSorted(files, t)
  {
    if files != [] {
      var r := InsertSorted(files, t);
      if BySmallestKey(t, files[0]) {
        assert forall i :: 0 < i < |files| ==> BySmallestKey(files[0], files[i]);
      } else if BySmallestKey(files[0], t) {
        InsertSortedKeepsOrder(files[1..], t);
        var rest := InsertSorted(files[1..], t);
        assert forall u :: u in rest ==> BySmallestKey(files[0], u);
        assert files == [files[0]] + files[1..];
      } else {
        assert files[0] in files && Equivalent(files[0], t);
      }
    }
  }

  function InsertAll(files: Files, ts: Files): Files {
    if ts == [] then files else InsertSorted(InsertAll(files, ts[..|ts| - 1]), ts[|ts| - 1])
  }

  function Merge(base: Files, added: Files): Files {
    if added == [] then base
    else if base == [] then added
    else if BySmallestKey(added[0], base[0]) then [added[0]] + Merge(base, added[1..])
    else [base[0]] + Merge(base[1..], added)
  }

  lemma {:induction false} MergeMembers(base: Files, added: Files)
    ensures forall t :: t in Merge(base, added) <==> t in base || t in added
    decreases |base| + |added|
  {
    if added != [] && base != [] {
      if BySmallestKey(added[0], base[0]) {
        MergeMembers(base, added[1..]);
        assert added == [added[0]] + added[1..];
      } else {
        MergeMembers(base[1..], added);
        assert base == [base[0]] + base[1..];
      }
    }
  }

  lemma {:induction false} MergeSorted(base: Files, added: Files)
    requires SortedBySmallest(base) && SortedBySmallest(added)
    requires forall t, u :: t in base && u in added ==> !Equivalent(t, u)
    ensures SortedBySmallest(Merge(base, added))
    decreases |base| + |added|
  {
    if added != [] && base != [] {
      if BySmallestKey(added[0], base[0]) {
        MergeSorted(base, added[1..]);
        MergeMembers(base, added[1..]);
        forall t | t in Merge(base, added[1..]) ensures BySmallestKey(added[0], t) {
        }
      } else {
        MergeSorted(base[1..], added);
        MergeMembers(base[1..], added);
        assert base[0] in base && added[0] in added;
        forall t | t in Merge(base[1..], added) ensures BySmallestKey(base[0], t) {
        }
      }
    }
  }

  /** The files whose number is not marked deleted, in order. */
  function NotDeleted(files: Files, deleted: set<nat>): Files {
    if files == [] then []
    else (if files[0].number in deleted then [] else [files[0]]) + NotDeleted(files[1..], deleted)
  }

  lemma {:induction false} NotDeletedMembers(files: Files, deleted: set<nat>)
    ensures forall t :: t in NotDeleted(files, deleted) <==> t in files && t.number !in deleted
    ensures SortedBySmallest(files) ==> SortedBySmallest(NotDeleted(files, deleted))
  {
    if files != [] {
      NotDeletedMembers(files[1..], deleted);
      assert files == [files[0]] + files[1..];
    }
  }

  /** Two ordered file lists with the same members are the same list. */
  lemma {:induction false} SortedUnique(a: Files, b: Files)
    requires SortedBySmallest(a) && SortedBySmallest(b)
    requires forall t :: t in a <==> t in b
    ensures a == b
  {
    if b != [] {
      assert b[0] in a;
    }
    if a != [] {
      assert a[0] in b;
      assert a[0] == b[0];
      assert a == [a[0]] + a[1..] && b == [b[0]] + b[1..];
      forall t ensures t in a[1..] <==> t in b[1..] {
        assert t in a <==> t == a[0] || t in a[1..];
        assert t in b <==> t == b[0] || t in b[1..];
        assert a[0] !in a[1..] && b[0] !in b[1..];
      }
      SortedUnique(a[1..], b[1..]);
    }
  }

  lemma NewAtStep(newFiles: seq<(nat, Table)>, i: nat, l: nat, files: Files)
    requires i < |newFiles|
    ensures
      var before, after, f := NewAt(newFiles[..i], l), NewAt(newFiles[..i + 1], l), newFiles[i];
      && NumbersOf(after) == NumbersOf(before) + (if l == f.0 then {f.1.number} else {})
      && InsertAll(files, after) == if l == f.0 then InsertSorted(InsertAll(files, before), f.1) else InsertAll(files, before)
  {
    assert newFiles[..i + 1][..i] == newFiles[..i];
    var before, f := NewAt(newFiles[..i], l), newFiles[i];
    if l == f.0 {
      var after := before + [f.1];
      assert after[..|after| - 1] == before;
      assert NumbersOf(after) == NumbersOf(before) + {f.1.number};
    } else {
      assert before + [] == before;
    }
  }

  lemma NothingNew(files: Files, l: nat)
    ensures NewAt([], l) == [] && NumbersOf([]) == {} && InsertAll(files, []) == files
  {
  }

  lemma NotDeletedFirst(files: Files, t: Table, rest: Files, deleted: set<nat>)
    ensures files + NotDeleted([t] + rest, deleted) == MaybeAddFile(files, t, deleted) + NotDeleted(rest, deleted)
  {
    assert ([t] + rest)[1..] == rest;
  }

  lemma MergeFirstBase(base: Files, added: Files)
    requires base != [] && (added != [] ==> !BySmallestKey(added[0], base[0]))
    ensures Merge(base, added) == [base[0]] + Merge(base[1..], added)
  {
    hide BySmallestKey;
  }

  lemma MergeFirstAdded(base: Files, added: Files)
    requires added != [] && (base != [] ==> BySmallestKey(added[0], base[0]))
    ensures Merge(base, added) == [added[0]] + Merge(base, added[1..])
  {
    hide BySmallestKey;
  }

  /** Writing the first file of the merge, taken from the base or from the added files. */
  lemma SaveBaseStep(files: Files, base: Files, added: Files, deleted: set<nat>)
    requires base != [] && (added != [] ==> !BySmallestKey(added[0], base[0]))
    ensures files + NotDeleted(Merge(base, added), deleted)
      == MaybeAddFile(files, base[0], deleted) + NotDeleted(Merge(base[1..], added), deleted)
  {
    hide Merge, NotDeleted, MaybeAddFile, BySmallestKey;
    MergeFirstBase(base, added);
    NotDeletedFirst(files, base[0], Merge(base[1..], added), deleted);
  }

  lemma SaveAddedStep(files: Files, base: Files, added: Files, deleted: set<nat>)
    requires added != [] && (base != [] ==> BySmallestKey(added[0], base[0]))
    ensures files + NotDeleted(Merge(base, added), deleted)
      == MaybeAddFile(files, added[0], deleted) + NotDeleted(Merge(base, added[1..]), deleted)
  {
    hide Merge, NotDeleted, MaybeAddFile, BySmallestKey;
    MergeFirstAdded(base, added);
    NotDeletedFirst(files, added[0], Merge(base, added[1..]), deleted);
  }

  // ----- the builder -----

  class Builder {
    const base: Levels
    const deletedFiles: array<set<nat>>
    const addedFiles: array<Files>

    ghost predicate Valid()
      reads deletedFiles, addedFiles
    {
      deletedFiles.Length == NUM_LEVELS && addedFiles.Length == NUM_LEVELS
    }

    constructor (base: Levels)
      ensures Valid() && this.base == base && fresh(deletedFiles) && fresh(addedFiles)
      ensures forall l :: 0 <= l < NUM_LEVELS ==> deletedFiles[l] == {} && addedFiles[l] == []
    {
      this.base := base;
      deletedFiles := new set<nat>[NUM_LEVELS](_ => {});
      addedFiles := new Files[NUM_LEVELS](_ => []);
    }

    method DeleteFiles(del: set<(nat, nat)>)
      requires Valid() && forall d :: d in del ==> d.0 < NUM_LEVELS
      modifies deletedFiles
      ensures forall l :: 0 <= l < NUM_LEVELS ==> deletedFiles[l] == old(deletedFiles[l]) + set d | d in del && d.0 == l :: d.1
    {
      var rest := del;
      while rest != {}
        invariant rest <= del
        invariant forall l :: 0 <= l < NUM_LEVELS ==>
          deletedFiles[l] == old(deletedFiles[l]) + set d | d in del - rest && d.0 == l :: d.1
        decreases rest
      {
        var d :| d in rest;
        deletedFiles[d.0] := deletedFiles[d.0] + {d.1};
        assert del - (rest - {d}) == (del - rest) + {d};
        rest := rest - {d};
      }
      assert del - rest == del;
    }

    method AddFiles(newFiles: seq<(nat, Table)>)
      requires Valid() && forall f :: f in newFiles ==> f.0 < NUM_LEVELS
      modifies deletedFiles, addedFiles
      ensures forall l :: 0 <= l < NUM_LEVELS ==> deletedFiles[l] == old(deletedFiles[l]) - NumbersOf(NewAt(newFiles, l))
      ensures forall l :: 0 <= l < NUM_LEVELS ==> addedFiles[l] == InsertAll(old(addedFiles[l]), NewAt(newFiles, l))
    {
      hide InsertSorted, InsertAll, NewAt, NumbersOf;
      assert newFiles[..0] == [];
      forall l | 0 <= l < NUM_LEVELS
        ensures NewAt([], l) == [] && NumbersOf([]) == {} && InsertAll(addedFiles[l], []) == addedFiles[l]
      {
        NothingNew(addedFiles[l], l);
      }
      for i := 0 to |newFiles|
        invariant forall l :: 0 <= l < NUM_LEVELS ==> deletedFiles[l] == old(deletedFiles[l]) - NumbersOf(NewAt(newFiles[..i], l))
        invariant forall l :: 0 <= l < NUM_LEVELS ==> addedFiles[l] == InsertAll(old(addedFiles[l]), NewAt(newFiles[..i], l))
      {
        var level, f := newFiles[i].0, newFiles[i].1;
        forall l | 0 <= l < NUM_LEVELS
          ensures NumbersOf(NewAt(newFiles[..i + 1], l)) == NumbersOf(NewAt(newFiles[..i], l)) + if l == level then {f.number} else {}
          ensures InsertAll(old(addedFiles[l]), NewAt(newFiles[..i + 1], l))
            == if l == level then InsertSorted(InsertAll(old(addedFiles[l]), NewAt(newFiles[..i], l)), f)
               else InsertAll(old(addedFiles[l]), NewAt(newFiles[..i], l))
        {
          NewAtStep(newFiles, i, l, old(addedFiles[l]));
        }
        deletedFiles[level] := deletedFiles[level] - {f.number};
        addedFiles[level] := InsertSorted(addedFiles[level], f);
      }
      assert newFiles[..|newFiles|] == newFiles;
    }

    /** Collects one edit: deletions first, then additions, which also undo a deletion
        of the same number. */
    method Apply(e: Edit)
      requires Valid() && e.LevelsInRange()
      modifies deletedFiles, addedFiles
      ensures forall l :: 0 <= l < NUM_LEVELS ==>
        && deletedFiles[l] == (old(deletedFiles[l]) + DeletedAt(e, l)) - NumbersOf(NewAt(e.newFiles, l))
        && addedFiles[l] == InsertAll(old(addedFiles[l]), NewAt(e.newFiles, l))
    {
      DeleteFiles(e.deletedFiles);
      AddFiles(e.newFiles);
    }

    /** std::upper_bound: the first file from `from` on that t comes before. */
    method UpperBound(files: Files, from: nat, t: Table) returns (pos: nat)
      requires from <= |files| && SortedBySmallest(files)
      ensures from <= pos <= |files|
      ensures forall i :: from <= i < pos ==> !BySmallestKey(t, files[i])
      ensures pos < |files| ==> BySmallestKey(t, files[pos])
    {
      var lo, hi := from, |files|;
      while lo < hi
        invariant from <= lo <= hi <= |files|
        invariant forall i :: from <= i < lo ==> !BySmallestKey(t, files[i])
        invariant hi < |files| ==> BySmallestKey(t, files[hi])
      {
        var mid := (lo + hi) / 2;
        if BySmallestKey(t, files[mid]) {
          hi := mid;
        } else {
          lo := mid + 1;
        }
      }
      pos := lo;
    }

    /** One level of the new version: base and added files merged in order, deleted
        numbers left out. */
    method SaveLevel(level: nat) returns (files: Files)
      requires Valid() && level < NUM_LEVELS && SortedBySmallest(base[level])
      ensures files == NotDeleted(Merge(base[level], addedFiles[level]), deletedFiles[level])
    {
      hide Merge, NotDeleted, BySmallestKey, SortedBySmallest, MaybeAddFile;
      var baseFiles, added, deleted := base[level], addedFiles[level], deletedFiles[level];
      files := [];
      var i := 0;
      assert baseFiles[0..] == baseFiles && added[0..] == added;
      for j := 0 to |added|
        invariant i <= |baseFiles|
        invariant files + NotDeleted(Merge(baseFiles[i..], added[j..]), deleted) == NotDeleted(Merge(baseFiles, added), deleted)
      {
        var bpos := UpperBound(baseFiles, i, added[j]);
        ghost var from := i;
        while i < bpos
          invariant from <= i <= bpos
          invariant files + NotDeleted(Merge(baseFiles[i..], added[j..]), deleted) == NotDeleted(Merge(baseFiles, added), deleted)
        {
          SaveBaseStep(files, baseFiles[i..], added[j..], deleted);
          assert baseFiles[i..][1..] == baseFiles[i + 1..];
          files := MaybeAddFile(files, baseFiles[i], deleted);
          i := i + 1;
        }
        SaveAddedStep(files, baseFiles[i..], added[j..], deleted);
        assert added[j..][1..] == added[j + 1..];
        files := MaybeAddFile(files, added[j], deleted);
      }
      assert added[|added|..] == [];
      while i < |baseFiles|
        invariant i <= |baseFiles|
        invariant files + NotDeleted(Merge(baseFiles[i..], []), deleted) == NotDeleted(Merge(baseFiles, added), deleted)
      {
        SaveBaseStep(files, baseFiles[i..], [], deleted);
        assert baseFiles[i..][1..] == baseFiles[i + 1..];
        files := MaybeAddFile(files, baseFiles[i], deleted);
        i := i + 1;
      }
      MergeNothing(deleted);
      assert baseFiles[i..] == [];
    }

    method SaveTo() returns (v: Levels)
      requires Valid() && forall l :: 0 <= l < NUM_LEVELS ==> SortedBySmallest(base[l])
      ensures forall l :: 0 <= l < NUM_LEVELS ==> v[l] == NotDeleted(Merge(base[l], addedFiles[l]), deletedFiles[l])
    {
      var out: seq<Files> := [];
      for level := 0 to NUM_LEVELS
        invariant |out| == level
        invariant forall l :: 0 <= l < level ==> out[l] == NotDeleted(Merge(base[l], addedFiles[l]), deletedFiles[l])
      {
        var files := SaveLevel(level);
        out := out + [files];
      }
      v := out;
    }
  }

  function MaybeAddFile(files: Files, t: Table, deleted: set<nat>): Files {
    if t.number in deleted then files else files + [t]
  }

  lemma MergeNothing(deleted: set<nat>)
    ensures NotDeleted(Merge([], []), deleted) == []
  {
  }

  // ----- one version per edit -----

  /** One edit applied to one level on its own. */
  ghost function EditFiles(files: set<Table>, e: Edit, l: nat): set<Table> {
    (set t | t in files && t.number !in DeletedAt(e, l)) + SetOfFiles(NewAt(e.newFiles, l))
  }

  ghost function EditAll(files: set<Table>, edits: seq<Edit>, l: nat): set<Table> {
    if edits == [] then files else EditFiles(EditAll(files, edits[..|edits| - 1], l), edits[|edits| - 1], l)
  }

  ghost function AddedBy(edits: seq<Edit>, l: nat): set<Table> {
    set e, t | e in edits && t in NewAt(e.newFiles, l) :: t
  }

  /** No level ever gets a file number twice: an edit adds new numbers only, each once. */
  ghost predicate FreshAdds(files: set<Table>, edits: seq<Edit>, l: nat) {
    edits != [] ==>
      var before, e := edits[..|edits| - 1], edits[|edits| - 1];
      && FreshAdds(files, before, l)
      && (forall t, u :: t in NewAt(e.newFiles, l) && (u in files || u in AddedBy(before, l)) ==> t.number != u.number)
      && (forall i, j :: 0 <= i < j < |NewAt(e.newFiles, l)| ==> NewAt(e.newFiles, l)[i].number != NewAt(e.newFiles, l)[j].number)
  }

  /** What a builder has collected after some edits. */
  ghost function DeletedAfter(edits: seq<Edit>, l: nat): set<nat> {
    if edits == [] then {}
    else
      var e := edits[|edits| - 1];
      (DeletedAfter(edits[..|edits| - 1], l) + DeletedAt(e, l)) - NumbersOf(NewAt(e.newFiles, l))
  }

  ghost function AddedAfter(edits: seq<Edit>, l: nat): Files {
    if edits == [] then []
    else InsertAll(AddedAfter(edits[..|edits| - 1], l), NewAt(edits[|edits| - 1].newFiles, l))
  }

  /** What the builder saves for a level after some edits. */
  ghost function Saved(base: Files, edits: seq<Edit>, l: nat): Files {
    NotDeleted(Merge(base, AddedAfter(edits, l)), DeletedAfter(edits, l))
  }

  lemma {:induction false} InsertAllMembers(files: Files, ts: Files)
    requires SortedBySmallest(files)
    requires forall t, u :: t in files && u in ts ==> t.number != u.number
    requires forall i, j :: 0 <= i < j < |ts| ==> ts[i].number != ts[j].number
    ensures SortedBySmallest(InsertAll(files, ts))
    ensures forall t :: t in InsertAll(files, ts) <==> t in files || t in ts
  {
    if ts != [] {
      var rest, t := ts[..|ts| - 1], ts[|ts| - 1];
      assert ts == rest + [t];
      InsertAllMembers(files, rest);
      InsertSortedKeepsOrder(InsertAll(files, rest), t);
    }
  }

  lemma {:induction false} AddedAfterMembers(files: set<Table>, edits: seq<Edit>, l: nat)
    requires FreshAdds(files, edits, l)
    ensures SortedBySmallest(AddedAfter(edits, l))
    ensures SetOfFiles(AddedAfter(edits, l)) == AddedBy(edits, l)
  {
    if edits != [] {
      var before, e := edits[..|edits| - 1], edits[|edits| - 1];
      AddedAfterMembers(files, before, l);
      InsertAllMembers(AddedAfter(before, l), NewAt(e.newFiles, l));
      assert edits == before + [e];
      forall t ensures t in AddedBy(edits, l) <==> t in AddedBy(before, l) || t in NewAt(e.newFiles, l) {
      }
    }
  }

  /** Collecting all edits in one builder keeps exactly the files that applying them one
      version at a time keeps. */
  lemma {:induction false} BuilderAgrees(files: set<Table>, edits: seq<Edit>, l: nat, t: Table)
    requires FreshAdds(files, edits, l)
    ensures t in EditAll(files, edits, l) <==> (t in files || t in AddedBy(edits, l)) && t.number !in DeletedAfter(edits, l)
  {
    if edits != [] {
      var before, e := edits[..|edits| - 1], edits[|edits| - 1];
      BuilderAgrees(files, before, l, t);
      assert edits == before + [e];
      assert t in AddedBy(edits, l) <==> t in AddedBy(before, l) || t in NewAt(e.newFiles, l);
      if u :| u in NewAt(e.newFiles, l) && u.number == t.number {
        assert t in NewAt(e.newFiles, l) || (t !in files && t !in AddedBy(before, l));
      }
    }
  }

  lemma SameSetSameList(a: Files, b: Files)
    requires SortedBySmallest(a) && SortedBySmallest(b) && SetOfFiles(a) == SetOfFiles(b)
    ensures a == b
  {
    hide SortedBySmallest;
    forall t ensures t in a <==> t in b {
      assert t in a <==> t in SetOfFiles(a);
      assert t in b <==> t in SetOfFiles(b);
    }
    SortedUnique(a, b);
  }

  /** The version a builder saves after collecting the edits: ordered, and with the files
      of the edits applied one version at a time. */
  lemma SavedLevel(base: Files, edits: seq<Edit>, l: nat)
    requires SortedBySmallest(base) && FreshAdds(SetOfFiles(base), edits, l)
    ensures
      SortedBySmallest(Saved(base, edits, l)) && SetOfFiles(Saved(base, edits, l)) == EditAll(SetOfFiles(base), edits, l)
  {
    var added, deleted := AddedAfter(edits, l), DeletedAfter(edits, l);
    AddedAfterMembers(SetOfFiles(base), edits, l);
    FreshNotEquivalent(base, edits, l);
    forall t, u | t in base && u in added ensures !Equivalent(t, u) {
      assert u in SetOfFiles(added);
    }
    MergeSorted(base, added);
    MergeMembers(base, added);
    NotDeletedMembers(Merge(base, added), deleted);
    forall t ensures t in NotDeleted(Merge(base, added), deleted) <==> t in EditAll(SetOfFiles(base), edits, l) {
      BuilderAgrees(SetOfFiles(base), edits, l, t);
      assert t in added <==> t in SetOfFiles(added);
    }
  }

  lemma {:induction false} FreshNotEquivalent(base: Files, edits: seq<Edit>, l: nat)
    requires FreshAdds(SetOfFiles(base), edits, l)
    ensures forall t, u :: t in base && u in AddedBy(edits, l) ==> t.number != u.number
  {
    if edits != [] {
      var before, e := edits[..|edits| - 1], edits[|edits| - 1];
      FreshNotEquivalent(base, before, l);
      assert edits == before + [e];
      forall t, u | t in base && u in AddedBy(edits, l) ensures t.number != u.number {
        assert u in AddedBy(before, l) || u in NewAt(e.newFiles, l);
      }
    }
  }

  lemma AppendEdit(edits: seq<Edit>, e: Edit, l: nat)
    ensures DeletedAfter(edits + [e], l) == (DeletedAfter(edits, l) + DeletedAt(e, l)) - NumbersOf(NewAt(e.newFiles, l))
    ensures AddedAfter(edits + [e], l) == InsertAll(AddedAfter(edits, l), NewAt(e.newFiles, l))
    ensures forall files :: EditAll(files, edits + [e], l) == EditFiles(EditAll(files, edits, l), e, l)
  {
    assert (edits + [e])[..|edits + [e]| - 1] == edits;
  }

  lemma InsertAllOne(files: Files, t: Table)
    ensures InsertAll(files, [t]) == InsertSorted(files, t) && NumbersOf([t]) == {t.number} && InsertAll(files, []) == files
  {
    assert [t][..0] == [];
  }

  /** Without fresh numbers the two disagree: a level that gets a number back under
      another key range also gets the deleted file back. */
  lemma ReaddedNumberRestoresDeleted(t: Table, u: Table)
    requires t.number == u.number && t.smallest != u.smallest
    ensures
      var edits := [] + [AddOf(t)] + [DeleteOf(t.number)] + [AddOf(u)];
      && t !in EditAll({}, edits, 0)
      && t in Saved([], edits, 0)
  {
    hide InsertAll, NewAt, InsertSorted, Merge, NotDeleted, DeletedAfter, AddedAfter, EditAll;
    var a, b, c := AddOf(t), DeleteOf(t.number), AddOf(u);
    NewAtOne(0, 0, t);
    NewAtOne(0, 0, u);
    NothingNew([], 0);
    AppendEdit([], a, 0);
    AppendEdit([] + [a], b, 0);
    AppendEdit([] + [a] + [b], c, 0);
    InsertAllOne([], t);
    InsertAllOne([t], u);
    var edits := [] + [a] + [b] + [c];
    assert DeletedAt(b, 0) == {t.number} && DeletedAt(a, 0) == {} && DeletedAt(c, 0) == {};
    assert DeletedAfter([], 0) == {} && AddedAfter([], 0) == [] && EditAll({}, [], 0) == {} by {
      NothingDone();
    }
    assert InsertSorted([], t) == [t] by { InsertFirst(t); }
    InsertSortedKeepsOrder([t], u);
    assert AddedAfter(edits, 0) == InsertSorted([t], u);
    MergeMembers([], AddedAfter(edits, 0));
    NotDeletedMembers(Merge([], AddedAfter(edits, 0)), DeletedAfter(edits, 0));
  }

  /** Nor does it help that the number comes with the same smallest key: the file added
      second is lost, because the ordered set already holds one it takes for the same. */
  lemma EquivalentAddIsLost(t: Table, u: Table)
    requires t != u && Equivalent(t, u)
    ensures
      var edits := [] + [AddOf(t)] + [AddOf(u)];
      && u in EditAll({}, edits, 0)
      && u !in Saved([], edits, 0)
  {
    hide InsertAll, NewAt, Merge, NotDeleted, DeletedAfter, AddedAfter, EditAll;
    var a, b := AddOf(t), AddOf(u);
    NewAtOne(0, 0, t);
    NewAtOne(0, 0, u);
    NothingNew([], 0);
    AppendEdit([], a, 0);
    AppendEdit([] + [a], b, 0);
    InsertAllOne([], t);
    InsertAllOne([t], u);
    var edits := [] + [a] + [b];
    NothingDone();
    assert DeletedAt(a, 0) == {} && DeletedAt(b, 0) == {};
    assert AddedAfter(edits, 0) == [t];
    MergeMembers([], AddedAfter(edits, 0));
    NotDeletedMembers(Merge([], AddedAfter(edits, 0)), DeletedAfter(edits, 0));
  }

  // ----- exactly when one builder does the work of many versions -----

  /** Edit i adds the file, and no later edit deletes its number. */
  ghost predicate AddedToStay(edits: seq<Edit>, l: nat, i: nat, t: Table) {
    && i < |edits| && t in NewAt(edits[i].newFiles, l)
    && forall j :: i < j < |edits| ==> t.number !in DeletedAt(edits[j], l)
  }

  ghost predicate NeverDeleted(edits: seq<Edit>, l: nat, n: nat) {
    forall j :: 0 <= j < |edits| ==> n !in DeletedAt(edits[j], l)
  }

  /** The file is there at the start and never deleted, or added to stay. */
  ghost predicate Stays(base: set<Table>, edits: seq<Edit>, l: nat, t: Table) {
    (t in base && NeverDeleted(edits, l, t.number)) || exists i: nat :: AddedToStay(edits, l, i, t)
  }

  /** All files the edits add to a level, in order. */
  function Adds(edits: seq<Edit>, l: nat): Files {
    if edits == [] then [] else Adds(edits[..|edits| - 1], l) + NewAt(edits[|edits| - 1].newFiles, l)
  }

  /** The file is listed, and the first of those with its number and smallest key. */
  ghost predicate FirstOfKind(ts: Files, t: Table) {
    exists k :: 0 <= k < |ts| && ts[k] == t && forall m :: 0 <= m < k ==> !Equivalent(ts[m], t)
  }

  /** A file that is gone shares its number with one added to stay. */
  ghost predicate NumberReturns(base: set<Table>, edits: seq<Edit>, l: nat) {
    exists t, u, i: nat :: (t in base || FirstOfKind(Adds(edits, l), t)) && !Stays(base, edits, l, t)
      && AddedToStay(edits, l, i, u) && u.number == t.number
  }

  /** A file added to stay comes after another one with its number and smallest key. */
  ghost predicate AddShadowed(base: set<Table>, edits: seq<Edit>, l: nat) {
    exists u, i: nat :: AddedToStay(edits, l, i, u) && u !in base && !FirstOfKind(Adds(edits, l), u)
  }

  lemma AddedToStayNext(edits: seq<Edit>, e: Edit, l: nat, i: nat, t: Table)
    ensures AddedToStay(edits + [e], l, i, t) <==>
      if i == |edits| then t in NewAt(e.newFiles, l) else AddedToStay(edits, l, i, t) && t.number !in DeletedAt(e, l)
    ensures AddedToStay(edits, l, i, t) ==> i < |edits|
  {
    var all := edits + [e];
    assert all[|edits|] == e && forall j :: 0 <= j < |edits| ==> all[j] == edits[j];
  }

  /** Applying the edits one at a time leaves the files that stay. */
  lemma {:induction false} EditAllStays(base: set<Table>, edits: seq<Edit>, l: nat, t: Table)
    ensures t in EditAll(base, edits, l) <==> Stays(base, edits, l, t)
  {
    hide NewAt, DeletedAt, AddedToStay;
    if edits == [] {
      assert forall i: nat :: !AddedToStay([], l, i, t) by { NoneAdded(l, t); }
    } else {
      var before, e, n := edits[..|edits| - 1], edits[|edits| - 1], |edits| - 1;
      EditAllStays(base, before, l, t);
      assert edits == before + [e];
      forall i: nat ensures AddedToStay(edits, l, i, t) <==>
        if i == n then t in NewAt(e.newFiles, l) else AddedToStay(before, l, i, t) && t.number !in DeletedAt(e, l)
      {
        AddedToStayNext(before, e, l, i, t);
      }
      assert t in NewAt(e.newFiles, l) ==> AddedToStay(edits, l, n, t);
      assert NeverDeleted(edits, l, t.number) <==> NeverDeleted(before, l, t.number) && t.number !in DeletedAt(e, l);
      if i: nat :| AddedToStay(before, l, i, t) && t.number !in DeletedAt(e, l) {
        AddedToStayNext(before, e, l, i, t);
        assert AddedToStay(edits, l, i, t);
      }
    }
  }

  lemma NoneAdded(l: nat, t: Table)
    ensures forall i: nat :: !AddedToStay([], l, i, t)
  {
  }

  /** A number is left out in the end unless it was never deleted or belongs to a file added
      to stay. */
  lemma {:induction false} NumberCleared(edits: seq<Edit>, l: nat, n: nat)
    ensures n !in DeletedAfter(edits, l) <==> NeverDeleted(edits, l, n) || exists i: nat, u :: AddedToStay(edits, l, i, u) && u.number == n
  {
    hide NewAt, DeletedAt, AddedToStay;
    if edits != [] {
      var before, e, last := edits[..|edits| - 1], edits[|edits| - 1], |edits| - 1;
      NumberCleared(before, l, n);
      assert edits == before + [e];
      forall i: nat, u ensures AddedToStay(edits, l, i, u) <==>
        if i == last then u in NewAt(e.newFiles, l) else AddedToStay(before, l, i, u) && u.number !in DeletedAt(e, l)
      {
        AddedToStayNext(before, e, l, i, u);
      }
      assert NeverDeleted(edits, l, n) <==> NeverDeleted(before, l, n) && n !in DeletedAt(e, l);
      if u :| u in NewAt(e.newFiles, l) && u.number == n {
        assert AddedToStay(edits, l, last, u);
      } else if i: nat, u :| AddedToStay(before, l, i, u) && u.number == n && n !in DeletedAt(e, l) {
        AddedToStayNext(before, e, l, i, u);
        assert AddedToStay(edits, l, i, u);
      }
    }
  }

  lemma {:induction false} InsertAllInTwo(files: Files, a: Files, b: Files)
    ensures InsertAll(files, a + b) == InsertAll(InsertAll(files, a), b)
    decreases |b|
  {
    if b == [] {
      assert a + b == a;
    } else {
      assert (a + b)[..|a + b| - 1] == a + b[..|b| - 1];
      InsertAllInTwo(files, a, b[..|b| - 1]);
    }
  }

  lemma {:induction false} AddedAfterIsAdds(edits: seq<Edit>, l: nat)
    ensures AddedAfter(edits, l) == InsertAll([], Adds(edits, l))
  {
    hide InsertAll, NewAt;
    if edits == [] {
      InsertNone([]);
    } else {
      AddedAfterIsAdds(edits[..|edits| - 1], l);
      InsertAllInTwo([], Adds(edits[..|edits| - 1], l), NewAt(edits[|edits| - 1].newFiles, l));
    }
  }

  lemma InsertNone(files: Files)
    ensures InsertAll(files, []) == files
  {
  }

  lemma SameKindSameOrder(a: Table, u: Table, t: Table)
    requires Equivalent(u, t)
    ensures BySmallestKey(a, u) ==> BySmallestKey(a, t) && !BySmallestKey(t, a)
    ensures !BySmallestKey(u, t) && !BySmallestKey(t, u)
  {
  }

  lemma {:induction false} InsertSortedExactly(files: Files, t: Table, i: nat)
    requires SortedBySmallest(files) && i < |files| && Equivalent(files[i], t)
    ensures InsertSorted(files, t) == files
  {
    hide BySmallestKey, Equivalent;
    SameKindSameOrder(files[0], files[i], t);
    if i > 0 {
      assert files[1..][i - 1] == files[i];
      InsertSortedExactly(files[1..], t, i - 1);
    }
  }

  /** Of the files offered one by one the set holds the first of each kind. */
  lemma {:induction false} SetHoldsFirst(ts: Files, t: Table)
    ensures SortedBySmallest(InsertAll([], ts))
    ensures t in InsertAll([], ts) <==> FirstOfKind(ts, t)
    ensures (exists u :: u in InsertAll([], ts) && Equivalent(u, t)) <==> exists u :: u in ts && Equivalent(u, t)
  {
    if ts != [] {
      var rest, x := ts[..|ts| - 1], ts[|ts| - 1];
      assert ts == rest + [x];
      var held := InsertAll([], rest);
      SetHoldsFirst(rest, t);
      SetHoldsFirst(rest, x);
      FirstOfKindNext(rest, x, t);
      InsertSortedKeepsOrder(held, x);
      if u :| u in held && Equivalent(u, x) {
        var i: nat :| i < |held| && held[i] == u;
        InsertSortedExactly(held, x, i);
      }
    }
  }

  lemma FirstOfKindNext(ts: Files, x: Table, t: Table)
    ensures FirstOfKind(ts + [x], t) <==> FirstOfKind(ts, t) || (t == x && forall u :: u in ts ==> !Equivalent(u, x))
  {
    var all := ts + [x];
    if FirstOfKind(all, t) {
      var k :| 0 <= k < |all| && all[k] == t && forall m :: 0 <= m < k ==> !Equivalent(all[m], t);
      assert forall m :: 0 <= m < |ts| ==> all[m] == ts[m];
    }
    if FirstOfKind(ts, t) {
      var k :| 0 <= k < |ts| && ts[k] == t && forall m :: 0 <= m < k ==> !Equivalent(ts[m], t);
      assert all[k] == t && forall m :: 0 <= m < k ==> all[m] == ts[m];
    }
    if t == x && forall u :: u in ts ==> !Equivalent(u, x) {
      assert all[|ts|] == t && forall m :: 0 <= m < |ts| ==> all[m] == ts[m] && all[m] in ts;
    }
  }

  /** A file listed and never deleted was added to stay. */
  lemma {:induction false} ListedIsAdded(edits: seq<Edit>, l: nat, t: Table) returns (i: nat)
    requires t in Adds(edits, l)
    ensures i < |edits| && t in NewAt(edits[i].newFiles, l)
  {
    if t in NewAt(edits[|edits| - 1].newFiles, l) {
      i := |edits| - 1;
    } else {
      i := ListedIsAdded(edits[..|edits| - 1], l, t);
    }
  }

  lemma SavedMembers(base: Files, edits: seq<Edit>, l: nat, t: Table)
    ensures t in Saved(base, edits, l) <==>
      (t in base || FirstOfKind(Adds(edits, l), t))
      && (NeverDeleted(edits, l, t.number) || exists i: nat, u :: AddedToStay(edits, l, i, u) && u.number == t.number)
  {
    hide AddedToStay, NeverDeleted, FirstOfKind, InsertAll, Adds, Merge, NotDeleted, AddedAfter, DeletedAfter;
    NumberCleared(edits, l, t.number);
    AddedAfterIsAdds(edits, l);
    SetHoldsFirst(Adds(edits, l), t);
    MergeMembers(base, AddedAfter(edits, l));
    NotDeletedMembers(Merge(base, AddedAfter(edits, l)), DeletedAfter(edits, l));
  }

  /** The version saved after collecting any edits in one builder holds the files of the
      edits applied one version at a time exactly when no number of a file that is gone is
      added again to stay, and no file added to stay comes after another of its kind. */
  lemma SavedIffNoClash(base: Files, edits: seq<Edit>, l: nat)
    ensures SetOfFiles(Saved(base, edits, l)) == EditAll(SetOfFiles(base), edits, l)
      <==> !NumberReturns(SetOfFiles(base), edits, l) && !AddShadowed(SetOfFiles(base), edits, l)
  {
    hide AddedToStay, NeverDeleted, FirstOfKind, Adds, Saved, EditAll;
    var b := SetOfFiles(base);
    forall t
      ensures t in EditAll(b, edits, l) <==> Stays(b, edits, l, t)
      ensures t in Saved(base, edits, l) <==> t in SetOfFiles(Saved(base, edits, l))
      ensures t in Saved(base, edits, l) <==>
        (t in b || FirstOfKind(Adds(edits, l), t))
        && (NeverDeleted(edits, l, t.number) || exists i: nat, u :: AddedToStay(edits, l, i, u) && u.number == t.number)
    {
      EditAllStays(b, edits, l, t);
      SavedMembers(base, edits, l, t);
    }
    if !NumberReturns(b, edits, l) && !AddShadowed(b, edits, l) {
      forall t ensures t in Saved(base, edits, l) <==> Stays(b, edits, l, t) {
        if t !in b && FirstOfKind(Adds(edits, l), t) && NeverDeleted(edits, l, t.number) {
          NeverDeletedStays(edits, l, t);
        }
      }
    }
  }

  // ----- when the saved level is in order -----

  /** The number is not marked deleted in the end. */
  ghost predicate NumberStays(edits: seq<Edit>, l: nat, n: nat) {
    NeverDeleted(edits, l, n) || exists i: nat, u :: AddedToStay(edits, l, i, u) && u.number == n
  }

  /** A file of the base that stays has the number and smallest key of an added one, which may
      be the very same file. */
  ghost predicate SavedTwice(base: Files, edits: seq<Edit>, l: nat) {
    exists t, u :: t in base && FirstOfKind(Adds(edits, l), u) && Equivalent(t, u) && NumberStays(edits, l, t.number)
  }

  lemma KindsInOrder(a: Table, b: Table, c: Table)
    ensures BySmallestKey(a, b) && BySmallestKey(b, c) ==> BySmallestKey(a, c)
    ensures BySmallestKey(a, b) ==> !BySmallestKey(b, a)
    ensures !BySmallestKey(a, b) && BySmallestKey(a, c) ==> BySmallestKey(b, c)
  {
    CompareIsTotalOrder(a.smallest, b.smallest, c.smallest);
    CompareIsTotalOrder(b.smallest, a.smallest, c.smallest);
  }

  lemma NotDeletedNext(files: Files, deleted: set<nat>)
    requires files != []
    ensures NotDeleted(files, deleted) == (if files[0].number in deleted then [] else [files[0]]) + NotDeleted(files[1..], deleted)
  {
  }

  lemma FirstComesFirst(files: Files, t: Table)
    requires SortedBySmallest(files) && files != [] && t in files
    ensures t == files[0] || BySmallestKey(files[0], t)
  {
  }

  /** Files that are marked deleted make no difference to how the others are merged. */
  lemma {:induction false} MergeNotDeleted(base: Files, added: Files, deleted: set<nat>)
    requires SortedBySmallest(base) && SortedBySmallest(added)
    ensures NotDeleted(Merge(base, added), deleted) == Merge(NotDeleted(base, deleted), NotDeleted(added, deleted))
    decreases |base| + |added|
  {
    hide BySmallestKey, NotDeleted, Merge;
    if base == [] || added == [] {
      MergeOne(base, added, deleted);
    } else if BySmallestKey(added[0], base[0]) {
      MergeNotDeleted(base, added[1..], deleted);
      AddedGoesFirst(base, added, deleted);
    } else {
      MergeNotDeleted(base[1..], added, deleted);
      BaseGoesFirst(base, added, deleted);
    }
  }

  lemma MergeOne(base: Files, added: Files, deleted: set<nat>)
    requires base == [] || added == []
    ensures NotDeleted(Merge(base, added), deleted) == Merge(NotDeleted(base, deleted), NotDeleted(added, deleted))
  {
  }

  lemma AddedGoesFirst(base: Files, added: Files, deleted: set<nat>)
    requires SortedBySmallest(base) && base != [] && added != [] && BySmallestKey(added[0], base[0])
    requires NotDeleted(Merge(base, added[1..]), deleted) == Merge(NotDeleted(base, deleted), NotDeleted(added[1..], deleted))
    ensures NotDeleted(Merge(base, added), deleted) == Merge(NotDeleted(base, deleted), NotDeleted(added, deleted))
  {
    hide BySmallestKey, NotDeleted, Merge, SortedBySmallest;
    var b, a, rest := NotDeleted(base, deleted), NotDeleted(added, deleted), NotDeleted(added[1..], deleted);
    MergeFirstAdded(base, added);
    NotDeletedNext(Merge(base, added), deleted);
    assert Merge(base, added)[1..] == Merge(base, added[1..]);
    NotDeletedNext(added, deleted);
    if added[0].number !in deleted {
      if b != [] {
        NotDeletedMembers(base, deleted);
        assert b[0] in b;
        FirstComesFirst(base, b[0]);
        KindsInOrder(added[0], base[0], b[0]);
      }
      assert a == [added[0]] + rest && a[1..] == rest;
      MergeFirstAdded(b, a);
    } else {
      assert a == rest;
    }
  }

  lemma BaseGoesFirst(base: Files, added: Files, deleted: set<nat>)
    requires SortedBySmallest(added) && base != [] && added != [] && !BySmallestKey(added[0], base[0])
    requires NotDeleted(Merge(base[1..], added), deleted) == Merge(NotDeleted(base[1..], deleted), NotDeleted(added, deleted))
    ensures NotDeleted(Merge(base, added), deleted) == Merge(NotDeleted(base, deleted), NotDeleted(added, deleted))
  {
    hide BySmallestKey, NotDeleted, Merge, SortedBySmallest;
    var b, a, rest := NotDeleted(base, deleted), NotDeleted(added, deleted), NotDeleted(base[1..], deleted);
    MergeFirstBase(base, added);
    NotDeletedNext(Merge(base, added), deleted);
    assert Merge(base, added)[1..] == Merge(base[1..], added);
    NotDeletedNext(base, deleted);
    if base[0].number !in deleted {
      if a != [] {
        NotDeletedMembers(added, deleted);
        assert a[0] in a;
        FirstComesFirst(added, a[0]);
        KindsInOrder(added[0], a[0], base[0]);
        KindsInOrder(a[0], base[0], added[0]);
      }
      assert b == [base[0]] + rest && b[1..] == rest;
      MergeFirstBase(b, a);
    } else {
      assert b == rest;
    }
  }

  lemma {:induction false} MergeKeepsAll(base: Files, added: Files)
    ensures multiset(Merge(base, added)) == multiset(base) + multiset(added)
    decreases |base| + |added|
  {
    hide BySmallestKey, Merge;
    if base == [] || added == [] {
      MergeEmpty(base, added);
    } else if BySmallestKey(added[0], base[0]) {
      MergeKeepsAll(base, added[1..]);
      MergeFirstAdded(base, added);
      assert added == [added[0]] + added[1..];
    } else {
      MergeKeepsAll(base[1..], added);
      MergeFirstBase(base, added);
      assert base == [base[0]] + base[1..];
    }
  }

  lemma MergeEmpty(base: Files, added: Files)
    requires base == [] || added == []
    ensures Merge(base, added) == base + added
  {
    assert base + [] == base && [] + added == added;
  }

  lemma {:induction false} OnceInOrder(files: Files, t: Table)
    requires SortedBySmallest(files)
    ensures multiset(files)[t] <= 1
  {
    hide BySmallestKey;
    if files != [] {
      OnceInOrder(files[1..], t);
      assert files == [files[0]] + files[1..];
      if t in files[1..] && t == files[0] {
        var i :| 0 <= i < |files[1..]| && files[1..][i] == t;
        assert BySmallestKey(files[0], files[i + 1]);
        KindsInOrder(t, t, t);
      }
    }
  }

  /** Two of a kind cannot both stand in an ordered list. */
  lemma NotInOrder(base: Files, added: Files, t: Table, u: Table)
    requires t in base && u in added && Equivalent(t, u)
    ensures !SortedBySmallest(Merge(base, added))
  {
    hide Merge, SortedBySmallest;
    var all := Merge(base, added);
    MergeKeepsAll(base, added);
    if t == u {
      assert multiset(all)[t] >= 2;
      if SortedBySmallest(all) {
        OnceInOrder(all, t);
      }
    } else {
      assert t in multiset(all) && u in multiset(all);
      TwoOfAKind(all, t, u);
    }
  }

  lemma TwoOfAKind(files: Files, t: Table, u: Table)
    requires t in files && u in files && t != u && Equivalent(t, u)
    ensures !SortedBySmallest(files)
  {
    var i :| 0 <= i < |files| && files[i] == t;
    var j :| 0 <= j < |files| && files[j] == u;
    SameKindSameOrder(t, t, u);
    SameKindSameOrder(u, u, t);
    assert !BySmallestKey(files[i], files[j]) && !BySmallestKey(files[j], files[i]);
  }

  /** A level is saved in order exactly when nothing in it is saved twice. */
  lemma SavedInOrderIff(base: Files, edits: seq<Edit>, l: nat)
    requires SortedBySmallest(base)
    ensures SortedBySmallest(Saved(base, edits, l)) <==> !SavedTwice(base, edits, l)
  {
    hide AddedToStay, NeverDeleted, FirstOfKind, Adds, InsertAll, AddedAfter, DeletedAfter, NotDeleted, Merge,
      SortedBySmallest, BySmallestKey, Equivalent;
    var added, deleted := AddedAfter(edits, l), DeletedAfter(edits, l);
    AddedAfterIsAdds(edits, l);
    SetInOrder(Adds(edits, l));
    MergeNotDeleted(base, added, deleted);
    NotDeletedMembers(base, deleted);
    NotDeletedMembers(added, deleted);
    var b, a := NotDeleted(base, deleted), NotDeleted(added, deleted);
    forall t, u ensures t in b && u in a && Equivalent(t, u) <==>
      t in base && FirstOfKind(Adds(edits, l), u) && Equivalent(t, u) && NumberStays(edits, l, t.number)
    {
      NumberCleared(edits, l, t.number);
      SetHoldsFirst(Adds(edits, l), u);
      SameNumber(t, u);
    }
    if t, u :| t in b && u in a && Equivalent(t, u) {
      NotInOrder(b, a, t, u);
    } else {
      MergeSorted(b, a);
    }
  }

  lemma SetInOrder(ts: Files)
    ensures SortedBySmallest(InsertAll([], ts))
  {
    SetHoldsFirst(ts, Table(0, 0, InternalKey(0.0, 0, Put), InternalKey(0.0, 0, Put), {}));
  }

  lemma SameNumber(t: Table, u: Table)
    ensures Equivalent(t, u) ==> t.number == u.number
  {
  }

  lemma NeverDeletedStays(edits: seq<Edit>, l: nat, t: Table)
    requires FirstOfKind(Adds(edits, l), t) && NeverDeleted(edits, l, t.number)
    ensures exists i: nat :: AddedToStay(edits, l, i, t)
  {
    hide Adds;
    var i := ListedIsAdded(edits, l, t);
    assert AddedToStay(edits, l, i, t);
  }

  function AddOf(t: Table): Edit {
    EMPTY_EDIT.(newFiles := [(0, t)])
  }

  function DeleteOf(n: nat): Edit {
    EMPTY_EDIT.(deletedFiles := {(0, n)})
  }

  lemma NothingDone()
    ensures DeletedAfter([], 0) == {} && AddedAfter([], 0) == [] && EditAll({}, [], 0) == {}
  {
  }

  lemma InsertFirst(t: Table)
    ensures InsertSorted([], t) == [t]
  {
  }

  lemma OneEdit(e: Edit, l: nat)
    ensures DeletedAfter([e], l) == DeletedAt(e, l) - NumbersOf(NewAt(e.newFiles, l))
    ensures AddedAfter([e], l) == InsertAll([], NewAt(e.newFiles, l))
    ensures forall files :: EditAll(files, [e], l) == EditFiles(files, e, l)
  {
    assert [e][..0] == [];
  }

  /** One edit applied to a version through a builder. */
  method ApplyEdit(v: Levels, e: Edit) returns (v': Levels)
    requires e.LevelsInRange() && forall l :: 0 <= l < NUM_LEVELS ==> SortedBySmallest(v[l]) && FreshAdds(SetOfFiles(v[l]), [e], l)
    ensures IsEdit(v, e.deletedFiles, (set f | f in e.newFiles), v')
  {
    var builder := new Builder(v);
    builder.Apply(e);
    v' := builder.SaveTo();
    forall l | 0 <= l < NUM_LEVELS
      ensures SortedBySmallest(v'[l])
      ensures forall t :: t in v'[l] <==> (t in v[l] && (l, t.number) !in e.deletedFiles) || (l, t) in e.newFiles
    {
      OneEdit(e, l);
      SavedLevel(v[l], [e], l);
      NewAtMembers(e.newFiles, l);
      forall t ensures t in v'[l] <==> (t in v[l] && (l, t.number) !in e.deletedFiles) || (l, t) in e.newFiles {
        assert t in v'[l] <==> t in SetOfFiles(v'[l]);
        assert EditAll(SetOfFiles(v[l]), [e], l) == EditFiles(SetOfFiles(v[l]), e, l);
        assert t in SetOfFiles(NewAt(e.newFiles, l)) <==> t in NewAt(e.newFiles, l);
        assert t.number in DeletedAt(e, l) <==> (l, t.number) in e.deletedFiles;
      }
    }
  }

  /** An edit turns the file set of a level into the file set of the new level. */
  lemma EditMatches(v: Levels, e: Edit, v': Levels, l: nat)
    requires IsEdit(v, e.deletedFiles, (set f | f in e.newFiles), v') && l < NUM_LEVELS
    ensures SetOfFiles(v'[l]) == EditFiles(SetOfFiles(v[l]), e, l)
  {
    hide SortedBySmallest;
    NewAtMembers(e.newFiles, l);
    forall t ensures t in SetOfFiles(v'[l]) <==> t in EditFiles(SetOfFiles(v[l]), e, l) {
      assert t.number in DeletedAt(e, l) <==> (l, t.number) in e.deletedFiles;
    }
  }
}

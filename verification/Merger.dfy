/** The merging iterator: children over sorted lists, presented as one cursor over the
    sorted union, in both directions. */
module Merger {
  import opened Options
  import opened DbFormat
  import opened CompactionDrop
  import opened Cursors

  // ----- the union -----

  function MergeTwo(a: seq<Entry>, b: seq<Entry>): seq<Entry>
    decreases |a| + |b|
  {
    if a == [] then b
    else if b == [] then a
    else if Less(b[0].key, a[0].key) then [b[0]] + MergeTwo(a, b[1..])
    else [a[0]] + MergeTwo(a[1..], b)
  }

  /** The union of all lists, in key order. */
  function Union(lists: seq<seq<Entry>>): seq<Entry> {
    if lists == [] then [] else MergeTwo(Union(lists[..|lists| - 1]), lists[|lists| - 1])
  }

  ghost predicate NoSharedKeys(lists: seq<seq<Entry>>) {
    forall c, d, x, y :: 0 <= c < d < |lists| && x in lists[c] && y in lists[d] ==> x.key != y.key
  }

  ghost predicate AllSorted(lists: seq<seq<Entry>>) {
    forall c :: 0 <= c < |lists| ==> Sorted(lists[c])
  }

  lemma {:induction false} MergeTwoMembers(a: seq<Entry>, b: seq<Entry>)
    ensures forall e :: e in MergeTwo(a, b) <==> e in a || e in b
    decreases |a| + |b|
  {
    hide Less;
    if a != [] && b != [] {
      if Less(b[0].key, a[0].key) {
        MergeTwoMembers(a, b[1..]);
        assert b == [b[0]] + b[1..];
      } else {
        MergeTwoMembers(a[1..], b);
        assert a == [a[0]] + a[1..];
      }
    }
  }

  lemma FirstIsLeast(x: Entry, rest: seq<Entry>)
    requires Sorted(rest) && forall e :: e in rest ==> Less(x.key, e.key)
    ensures Sorted([x] + rest)
  {
    hide Less;
  }

  lemma SortedTail(a: seq<Entry>)
    requires Sorted(a) && a != []
    ensures Sorted(a[1..]) && forall e :: e in a[1..] ==> Less(a[0].key, e.key)
  {
    hide Less;
  }

  lemma {:induction false} MergeTwoSorted(a: seq<Entry>, b: seq<Entry>)
    requires Sorted(a) && Sorted(b) && forall x, y :: x in a && y in b ==> x.key != y.key
    ensures Sorted(MergeTwo(a, b))
    decreases |a| + |b|
  {
    hide Less, Sorted;
    if a != [] && b != [] {
      SortedTail(a);
      SortedTail(b);
      if Less(b[0].key, a[0].key) {
        MergeTwoSorted(a, b[1..]);
        MergeTwoMembers(a, b[1..]);
        forall e | e in MergeTwo(a, b[1..]) ensures Less(b[0].key, e.key) {
          CompareIsTotalOrder(b[0].key, a[0].key, e.key);
          assert e in a ==> e == a[0] || e in a[1..];
        }
        FirstIsLeast(b[0], MergeTwo(a, b[1..]));
      } else {
        MergeTwoSorted(a[1..], b);
        MergeTwoMembers(a[1..], b);
        NotLessIsGreater(b[0].key, a[0].key);
        assert a[0] in a && b[0] in b;
        forall e | e in MergeTwo(a[1..], b) ensures Less(a[0].key, e.key) {
          CompareIsTotalOrder(a[0].key, b[0].key, e.key);
          assert e in b ==> e == b[0] || e in b[1..];
        }
        FirstIsLeast(a[0], MergeTwo(a[1..], b));
      }
    }
  }

  lemma NotLessIsGreater(a: InternalKey, b: InternalKey)
    ensures !Less(a, b) ==> a == b || Less(b, a)
    ensures Less(a, b) ==> a != b && !Less(b, a)
  {
    CompareIsTotalOrder(a, b, b);
  }

  ghost predicate InSome(lists: seq<seq<Entry>>, e: Entry) {
    exists c :: 0 <= c < |lists| && e in lists[c]
  }

  lemma InSomeOrLast(lists: seq<seq<Entry>>, e: Entry)
    requires lists != []
    ensures InSome(lists, e) <==> InSome(lists[..|lists| - 1], e) || e in lists[|lists| - 1]
  {
    var rest := lists[..|lists| - 1];
    if c :| 0 <= c < |lists| && e in lists[c] {
      assert c < |rest| ==> e in rest[c];
    }
  }

  lemma {:induction false} UnionMembers(lists: seq<seq<Entry>>)
    ensures forall e :: e in Union(lists) <==> InSome(lists, e)
  {
    hide InSome;
    if lists != [] {
      var rest, last := lists[..|lists| - 1], lists[|lists| - 1];
      UnionMembers(rest);
      MergeTwoMembers(Union(rest), last);
      forall e ensures e in Union(lists) <==> InSome(lists, e) {
        InSomeOrLast(lists, e);
      }
    } else {
      NothingInSome();
    }
  }

  lemma NothingInSome()
    ensures forall e :: !InSome([], e)
  {
  }

  /** The lists but the last are sorted, and share no key with it. */
  lemma FirstLists(lists: seq<seq<Entry>>)
    requires AllSorted(lists) && NoSharedKeys(lists) && lists != []
    ensures
      var rest, last := lists[..|lists| - 1], lists[|lists| - 1];
      && AllSorted(rest) && NoSharedKeys(rest) && Sorted(last)
      && forall x, y :: InSome(rest, x) && y in last ==> x.key != y.key
  {
    hide Sorted;
  }

  lemma {:induction false} UnionSortedToo(lists: seq<seq<Entry>>)
    requires AllSorted(lists) && NoSharedKeys(lists)
    ensures Sorted(Union(lists))
  {
    hide Sorted, AllSorted, NoSharedKeys, InSome;
    if lists != [] {
      var rest, last := lists[..|lists| - 1], lists[|lists| - 1];
      FirstLists(lists);
      UnionSortedToo(rest);
      UnionMembers(rest);
      MergeTwoSorted(Union(rest), last);
    } else {
      NothingIsSorted();
    }
  }

  lemma UnionIsMerge(lists: seq<seq<Entry>>)
    requires AllSorted(lists) && NoSharedKeys(lists)
    ensures Sorted(Union(lists))
    ensures forall e :: e in Union(lists) <==> exists c :: 0 <= c < |lists| && e in lists[c]
  {
    hide Sorted, AllSorted, NoSharedKeys, Union;
    UnionSortedToo(lists);
    UnionMembers(lists);
  }

  lemma NothingIsSorted()
    ensures Sorted([])
  {
  }

  // ----- where the children stand -----

  /** The union is sorted and made of the lists. */
  ghost predicate IsUnion(lists: seq<seq<Entry>>, merged: seq<Entry>) {
    && AllSorted(lists) && NoSharedKeys(lists) && Sorted(merged)
    && (forall c, e :: 0 <= c < |lists| && e in lists[c] ==> e in merged)
    && (forall e :: e in merged ==> exists c :: 0 <= c < |lists| && e in lists[c])
  }

  /** How many entries of a list come before place m of the union. */
  function CutOf(es: seq<Entry>, merged: seq<Entry>, m: nat): (cut: nat)
    requires m <= |merged|
    ensures cut <= |es|
  {
    if m == |merged| then |es| else SeekPos(es, merged[m].key)
  }

  lemma PlaceInUnion(lists: seq<seq<Entry>>, merged: seq<Entry>, c: nat, i: nat) returns (m: nat)
    requires IsUnion(lists, merged) && c < |lists| && i < |lists[c]|
    ensures m < |merged| && merged[m] == lists[c][i]
  {
    hide Sorted, Less;
    assert lists[c][i] in lists[c];
    assert lists[c][i] in merged;
    var p :| 0 <= p < |merged| && merged[p] == lists[c][i];
    m := p;
  }

  /** Passing one place of the union moves the cut of the list it comes from by one, and
      that list's entry at the cut is the one passed. */
  lemma CutNext(lists: seq<seq<Entry>>, merged: seq<Entry>, c: nat, m: nat)
    requires IsUnion(lists, merged) && c < |lists| && m < |merged|
    ensures
      var es, cut := lists[c], CutOf(lists[c], merged, m);
      if merged[m] in es then cut < |es| && es[cut] == merged[m] && CutOf(es, merged, m + 1) == cut + 1
      else CutOf(es, merged, m + 1) == cut
  {
    hide Less, IsUnion;
    UnionSorted(lists, merged, c);
    var es, key := lists[c], merged[m].key;
    var cut := SeekPos(es, key);
    if merged[m] in es {
      var i: nat :| i < |es| && es[i] == merged[m];
      forall j | 0 <= j < i ensures Less(es[j].key, key) {
      }
      NotLessIsGreater(key, key);
      SeekPosUnique(es, key, i);
      forall j | i + 1 <= j < |es| ensures !Less(es[j].key, key) && es[j] != merged[m] {
        AfterIsLarger(es, i, j);
      }
      NextCut(lists, merged, c, m, i + 1);
    } else {
      forall j | cut <= j < |es| ensures !Less(es[j].key, key) && es[j] != merged[m] {
        SeekPosAfter(es, key, j);
        assert es[j] in es;
      }
      NextCut(lists, merged, c, m, cut);
    }
  }

  lemma AfterIsLarger(es: seq<Entry>, i: nat, j: nat)
    requires Sorted(es) && i < j < |es|
    ensures !Less(es[j].key, es[i].key) && es[j] != es[i]
  {
    NotLessIsGreater(es[i].key, es[j].key);
  }

  lemma SeekPosAfter(es: seq<Entry>, target: InternalKey, j: nat)
    requires Sorted(es) && SeekPos(es, target) <= j < |es|
    ensures !Less(es[j].key, target)
  {
    var pos := SeekPos(es, target);
    if pos < j {
      assert Less(es[pos].key, es[j].key);
      CompareIsTotalOrder(es[pos].key, es[j].key, target);
    }
  }

  lemma UnionSorted(lists: seq<seq<Entry>>, merged: seq<Entry>, c: nat)
    requires IsUnion(lists, merged) && c < |lists|
    ensures Sorted(lists[c]) && Sorted(merged)
  {
  }

  lemma NextCut(lists: seq<seq<Entry>>, merged: seq<Entry>, c: nat, m: nat, cut: nat)
    requires IsUnion(lists, merged) && c < |lists| && m < |merged| && cut <= |lists[c]|
    requires forall i :: 0 <= i < cut ==> Less(lists[c][i].key, merged[m].key) || lists[c][i] == merged[m]
    requires forall i :: cut <= i < |lists[c]| ==> !Less(lists[c][i].key, merged[m].key) && lists[c][i] != merged[m]
    ensures CutOf(lists[c], merged, m + 1) == cut
  {
    hide Less, IsUnion;
    UnionSorted(lists, merged, c);
    var es := lists[c];
    if m + 1 == |merged| {
      if cut < |es| {
        var p := PlaceInUnion(lists, merged, c, cut);
        BeforeIsLess(merged, p, m);
      }
    } else {
      var next := merged[m + 1].key;
      forall i | 0 <= i < cut ensures Less(es[i].key, next) {
        CompareIsTotalOrder(es[i].key, merged[m].key, next);
      }
      if cut < |es| {
        var p := PlaceInUnion(lists, merged, c, cut);
        BeforeIsLess(merged, p, m);
        AfterIsNotLess(merged, m + 1, p);
      }
      SeekPosUnique(es, next, cut);
    }
  }

  lemma BeforeIsLess(merged: seq<Entry>, p: nat, m: nat)
    requires Sorted(merged) && p < |merged| && m < |merged|
    ensures p <= m ==> Less(merged[p].key, merged[m].key) || merged[p] == merged[m]
  {
  }

  lemma AfterIsNotLess(merged: seq<Entry>, m: nat, p: nat)
    requires Sorted(merged) && m < |merged| && p < |merged|
    ensures m <= p ==> !Less(merged[p].key, merged[m].key)
  {
    if m < p {
      NotLessIsGreater(merged[m].key, merged[p].key);
    } else {
      NotLessIsGreater(merged[m].key, merged[m].key);
    }
  }

  lemma CutAtStart(lists: seq<seq<Entry>>, merged: seq<Entry>, c: nat)
    requires IsUnion(lists, merged) && c < |lists|
    ensures CutOf(lists[c], merged, 0) == 0
  {
    hide Less, IsUnion;
    UnionSorted(lists, merged, c);
    if lists[c] != [] {
      var p := PlaceInUnion(lists, merged, c, 0);
      AfterIsNotLess(merged, 0, p);
      SeekPosUnique(lists[c], merged[0].key, 0);
    }
  }

  /** The list an entry of the union comes from; no other list has its key. */
  lemma Owner(lists: seq<seq<Entry>>, merged: seq<Entry>, m: nat) returns (o: nat)
    requires IsUnion(lists, merged) && m < |merged|
    ensures o < |lists| && merged[m] in lists[o]
    ensures forall c, e :: 0 <= c < |lists| && c != o && e in lists[c] ==> e.key != merged[m].key
  {
    hide Sorted;
    assert merged[m] in merged;
    o :| 0 <= o < |lists| && merged[m] in lists[o];
  }

  // ----- the iterator -----

  datatype Direction = Forward | Reverse

  class MergingIterator {
    const children: seq<ListIterator>
    var current: Option<nat>
    var direction: Direction
    ghost var pos: nat

    ghost function Lists(): (lists: seq<seq<Entry>>)
      ensures |lists| == |children|
      ensures forall c :: 0 <= c < |lists| ==> lists[c] == children[c].entries
    {
      seq(|children|, c requires 0 <= c < |children| => children[c].entries)
    }

    /** The list this iterator is a cursor over. */
    ghost function Merged(): seq<Entry> {
      Union(Lists())
    }

    ghost predicate Children()
      reads children
    {
      && (forall c, d :: 0 <= c < d < |children| ==> children[c] != children[d])
      && (forall c :: 0 <= c < |children| ==> children[c].Ok())
      && IsUnion(Lists(), Merged())
    }

    /** Every child stands at its first entry not before place m. */
    ghost predicate AtOrAfter(m: nat)
      reads children
      requires m <= |Merged()|
    {
      forall c :: 0 <= c < |children| ==> children[c].pos == CutOf(children[c].entries, Merged(), m)
    }

    /** Every child stands at its last entry before place m. */
    ghost predicate Before(m: nat)
      reads children
      requires m <= |Merged()|
    {
      forall c :: 0 <= c < |children| ==>
        children[c].pos == PrevPos(|children[c].entries|, CutOf(children[c].entries, Merged(), m))
    }

    ghost predicate AtCurrent()
      reads this, children
    {
      if current.None? then pos == |Merged()|
      else
        && current.value < |children| && pos < |Merged()|
        && children[current.value].Valid()
        && children[current.value].entries[children[current.value].pos] == Merged()[pos]
    }

    ghost predicate Ok()
      reads this, children
    {
      && Children() && AtCurrent()
      && (current.Some? && direction.Forward? ==> AtOrAfter(pos))
      && (current.Some? && direction.Reverse? ==> Before(pos + 1))
    }

    constructor (children: seq<ListIterator>)
      requires forall c, d :: 0 <= c < d < |children| ==> children[c] != children[d]
      requires forall c :: 0 <= c < |children| ==> children[c].Ok()
      requires forall c, d, x, y :: 0 <= c < d < |children| && x in children[c].entries && y in children[d].entries ==> x.key != y.key
      ensures Ok() && this.children == children && pos == |Merged()|
    {
      this.children := children;
      current, direction := None, Forward;
      pos := |Union(seq(|children|, c requires 0 <= c < |children| => children[c].entries))|;
      new;
      UnionIsMerge(Lists());
      assert NoSharedKeys(Lists()) && AllSorted(Lists());
      assert IsUnion(Lists(), Merged());
    }

    predicate Valid()
      reads this
    {
      current.Some?
    }

    /** The end is where no child is current. */
    lemma ValidBeforeEnd()
      requires Ok()
      ensures Sorted(Merged()) && pos <= |Merged()| && (Valid() <==> pos < |Merged()|)
    {
      hide Union, Sorted, AllSorted, NoSharedKeys;
    }

    function Key(): (k: InternalKey)
      requires Ok() && Valid()
      reads this, children
      ensures pos < |Merged()| && k == Merged()[pos].key
    {
      children[current.value].Key()
    }

    function Value(): (v: Value)
      requires Ok() && Valid()
      reads this, children
      ensures pos < |Merged()| && v == Merged()[pos].value
    {
      children[current.value].Value()
    }

    /** At or after place m: the child it comes from stands on it, all others beyond. */
    lemma OwnerIsSmallest(m: nat) returns (o: nat)
      requires Children() && m <= |Merged()| && AtOrAfter(m)
      ensures m == |Merged()| ==> forall c :: 0 <= c < |children| ==> !children[c].Valid()
      ensures m < |Merged()| ==>
        && o < |children| && children[o].Valid() && children[o].entries[children[o].pos] == Merged()[m]
        && forall c :: 0 <= c < |children| && c != o && children[c].Valid() ==> Less(Merged()[m].key, children[c].Key())
    {
      hide Less, IsUnion;
      o := 0;
      if m < |Merged()| {
        o := Owner(Lists(), Merged(), m);
        CutNext(Lists(), Merged(), o, m);
        forall c | 0 <= c < |children| && c != o && children[c].Valid() ensures Less(Merged()[m].key, children[c].Key()) {
          assert Lists()[c][children[c].pos] in Lists()[c];
          NotLessIsGreater(children[c].Key(), Merged()[m].key);
        }
      }
    }

    lemma EarlierEntry(m: nat, c: nat)
      requires Children() && 0 < m <= |Merged()| && Before(m)
      requires c < |children| && children[c].Valid() && Merged()[m - 1] !in children[c].entries
      ensures Less(children[c].Key(), Merged()[m - 1].key)
    {
      hide Less, IsUnion, Sorted;
      CutNext(Lists(), Merged(), c, m - 1);
    }

    /** Before place m: the child the previous place comes from stands on it, all others
        earlier. */
    lemma OwnerIsLargest(m: nat) returns (o: nat)
      requires Children() && m <= |Merged()| && Before(m)
      ensures m == 0 ==> forall c :: 0 <= c < |children| ==> !children[c].Valid()
      ensures m > 0 ==>
        && o < |children| && children[o].Valid() && children[o].entries[children[o].pos] == Merged()[m - 1]
        && forall c :: 0 <= c < |children| && c != o && children[c].Valid() ==> Less(children[c].Key(), Merged()[m - 1].key)
    {
      hide Less, IsUnion, Sorted;
      o := 0;
      if m == 0 {
        forall c | 0 <= c < |children| ensures !children[c].Valid() {
          CutAtStart(Lists(), Merged(), c);
        }
      } else {
        o := Owner(Lists(), Merged(), m - 1);
        CutNext(Lists(), Merged(), o, m - 1);
        forall c | 0 <= c < |children| && c != o && children[c].Valid() ensures Less(children[c].Key(), Merged()[m - 1].key) {
          assert Merged()[m - 1] !in Lists()[c];
          EarlierEntry(m, c);
        }
      }
    }

    /** Of children that stand at or after place m, the smallest is at place m. */
    method FindSmallest(ghost m: nat)
      requires Children() && m <= |Merged()| && AtOrAfter(m)
      modifies this`current, this`pos
      ensures pos == m && AtCurrent()
    {
      hide Less, IsUnion, AtOrAfter;
      ghost var o := OwnerIsSmallest(m);
      current := None;
      for i := 0 to |children|
        invariant current.None? ==> forall c :: 0 <= c < i ==> !children[c].Valid()
        invariant current.Some? ==> current.value < i && children[current.value].Valid()
        invariant m < |Merged()| && o < i ==> current == Some(o)
      {
        var child := children[i];
        if child.Valid() {
          if current.None? {
            current := Some(i);
          } else if Less(child.Key(), children[current.value].Key()) {
            current := Some(i);
          }
        }
        NotLessBoth();
      }
      pos := m;
    }

    method FindLargest(ghost m: nat)
      requires Children() && m <= |Merged()| && Before(m)
      modifies this`current, this`pos
      ensures pos == PrevPos(|Merged()|, m) && AtCurrent()
    {
      hide Less, IsUnion, Before;
      ghost var o := OwnerIsLargest(m);
      current := None;
      for i := |children| downto 0
        invariant current.None? ==> forall c :: i <= c < |children| ==> !children[c].Valid()
        invariant current.Some? ==> i <= current.value < |children| && children[current.value].Valid()
        invariant m > 0 && i <= o ==> current == Some(o)
      {
        var child := children[i];
        if child.Valid() {
          if current.None? {
            current := Some(i);
          } else if Less(children[current.value].Key(), child.Key()) {
            current := Some(i);
          }
        }
        NotLessBoth();
      }
      pos := PrevPos(|Merged()|, m);
    }

    method SeekToFirst()
      requires Ok()
      modifies this, children
      ensures Ok() && pos == 0
      ensures Valid() <==> pos < |Merged()|
    {
      hide Less, IsUnion, Sorted, CutOf;
      for i := 0 to |children|
        invariant Children()
        invariant forall c :: 0 <= c < i ==> children[c].pos == 0
      {
        children[i].SeekToFirst();
      }
      forall c | 0 <= c < |children| ensures children[c].pos == CutOf(children[c].entries, Merged(), 0) {
        CutAtStart(Lists(), Merged(), c);
      }
      FindSmallest(0);
      direction := Forward;
    }

    method SeekToLast()
      requires Ok()
      modifies this, children
      ensures Ok() && pos == LastPos(|Merged()|)
      ensures Valid() <==> pos < |Merged()|
    {
      hide Less, IsUnion, Sorted, AtOrAfter, Before, CutOf;
      for i := 0 to |children|
        invariant Children()
        invariant forall c :: 0 <= c < i ==> children[c].pos == LastPos(|children[c].entries|)
      {
        children[i].SeekToLast();
      }
      AllBeforeEnd();
      FindLargest(|Merged()|);
      direction := Reverse;
    }

    method Seek(target: InternalKey)
      requires Ok()
      modifies this, children
      ensures Ok() && pos == SeekPos(Merged(), target)
      ensures Valid() <==> pos < |Merged()|
    {
      hide Less, IsUnion, Sorted, AtOrAfter, Before, CutOf, SeekPos;
      for i := 0 to |children|
        invariant Children()
        invariant forall c :: 0 <= c < i ==> children[c].pos == SeekPos(children[c].entries, target)
      {
        children[i].Seek(target);
      }
      AllSought(target);
      FindSmallest(SeekPos(Merged(), target));
      direction := Forward;
    }

    lemma AllBeforeEnd()
      requires Children() && forall c :: 0 <= c < |children| ==> children[c].pos == LastPos(|children[c].entries|)
      ensures Before(|Merged()|)
    {
      hide Less, IsUnion, Sorted;
    }

    lemma AllSought(target: InternalKey)
      requires Children() && forall c :: 0 <= c < |children| ==> children[c].pos == SeekPos(children[c].entries, target)
      ensures AtOrAfter(SeekPos(Merged(), target))
    {
      hide Less, IsUnion, Sorted, CutOf;
      forall c | 0 <= c < |children| ensures children[c].pos == CutOf(children[c].entries, Merged(), SeekPos(Merged(), target)) {
        SeekIsCut(Lists(), Merged(), c, target);
      }
    }

    /** Positions every child but the current one after the current key. */
    method SwitchForward()
      requires Ok() && Valid()
      modifies children
      ensures Children() && AtCurrent() && AtOrAfter(pos)
    {
      hide Less, IsUnion, Sorted, CutOf, AtOrAfter, Before, Compare;
      var cur := current.value;
      CurrentCut();
      var key := Key();
      for i := 0 to |children|
        invariant Children() && AtCurrent() && children[cur].pos == old(children[cur].pos)
        invariant forall c :: 0 <= c < i && c != cur ==> children[c].pos == SeekPos(children[c].entries, key)
      {
        if i != cur {
          var child := children[i];
          child.Seek(key);
          if child.Valid() {
            NoOtherHas(i);
            assert child.entries[child.pos] in child.entries;
            if Compare(key, child.Key()) == 0 {
              CompareIsTotalOrder(key, child.Key(), key);
              assert false;
            }
          }
        }
      }
      AllAtSeek(key);
    }

    /** Positions every child but the current one before the current key. */
    method SwitchReverse()
      requires Ok() && Valid()
      modifies children
      ensures Children() && AtCurrent() && children[current.value].pos == old(children[current.value].pos)
      ensures forall c :: 0 <= c < |children| && c != current.value ==>
        children[c].pos == PrevPos(|children[c].entries|, SeekPos(children[c].entries, Merged()[pos].key))
    {
      hide Less, IsUnion, Sorted, CutOf, AtOrAfter, Before;
      var cur := current.value;
      var key := Key();
      for i := 0 to |children|
        invariant Children() && AtCurrent() && children[cur].pos == old(children[cur].pos)
        invariant forall c :: 0 <= c < i && c != cur ==>
          children[c].pos == PrevPos(|children[c].entries|, SeekPos(children[c].entries, key))
      {
        if i != cur {
          var child := children[i];
          child.Seek(key);
          if child.Valid() {
            child.Prev();
          } else {
            child.SeekToLast();
          }
        }
      }
    }

    method Next()
      requires Ok() && Valid()
      modifies this, children
      ensures Ok() && pos == old(pos) + 1
      ensures Valid() <==> pos < |Merged()|
    {
      hide Less, IsUnion, Sorted, CutOf, AtOrAfter, Before, Union;
      ghost var p := pos;
      if direction != Forward {
        SwitchForward();
        direction := Forward;
      }
      AllCutsNext();
      AtOrAfterCuts(p);
      children[current.value].Next();
      CutsAtOrAfter(p + 1);
      FindSmallest(p + 1);
    }

    lemma AtOrAfterCuts(m: nat)
      requires m <= |Merged()| && AtOrAfter(m)
      ensures forall c :: 0 <= c < |children| ==> children[c].pos == CutOf(children[c].entries, Merged(), m)
    {
    }

    lemma CutsAtOrAfter(m: nat)
      requires m <= |Merged()| && forall c :: 0 <= c < |children| ==> children[c].pos == CutOf(children[c].entries, Merged(), m)
      ensures AtOrAfter(m)
    {
    }

    method Prev()
      requires Ok() && Valid()
      modifies this, children
      ensures Ok() && pos == PrevPos(|Merged()|, old(pos))
      ensures Valid() <==> pos < |Merged()|
    {
      hide Less, IsUnion, Sorted, CutOf, AtOrAfter, Before;
      ghost var p := pos;
      CutIsSeek(p);
      if direction != Reverse {
        CurrentCut();
        SwitchReverse();
        direction := Reverse;
      } else {
        ReverseCuts();
      }
      children[current.value].Prev();
      AllBefore(p);
      FindLargest(p);
      assert direction == Reverse;
      LastBefore(p);
    }

    /** The current child stands at its cut. */
    lemma CurrentCut()
      requires Children() && AtCurrent() && current.Some?
      ensures children[current.value].pos == CutOf(children[current.value].entries, Merged(), pos)
    {
      hide Less, IsUnion;
      var c := current.value;
      CutNext(Lists(), Merged(), c, pos);
      UnionSorted(Lists(), Merged(), c);
      SortedInjective(children[c].entries, children[c].pos, CutOf(children[c].entries, Merged(), pos));
    }

    /** In reverse, standing before the next place is standing before the current one. */
    lemma ReverseCuts()
      requires Children() && AtCurrent() && current.Some? && Before(pos + 1)
      ensures children[current.value].pos == CutOf(children[current.value].entries, Merged(), pos)
      ensures forall c :: 0 <= c < |children| && c != current.value ==>
        children[c].pos == PrevPos(|children[c].entries|, CutOf(children[c].entries, Merged(), pos))
    {
      hide Less, IsUnion, Sorted, CutOf;
      AllCutsNext();
    }

    lemma AllBefore(p: nat)
      requires p <= |Merged()|
      requires forall c :: 0 <= c < |children| ==> children[c].pos == PrevPos(|children[c].entries|, CutOf(children[c].entries, Merged(), p))
      ensures Before(p)
    {
    }

    lemma LastBefore(p: nat)
      requires p <= |Merged()| && Before(p) && AtCurrent() && pos == PrevPos(|Merged()|, p)
      ensures current.Some? ==> Before(pos + 1)
    {
    }

    lemma NoOtherHas(c: nat)
      requires Children() && AtCurrent() && current.Some? && c < |children| && c != current.value
      ensures forall e :: e in children[c].entries ==> e.key != Merged()[pos].key
    {
      hide Less, Sorted;
      assert Merged()[pos] in Lists()[current.value];
    }

    lemma AllAtSeek(key: InternalKey)
      requires Children() && AtCurrent() && current.Some? && key == Merged()[pos].key
      requires children[current.value].pos == CutOf(children[current.value].entries, Merged(), pos)
      requires forall c :: 0 <= c < |children| && c != current.value ==> children[c].pos == SeekPos(children[c].entries, key)
      ensures AtOrAfter(pos)
    {
    }

    lemma CutIsSeek(p: nat)
      requires p < |Merged()|
      ensures forall c :: 0 <= c < |children| ==> CutOf(children[c].entries, Merged(), p) == SeekPos(children[c].entries, Merged()[p].key)
    {
    }

    lemma AllCutsNext()
      requires Children() && AtCurrent() && current.Some?
      ensures forall c :: 0 <= c < |children| ==>
        CutOf(children[c].entries, Merged(), pos + 1) == CutOf(children[c].entries, Merged(), pos) + if c == current.value then 1 else 0
    {
      hide Less, IsUnion, Sorted;
      forall c | 0 <= c < |children|
        ensures CutOf(children[c].entries, Merged(), pos + 1) == CutOf(children[c].entries, Merged(), pos) + if c == current.value then 1 else 0
      {
        CutNext(Lists(), Merged(), c, pos);
        if c != current.value {
          NoOtherHas(c);
        }
      }
    }
  }

  lemma SortedInjective(es: seq<Entry>, i: nat, j: nat)
    requires Sorted(es) && i < |es| && j < |es| && es[i] == es[j]
    ensures i == j
  {
    if i < j {
      AfterIsLarger(es, i, j);
    } else if j < i {
      AfterIsLarger(es, j, i);
    }
  }

  /** Seeking a list is cutting it where the union would be cut. */
  lemma SeekIsCut(lists: seq<seq<Entry>>, merged: seq<Entry>, c: nat, target: InternalKey)
    requires IsUnion(lists, merged) && c < |lists|
    ensures CutOf(lists[c], merged, SeekPos(merged, target)) == SeekPos(lists[c], target)
  {
    hide Less, IsUnion;
    UnionSorted(lists, merged, c);
    var es, m, cut := lists[c], SeekPos(merged, target), SeekPos(lists[c], target);
    if m == |merged| {
      if cut < |es| {
        var p := PlaceInUnion(lists, merged, c, cut);
      }
    } else {
      forall i: nat | i < cut ensures Less(es[i].key, merged[m].key) {
        var p := PlaceInUnion(lists, merged, c, i);
        SeekPosBefore(merged, target, p);
        assert Less(merged[p].key, merged[m].key);
      }
      if cut < |es| {
        var p := PlaceInUnion(lists, merged, c, cut);
        AfterIsNotLess(merged, m, p);
      }
      SeekPosUnique(es, merged[m].key, cut);
    }
  }

  lemma SeekPosBefore(es: seq<Entry>, target: InternalKey, j: nat)
    requires Sorted(es) && j < |es| && Less(es[j].key, target)
    ensures j < SeekPos(es, target)
  {
    if SeekPos(es, target) <= j {
      SeekPosAfter(es, target, j);
    }
  }

  lemma NotLessBoth()
    ensures forall a, b :: Less(a, b) ==> !Less(b, a)
  {
  }
}

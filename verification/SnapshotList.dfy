/** The list of live snapshots: a ring of nodes through a dummy head, relinked in place. */
module SnapshotList {
  class Snapshot {
    const sequence: nat
    var prev: Snapshot?
    var next: Snapshot?

    constructor (sequence: nat)
      ensures this.sequence == sequence && prev == null && next == null
    {
      this.sequence := sequence;
      prev, next := null, null;
    }
  }

  class SnapshotList {
    const head: Snapshot
    ghost var items: seq<Snapshot>

    ghost function Ring(): seq<Snapshot>
      reads this
    {
      [head] + items
    }

    /** Oldest first, and linked both ways around the ring. */
    ghost predicate Valid()
      reads this, Ring()
    {
      && Distinct(Ring()) && Linked(Ring()) && Ascending(items)
    }

    constructor ()
      ensures Valid() && items == [] && fresh(head)
    {
      var h := new Snapshot(0);
      head := h;
      items := [];
      new;
      head.prev := head;
      head.next := head;
    }

    method Empty() returns (empty: bool)
      requires Valid()
      ensures empty <==> items == []
    {
      assert LinkedAt(Ring(), 0) && |Ring()| == 1 + |items|;
      empty := head.next == head;
    }

    method Oldest() returns (s: Snapshot)
      requires Valid() && items != []
      ensures s == items[0] && forall x: Snapshot :: x in items ==> s.sequence <= x.sequence
    {
      assert LinkedAt(Ring(), 0) && |Ring()| == 1 + |items|;
      s := head.next;
    }

    method Newest() returns (s: Snapshot)
      requires Valid() && items != []
      ensures s == items[|items| - 1] && forall x: Snapshot :: x in items ==> x.sequence <= s.sequence
    {
      assert LinkedAt(Ring(), 0) && |Ring()| == 1 + |items|;
      s := head.prev;
    }

    /** Creates a snapshot behind the newest one. */
    method New(sequence: nat) returns (s: Snapshot)
      requires Valid() && (items != [] ==> items[|items| - 1].sequence <= sequence)
      modifies this, Ring()
      ensures Valid() && fresh(s) && s.sequence == sequence && items == old(items) + [s]
    {
      ghost var ring := Ring();
      ghost var n := |ring|;
      assert LinkedAt(ring, 0) && ring[0] == head && ring[n - 1] in ring;
      s := new Snapshot(sequence);
      s.next := head;
      s.prev := head.prev;
      s.prev.next := s;
      s.next.prev := s;
      items := items + [s];
      assert Ring() == ring + [s];
      forall i: nat | i < n + 1 ensures LinkedAt(Ring(), i) {
        assert i < n ==> old(LinkedAt(ring, i));
      }
    }

    method Delete(s: Snapshot)
      requires Valid() && s in items
      modifies this, Ring()
      ensures Valid() && exists i :: 0 <= i < |old(items)| && old(items)[i] == s && items == Without(old(items), i)
    {
      hide Without, Distinct, Ascending, After, Prior;
      ghost var i: nat :| i < |items| && items[i] == s;
      ghost var ring := Ring();
      ghost var n := |ring|;
      assert ring[i + 1] == s && LinkedAt(ring, i + 1) && ring[Prior(n, i + 1)] in ring && ring[After(n, i + 1)] in ring;
      WithoutKeeps(head, items, i);
      s.prev.next := s.next;
      s.next.prev := s.prev;
      items := Without(items, i);
      forall k: nat | k < n - 1 ensures LinkedAt(Ring(), k) {
        assert old(LinkedAt(ring, if k <= i then k else k + 1));
        Unlinked(ring, Ring(), i + 1, k);
      }
    }
  }

  function Without<T>(s: seq<T>, i: nat): (t: seq<T>)
    requires i < |s|
    ensures |t| == |s| - 1
    ensures forall k :: 0 <= k < |t| ==> t[k] == s[if k < i then k else k + 1]
  {
    s[..i] + s[i + 1..]
  }

  lemma WithoutKeeps(head: Snapshot, items: seq<Snapshot>, i: nat)
    requires i < |items| && Distinct([head] + items) && Ascending(items)
    ensures Distinct([head] + Without(items, i)) && Ascending(Without(items, i))
    ensures [head] + Without(items, i) == Without([head] + items, i + 1)
  {
    var ring := [head] + items;
    var ring' := Without(ring, i + 1);
    assert [head] + Without(items, i) == ring';
    forall a, b | 0 <= a < b < |ring'| ensures ring'[a] != ring'[b] {
    }
  }

  /** Neighbours in the shorter ring: those of the longer one, with the gap closed. */
  lemma Unlinked(ring: seq<Snapshot>, ring': seq<Snapshot>, j: nat, k: nat)
    requires 0 < j < |ring| && ring' == Without(ring, j) && k < |ring'| && Distinct(ring)
    ensures
      var was := if k < j then k else k + 1;
      && ring'[k] == ring[was] && ring[was] != ring[j]
      && ring'[After(|ring'|, k)] == (if After(|ring|, was) == j then ring[After(|ring|, j)] else ring[After(|ring|, was)])
      && ring'[Prior(|ring'|, k)] == (if Prior(|ring|, was) == j then ring[Prior(|ring|, j)] else ring[Prior(|ring|, was)])
      && (After(|ring|, was) == j <==> was == Prior(|ring|, j))
      && (Prior(|ring|, was) == j <==> was == After(|ring|, j))
      && (ring[was] == ring[Prior(|ring|, j)] <==> was == Prior(|ring|, j))
      && (ring[was] == ring[After(|ring|, j)] <==> was == After(|ring|, j))
  {
  }

  predicate Distinct(ring: seq<Snapshot>) {
    forall i, j :: 0 <= i < j < |ring| ==> ring[i] != ring[j]
  }

  /** Neighbours around the ring point at each other. */
  predicate Linked(ring: seq<Snapshot>)
    reads ring
  {
    forall i: nat :: i < |ring| ==> LinkedAt(ring, i)
  }

  predicate LinkedAt(ring: seq<Snapshot>, i: nat)
    requires i < |ring|
    reads ring
  {
    ring[i].next == ring[After(|ring|, i)] && ring[i].prev == ring[Prior(|ring|, i)]
  }

  function After(n: nat, i: nat): (j: nat)
    requires i < n
    ensures j < n
  {
    if i + 1 < n then i + 1 else 0
  }

  function Prior(n: nat, i: nat): (j: nat)
    requires i < n
    ensures j < n
  {
    if i > 0 then i - 1 else n - 1
  }

  predicate Ascending(items: seq<Snapshot>) {
    forall i, j :: 0 <= i <= j < |items| ==> items[i].sequence <= items[j].sequence
  }
}

/** The skip list under the memtable: linked nodes of different heights.  The invariant
    holds between any two link writes of an insertion, so a reader in between finds a
    proper skip list of the old or of the new entries. */
module SkipList {
  import opened DbFormat
  import opened CompactionDrop
  import opened Cursors

  const MAX_HEIGHT := 12

  class Node {
    const key: Entry
    var next: seq<Node?>

    constructor (key: Entry, height: nat)
      ensures this.key == key && |next| == height && forall i :: 0 <= i < height ==> next[i] == null
    {
      this.key := key;
      next := seq(height, _ => null);
    }

    method SetNext(n: nat, x: Node?)
      requires n < |next|
      modifies this`next
      ensures next == old(next)[n := x]
    {
      next := next[n := x];
    }
  }

  // ----- which node comes next on a level -----

  /** linked[i] says on how many levels node i is linked.  The next node after i that is
      linked on a level, or the end. */
  function NextIndex(linked: seq<nat>, i: nat, level: nat): (j: nat)
    requires i < |linked|
    ensures i < j <= |linked|
    ensures forall k :: i < k < j ==> linked[k] <= level
    ensures j < |linked| ==> linked[j] > level
    decreases |linked| - i
  {
    if i + 1 == |linked| || linked[i + 1] > level then i + 1 else NextIndex(linked, i + 1, level)
  }

  lemma NextIndexUnique(linked: seq<nat>, i: nat, level: nat, j: nat)
    requires i < j <= |linked| && (forall k :: i < k < j ==> linked[k] <= level) && (j < |linked| ==> linked[j] > level)
    ensures NextIndex(linked, i, level) == j
  {
    hide NextIndex;
    var m := NextIndex(linked, i, level);
  }

  /** A node linked nowhere changes no way: indices after it shift by one. */
  function Shifted(place: nat, j: nat): nat {
    if j < place then j else j + 1
  }

  function WithNode<T>(s: seq<T>, place: nat, x: T): (t: seq<T>)
    requires place <= |s|
    ensures |t| == |s| + 1 && t[place] == x
    ensures forall j :: 0 <= j < place ==> t[j] == s[j]
    ensures forall j :: place < j < |t| ==> t[j] == s[j - 1]
  {
    s[..place] + [x] + s[place..]
  }

  lemma WithNodeUpdate<T>(s: seq<T>, place: nat, x: T, y: T)
    requires place <= |s|
    ensures WithNode(s, place, x)[place := y] == WithNode(s, place, y)
  {
  }

  lemma WithNodeMembers<T>(s: seq<T>, place: nat, x: T)
    requires place <= |s|
    ensures forall y :: y in WithNode(s, place, x) <==> y in s || y == x
  {
    assert s == s[..place] + s[place..];
  }

  lemma ShiftNext(linked: seq<nat>, place: nat, i: nat, level: nat)
    requires 0 < place <= |linked| && i < |linked|
    ensures NextIndex(WithNode(linked, place, 0), Shifted(place, i), level) == Shifted(place, NextIndex(linked, i, level))
  {
    hide NextIndex;
    var after := WithNode(linked, place, 0);
    var j := NextIndex(linked, i, level);
    forall k | Shifted(place, i) < k < Shifted(place, j) ensures after[k] <= level {
      if k != place {
        var m := if k < place then k else k - 1;
        assert after[Shifted(place, m)] == linked[m];
      }
    }
    NextIndexUnique(after, Shifted(place, i), level, Shifted(place, j));
  }

  /** Linking one more node on a level puts it between the node before and the node after. */
  lemma RaiseNext(linked: seq<nat>, place: nat, q: nat, i: nat, level: nat, l: nat)
    requires q < place < |linked| && linked[place] == level && i < |linked|
    requires linked[q] > level && forall k :: q < k < place ==> linked[k] <= level
    requires l < linked[place := level + 1][i]
    ensures NextIndex(linked[place := level + 1], i, l) ==
      if l == level && i == q then place else if l == level && i == place then NextIndex(linked, q, level) else NextIndex(linked, i, l)
  {
    hide NextIndex;
    var after := linked[place := level + 1];
    var j := if l == level && i == q then place else if l == level && i == place then NextIndex(linked, q, level) else NextIndex(linked, i, l);
    NextIndexUnique(after, i, l, j);
  }

  ghost function NodeAt(nodes: seq<Node>, j: nat): Node?
    requires j <= |nodes|
  {
    if j < |nodes| then nodes[j] else null
  }

  ghost function Nexts(nodes: seq<Node>): (links: seq<seq<Node?>>)
    reads nodes
    ensures |links| == |nodes| && forall i :: 0 <= i < |nodes| ==> links[i] == nodes[i].next
  {
    seq(|nodes|, i requires 0 <= i < |nodes| reads nodes => nodes[i].next)
  }

  /** The link of node i on a level leads to the next node linked there. */
  ghost predicate LinkOk(nodes: seq<Node>, linked: seq<nat>, nexts: seq<seq<Node?>>, i: nat, level: nat)
    requires |nodes| == |linked| == |nexts| && i < |nodes|
  {
    level < |nexts[i]| && nexts[i][level] == NodeAt(nodes, NextIndex(linked, i, level))
  }

  ghost predicate LinkedUp(nodes: seq<Node>, linked: seq<nat>, nexts: seq<seq<Node?>>)
    requires |nodes| == |linked| == |nexts|
  {
    forall i: nat, level: nat :: i < |nodes| && level < linked[i] ==> LinkOk(nodes, linked, nexts, i, level)
  }

  /** A node that no link leads to yet can stand anywhere. */
  lemma AddUnlinked(nodes: seq<Node>, linked: seq<nat>, nexts: seq<seq<Node?>>, place: nat, x: Node, next: seq<Node?>)
    requires |nodes| == |linked| == |nexts| && 0 < place <= |nodes| && LinkedUp(nodes, linked, nexts)
    ensures LinkedUp(WithNode(nodes, place, x), WithNode(linked, place, 0), WithNode(nexts, place, next))
  {
    hide NextIndex, WithNode;
    var nodes', linked', nexts' := WithNode(nodes, place, x), WithNode(linked, place, 0), WithNode(nexts, place, next);
    forall i: nat, level: nat | i < |nodes'| && level < linked'[i] ensures LinkOk(nodes', linked', nexts', i, level) {
      if i != place {
        var was := if i < place then i else i - 1;
        assert Shifted(place, was) == i;
        ShiftNext(linked, place, was, level);
        assert LinkOk(nodes, linked, nexts, was, level);
      }
    }
  }

  /** A link on a level the node is not linked on yet can be anything. */
  lemma LinkUnused(nodes: seq<Node>, linked: seq<nat>, nexts: seq<seq<Node?>>, place: nat, next: seq<Node?>)
    requires |nodes| == |linked| == |nexts| && place < |nodes| && LinkedUp(nodes, linked, nexts)
    requires linked[place] <= |next| == |nexts[place]| && next[..linked[place]] == nexts[place][..linked[place]]
    ensures LinkedUp(nodes, linked, nexts[place := next])
  {
    hide NextIndex;
    var nexts' := nexts[place := next];
    forall i: nat, l: nat | i < |nodes| && l < linked[i] ensures LinkOk(nodes, linked, nexts', i, l) {
      assert LinkOk(nodes, linked, nexts, i, l);
      if i == place {
        assert next[l] == next[..linked[place]][l] == nexts[place][..linked[place]][l];
      }
    }
  }

  /** One more level: the node before it on that level now leads to it. */
  lemma LinkOnLevel(nodes: seq<Node>, linked: seq<nat>, nexts: seq<seq<Node?>>, place: nat, q: nat, level: nat)
    requires |nodes| == |linked| == |nexts| && LinkedUp(nodes, linked, nexts)
    requires q < place < |nodes| && linked[place] == level && level < |nexts[place]|
    requires linked[q] > level && forall k :: q < k < place ==> linked[k] <= level
    requires level < |nexts[q]| && nexts[place][level] == nexts[q][level]
    ensures LinkedUp(nodes, linked[place := level + 1], nexts[q := nexts[q][level := nodes[place]]])
  {
    hide NextIndex;
    var linked', nexts' := linked[place := level + 1], nexts[q := nexts[q][level := nodes[place]]];
    forall i: nat, l: nat | i < |nodes| && l < linked'[i] ensures LinkOk(nodes, linked', nexts', i, l) {
      RaiseNext(linked, place, q, i, level, l);
      assert LinkOk(nodes, linked, nexts, if l == level && i == place then q else i, l);
    }
  }

  /** The head on every level, then distinct nodes, each on some of the levels in use. */
  ghost predicate Arranged(nodes: seq<Node>, linked: seq<nat>, maxHeight: nat) {
    && 0 < |nodes| == |linked| && linked[0] == MAX_HEIGHT
    && (forall i, j :: 0 <= i < j < |nodes| ==> nodes[i] != nodes[j])
    && (forall i :: 0 < i < |nodes| ==> 1 <= linked[i] <= maxHeight)
  }

  ghost predicate KeysAscend(nodes: seq<Node>) {
    forall i, j :: 0 < i < j < |nodes| ==> Less(nodes[i].key.key, nodes[j].key.key)
  }

  /** The key belongs between the nodes before the place and those from it on. */
  ghost predicate FitsAt(nodes: seq<Node>, key: InternalKey, place: nat) {
    && 1 <= place <= |nodes|
    && (forall k :: 0 < k < place ==> Less(nodes[k].key.key, key))
    && (forall k :: place <= k < |nodes| ==> Less(key, nodes[k].key.key))
  }

  /** n is the last node before place p that is linked on the level. */
  ghost predicate IsPrev(nodes: seq<Node>, linked: seq<nat>, n: Node, p: nat, level: nat)
    requires |nodes| == |linked|
  {
    exists q: nat :: PrevIndex(nodes, linked, n, q, p, level)
  }

  ghost predicate PrevIndex(nodes: seq<Node>, linked: seq<nat>, n: Node, q: nat, p: nat, level: nat)
    requires |nodes| == |linked|
  {
    && q < p <= |nodes| && nodes[q] == n && linked[q] > level && forall k :: q < k < p ==> linked[k] <= level
  }

  /** The entries of the nodes after the head. */
  ghost function EntriesAfterHead(nodes: seq<Node>): (es: seq<Entry>)
    requires 0 < |nodes|
    ensures |es| == |nodes| - 1 && forall i :: 0 <= i < |es| ==> es[i] == nodes[i + 1].key
  {
    seq(|nodes| - 1, i requires 0 <= i < |nodes| - 1 => nodes[i + 1].key)
  }

  lemma EntriesWithNode(nodes: seq<Node>, place: nat, x: Node)
    requires 0 < place <= |nodes|
    ensures EntriesAfterHead(WithNode(nodes, place, x)) == WithNode(EntriesAfterHead(nodes), place - 1, x.key)
  {
    hide EntriesAfterHead;
  }

  /** A search that has come to node x on a level: x is before the target and linked on that
      level. */
  ghost predicate SearchAt(nodes: seq<Node>, linked: seq<nat>, x: Node, i: nat, level: nat, target: InternalKey) {
    && i < |nodes| == |linked| && nodes[i] == x && level < linked[i]
    && (i == 0 || Less(x.key.key, target))
  }

  /** No link write of an insertion can undo what a search has found. */
  lemma SearchKept(nodes: seq<Node>, linked: seq<nat>, place: nat, x: Node, height: nat, y: Node, i: nat, level: nat, target: InternalKey)
    requires SearchAt(nodes, linked, y, i, level, target) && 0 < place <= |nodes|
    ensures SearchAt(WithNode(nodes, place, x), WithNode(linked, place, height), y, Shifted(place, i), level, target)
    ensures place < |nodes| && linked[place] <= height ==> SearchAt(nodes, linked[place := height], y, i, level, target)
  {
    hide Less, WithNode;
  }

  lemma ArrangedWithNode(nodes: seq<Node>, linked: seq<nat>, maxHeight: nat, place: nat, x: Node)
    requires Arranged(nodes, linked, maxHeight) && 0 < place <= |nodes| && x !in nodes && 1 <= maxHeight
    ensures Arranged(WithNode(nodes, place, x), WithNode(linked, place, 1), maxHeight)
  {
    hide WithNode;
  }

  lemma ArrangedHigher(nodes: seq<Node>, linked: seq<nat>, maxHeight: nat, place: nat, height: nat)
    requires Arranged(nodes, linked, maxHeight) && 0 < place < |nodes| && 1 <= height <= maxHeight
    ensures Arranged(nodes, linked[place := height], maxHeight)
  {
  }

  lemma NodesDiffer(nodes: seq<Node>, linked: seq<nat>, maxHeight: nat, i: nat, j: nat)
    requires Arranged(nodes, linked, maxHeight) && i < |nodes| && j < |nodes| && i != j
    ensures nodes[i] != nodes[j]
  {
  }

  /** The list after x is linked on a level: on the lowest it joins the nodes. */
  ghost function NodesAfter(nodes: seq<Node>, place: nat, level: nat, x: Node): seq<Node>
    requires place <= |nodes|
  {
    if level == 0 then WithNode(nodes, place, x) else nodes
  }

  ghost function LinkedAfter(linked: seq<nat>, place: nat, level: nat): seq<nat>
    requires place <= |linked| && (level > 0 ==> place < |linked|)
  {
    if level == 0 then WithNode(linked, place, 1) else linked[place := level + 1]
  }

  /** Nor does the write that links x on a level. */
  lemma SearchPublished(nodes: seq<Node>, linked: seq<nat>, place: nat, x: Node, level: nat, y: Node, i: nat, l: nat, target: InternalKey)
    requires SearchAt(nodes, linked, y, i, l, target) && 0 < place <= |nodes|
    requires level > 0 ==> place < |nodes| && linked[place] == level
    ensures |NodesAfter(nodes, place, level, x)| >= |nodes|
    ensures SearchAt(NodesAfter(nodes, place, level, x), LinkedAfter(linked, place, level), y,
                     if level == 0 then Shifted(place, i) else i, l, target)
  {
    hide SearchAt, WithNode;
    assert |nodes| == |linked| by { SearchLengths(nodes, linked, y, i, l, target); }
    SearchKept(nodes, linked, place, x, level + 1, y, i, l, target);
  }

  lemma SearchLengths(nodes: seq<Node>, linked: seq<nat>, y: Node, i: nat, l: nat, target: InternalKey)
    requires SearchAt(nodes, linked, y, i, l, target)
    ensures i < |nodes| == |linked|
  {
  }

  /** On the lowest level the entry of x joins the list, on the others nothing changes. */
  lemma PublishedEntries(nodes: seq<Node>, place: nat, level: nat, x: Node)
    requires 0 < place <= |nodes|
    ensures
      var after := NodesAfter(nodes, place, level, x);
      && 0 < |after| && (forall n :: n in after ==> n in nodes || n == x)
      && EntriesAfterHead(after) == if level == 0 then WithNode(EntriesAfterHead(nodes), place - 1, x.key) else EntriesAfterHead(nodes)
  {
    hide WithNode, EntriesAfterHead;
    if level == 0 {
      EntriesWithNode(nodes, place, x);
      WithNodeMembers(nodes, place, x);
    }
  }

  lemma PublishedLinks(nodes: seq<Node>, linked: seq<nat>, nexts: seq<seq<Node?>>, place: nat, q: nat, level: nat, x: Node, next: seq<Node?>)
    requires |nodes| == |linked| == |nexts| && LinkedUp(nodes, linked, nexts)
    requires q < place <= |nodes| && level < |next| && level < |nexts[q]| && next[level] == nexts[q][level]
    requires linked[q] > level && forall k :: q < k < place ==> linked[k] <= level
    requires level > 0 ==> place < |nodes| && linked[place] == level && nodes[place] == x && nexts[place] == next
    ensures
      var after := if level == 0 then WithNode(nexts, place, next) else nexts;
      LinkedUp(NodesAfter(nodes, place, level, x), LinkedAfter(linked, place, level), after[q := after[q][level := x]])
  {
    hide NextIndex, WithNode, LinkedUp;
    if level == 0 {
      WithNodeUpdate<nat>(linked, place, 0, 1);
      AddUnlinked(nodes, linked, nexts, place, x, next);
      LinkOnLevel(WithNode(nodes, place, x), WithNode<nat>(linked, place, 0), WithNode(nexts, place, next), place, q, level);
    } else {
      LinkOnLevel(nodes, linked, nexts, place, q, level);
    }
  }

  lemma PublishedShape(nodes: seq<Node>, linked: seq<nat>, maxHeight: nat, place: nat, level: nat, x: Node)
    requires Arranged(nodes, linked, maxHeight) && KeysAscend(nodes) && 0 < place <= |nodes| && level < maxHeight
    requires if level == 0 then x !in nodes && FitsAt(nodes, x.key.key, place) else place < |nodes|
    ensures Arranged(NodesAfter(nodes, place, level, x), LinkedAfter(linked, place, level), maxHeight)
    ensures KeysAscend(NodesAfter(nodes, place, level, x))
  {
    hide WithNode, Arranged, KeysAscend, FitsAt;
    if level == 0 {
      ArrangedWithNode(nodes, linked, maxHeight, place, x);
      KeysAscendWithNode(nodes, place, x);
    } else {
      ArrangedHigher(nodes, linked, maxHeight, place, level + 1);
    }
  }

  lemma UnlessBeforeAfter(a: InternalKey, b: InternalKey)
    requires !Less(a, b) && a != b
    ensures Less(b, a)
  {
    CompareIsTotalOrder(a, b, a);
  }

  lemma NewKeyFits(nodes: seq<Node>, key: InternalKey)
    requires 0 < |nodes| && KeysAscend(nodes) && forall e :: e in EntriesAfterHead(nodes) ==> e.key != key
    ensures FitsAt(nodes, key, SeekPos(EntriesAfterHead(nodes), key) + 1)
  {
    hide Less, EntriesAfterHead, SeekPos;
    var es := EntriesAfterHead(nodes);
    var p := SeekPos(es, key);
    forall k | 0 < k <= p ensures Less(nodes[k].key.key, key) {
      assert Less(es[k - 1].key, key);
    }
    forall k | p < k < |nodes| ensures Less(key, nodes[k].key.key) {
      assert es[p] in es && es[p] == nodes[p + 1].key;
      UnlessBeforeAfter(nodes[p + 1].key.key, key);
      CompareIsTotalOrder(key, nodes[p + 1].key.key, nodes[k].key.key);
    }
  }

  lemma KeysAscendWithNode(nodes: seq<Node>, place: nat, x: Node)
    requires KeysAscend(nodes) && FitsAt(nodes, x.key.key, place)
    ensures KeysAscend(WithNode(nodes, place, x))
  {
    hide Less, WithNode;
  }

  // ----- a writer's insertions -----

  datatype Job = Job(entry: Entry, height: nat)

  /** Between two insertions, or about to do one of the two writes of a level. */
  datatype Writer = Idle | Linking(x: Node, prev: array<Node>, level: nat, prepared: bool)

  /** No two entries have the same key, neither in the list nor to come. */
  ghost predicate JobsFit(es: seq<Entry>, jobs: seq<Job>) {
    && (forall k :: 0 <= k < |jobs| ==> 1 <= jobs[k].height <= MAX_HEIGHT)
    && (forall k, e :: 0 <= k < |jobs| && e in es ==> e.key != jobs[k].entry.key)
    && (forall k, m :: 0 <= k < m < |jobs| ==> jobs[k].entry.key != jobs[m].entry.key)
  }

  /** The entries after some insertions, each at its place in key order. */
  function Inserted(es: seq<Entry>, jobs: seq<Job>): seq<Entry> {
    if jobs == [] then es
    else
      var before, e := Inserted(es, jobs[..|jobs| - 1]), jobs[|jobs| - 1].entry;
      WithNode(before, SeekPos(before, e.key), e)
  }

  lemma NothingInserted(es: seq<Entry>, jobs: seq<Job>)
    ensures Inserted(es, jobs[..0]) == es
  {
  }

  lemma InsertedNext(es: seq<Entry>, jobs: seq<Job>, k: nat)
    requires k < |jobs|
    ensures
      var before, e := Inserted(es, jobs[..k]), jobs[k].entry;
      Inserted(es, jobs[..k + 1]) == WithNode(before, SeekPos(before, e.key), e)
  {
    assert jobs[..k + 1][..k] == jobs[..k];
  }

  lemma {:induction false} InsertedMembers(es: seq<Entry>, jobs: seq<Job>, k: nat, e: Entry)
    requires k <= |jobs|
    ensures e in Inserted(es, jobs[..k]) <==> e in es || exists m :: 0 <= m < k && jobs[m].entry == e
  {
    hide Inserted, WithNode;
    if k == 0 {
      NothingInserted(es, jobs);
    } else {
      InsertedNext(es, jobs, k - 1);
      InsertedMembers(es, jobs, k - 1, e);
      var before, x := Inserted(es, jobs[..k - 1]), jobs[k - 1].entry;
      WithNodeMembers(before, SeekPos(before, x.key), x);
    }
  }

  /** The next entry has a key the list does not have. */
  lemma NewToList(es: seq<Entry>, jobs: seq<Job>, k: nat)
    requires k < |jobs| && JobsFit(es, jobs)
    ensures 1 <= jobs[k].height <= MAX_HEIGHT && forall e :: e in Inserted(es, jobs[..k]) ==> e.key != jobs[k].entry.key
  {
    hide Inserted;
    forall e | e in Inserted(es, jobs[..k]) ensures e.key != jobs[k].entry.key {
      InsertedMembers(es, jobs, k, e);
    }
  }

  /** How many of the insertions have put their entry into the list. */
  function LinkedJobs(w: Writer, k: nat): (n: nat)
    ensures k <= n <= k + 1 && (w.Idle? ==> n == k)
  {
    if w.Linking? && w.level > 0 then k + 1 else k
  }

  function WrittenOf(w: Writer): nat
    requires w.Linking?
  {
    2 * w.level + if w.prepared then 1 else 0
  }

  class SkipList {
    const head: Node
    var maxHeight: nat
    ghost var nodes: seq<Node>
    ghost var linked: seq<nat>

    /** The nodes in order: the head, then ascending keys; each node's links lead, on every
        level it is linked on, to the next node linked there. */
    ghost predicate Valid()
      reads this, nodes
    {
      && Shape() && KeysAscend(nodes) && Links()
    }

    ghost predicate Shape()
      reads this
    {
      && 0 < |nodes| == |linked| && Arranged(nodes, linked, maxHeight) && nodes[0] == head && 1 <= maxHeight <= MAX_HEIGHT
    }

    ghost predicate Links()
      reads this, nodes
    {
      |nodes| == |linked| && LinkedUp(nodes, linked, Nexts(nodes))
    }

    lemma LinkAt(i: nat, level: nat)
      requires Links() && i < |nodes| && level < linked[i]
      ensures level < |nodes[i].next| && nodes[i].next[level] == NodeAt(nodes, NextIndex(linked, i, level))
    {
      hide NextIndex;
      assert LinkOk(nodes, linked, Nexts(nodes), i, level);
    }

    /** The entries in the list, in key order. */
    ghost function Entries(): seq<Entry>
      reads this
    {
      if nodes == [] then [] else EntriesAfterHead(nodes)
    }

    constructor ()
      ensures Valid() && fresh(head) && nodes == [head] && Entries() == []
    {
      var h := new Node(Entry(InternalKey(0.0, 0, Put), []), MAX_HEIGHT);
      head := h;
      maxHeight := 1;
      nodes := [h];
      linked := [MAX_HEIGHT];
    }

    /** Is the key greater than the node's?  Null is infinitely large. */
    predicate KeyIsAfterNode(key: InternalKey, n: Node?) {
      n != null && Less(n.key.key, key)
    }

    lemma SortedEntries()
      requires Valid()
      ensures Sorted(Entries())
    {
      hide Less;
    }

    lemma PosOfOwnKey(pos: nat)
      requires Valid() && pos < |Entries()|
      ensures SeekPos(Entries(), Entries()[pos].key) == pos
    {
      hide Less;
      SortedEntries();
      var key := Entries()[pos].key;
      CompareIsTotalOrder(key, key, key);
      SeekPosUnique(Entries(), key, pos);
    }

    lemma Basics()
      requires Valid()
      ensures 0 < |nodes| == |linked| && nodes[0] == head && 1 <= maxHeight <= MAX_HEIGHT
    {
    }

    lemma NextOnLevel0(i: nat)
      requires Valid() && i < |nodes|
      ensures 0 < |nodes[i].next| && nodes[i].next[0] == NodeAt(nodes, i + 1)
    {
      hide NextIndex, LinkedUp, KeysAscend;
      LinkAt(i, 0);
      NextIndexUnique(linked, i, 0, i + 1);
    }

    lemma HeadIsFirst(i: nat)
      requires Valid() && i < |nodes|
      ensures nodes[i] == head <==> i == 0
    {
    }

    /** On level 0 the next node is the next entry, so the search ends at the first entry at
        or after the target. */
    lemma FoundAt(x: Node, i: nat, target: InternalKey)
      requires Valid() && SearchAt(nodes, linked, x, i, 0, target)
      ensures 0 < |x.next| && x.next[0] == NodeAt(nodes, i + 1)
      ensures !KeyIsAfterNode(target, x.next[0]) ==> SeekPos(Entries(), target) == i
    {
      hide Less, NextIndex, Links;
      NextOnLevel0(i);
      if !KeyIsAfterNode(target, x.next[0]) {
        forall k | 0 <= k < i ensures Less(Entries()[k].key, target) {
          if k < i - 1 {
            CompareIsTotalOrder(nodes[k + 1].key.key, x.key.key, target);
          }
        }
        SeekPosUnique(Entries(), target, i);
      }
    }

    /** The first node at or after the target.  On every level, prev, if asked for, gets the
        last node before it. */
    method FindGreaterOrEqual(target: InternalKey, prev: array?<Node>) returns (found: Node?)
      requires Valid() && (prev != null ==> prev.Length == MAX_HEIGHT)
      modifies prev
      ensures found == NodeAt(nodes, SeekPos(Entries(), target) + 1)
      ensures prev != null ==> forall level :: 0 <= level < maxHeight ==> IsPrev(nodes, linked, prev[level], SeekPos(Entries(), target) + 1, level)
    {
      hide Less, NextIndex, KeysAscend, Links, IsPrev;
      var x: Node := head;
      var level: nat := maxHeight - 1;
      ghost var i: nat := 0;
      ghost var p := SeekPos(Entries(), target) + 1;
      while true
        invariant level < maxHeight && SearchAt(nodes, linked, x, i, level, target)
        invariant prev != null ==> forall l :: level < l < maxHeight ==> IsPrev(nodes, linked, prev[l], p, l)
        decreases level, |nodes| - i
      {
        LinkAt(i, level);
        var next := x.next[level];
        ghost var j := NextIndex(linked, i, level);
        if KeyIsAfterNode(target, next) {
          x := next;
          i := j;
        } else {
          PrevFound(x, i, level, target);
          if prev != null {
            prev[level] := x;
          }
          if level == 0 {
            FoundAt(x, i, target);
            return next;
          }
          level := level - 1;
        }
      }
    }

    lemma PrevFound(x: Node, i: nat, level: nat, target: InternalKey)
      requires Valid() && SearchAt(nodes, linked, x, i, level, target) && level < |x.next| && !KeyIsAfterNode(target, x.next[level])
      ensures IsPrev(nodes, linked, x, SeekPos(Entries(), target) + 1, level)
    {
      hide Less, NextIndex, Links;
      LinkAt(i, level);
      SortedEntries();
      var p, j := SeekPos(Entries(), target) + 1, NextIndex(linked, i, level);
      if i > 0 {
        SeekPosBeyond(Entries(), target, i - 1);
      }
      if j < |nodes| {
        SeekPosBelow(Entries(), target, j - 1);
      }
      assert PrevIndex(nodes, linked, x, i, p, level);
    }

    /** The last node before the target, or the head. */
    method FindLessThan(target: InternalKey) returns (x: Node)
      requires Valid()
      ensures x == nodes[SeekPos(Entries(), target)]
    {
      hide Less, NextIndex, KeysAscend, Links;
      x := head;
      var level: nat := maxHeight - 1;
      ghost var i: nat := 0;
      while true
        invariant level < maxHeight && SearchAt(nodes, linked, x, i, level, target)
        decreases level, |nodes| - i
      {
        LinkAt(i, level);
        var next := x.next[level];
        ghost var j := NextIndex(linked, i, level);
        if next == null || !Less(next.key.key, target) {
          if level == 0 {
            FoundAt(x, i, target);
            return;
          }
          level := level - 1;
        } else {
          x := next;
          i := j;
        }
      }
    }

    /** The last node, or the head. */
    method FindLast() returns (x: Node)
      requires Valid()
      ensures x == nodes[|nodes| - 1]
    {
      hide Less, NextIndex, KeysAscend, Links;
      x := head;
      var level: nat := maxHeight - 1;
      ghost var i: nat := 0;
      while true
        invariant level < maxHeight && i < |nodes| && nodes[i] == x && level < linked[i]
        decreases level, |nodes| - i
      {
        LinkAt(i, level);
        var next := x.next[level];
        ghost var j := NextIndex(linked, i, level);
        if next == null {
          if level == 0 {
            NextOnLevel0(i);
            return;
          }
          level := level - 1;
        } else {
          x := next;
          i := j;
        }
      }
    }


    // ----- insertion -----

    /** Node x is linked at the place on the levels below, and p is the node it has to be
        linked after on this one. */
    ghost predicate ReadyToLink(x: Node, p: Node, place: nat, level: nat)
      reads this, nodes, x
    {
      && 1 <= place <= |nodes| == |linked| && level < |x.next| && level < maxHeight && IsPrev(nodes, linked, p, place, level)
      && if level == 0 then x !in nodes && FitsAt(nodes, x.key.key, place) else place < |nodes| && nodes[place] == x && linked[place] == level
    }

    /** The write that links x on a level: the list stays a skip list, and what a reader in
        flight has found still holds. */
    method Publish(x: Node, p: Node, level: nat, ghost place: nat)
      requires Valid() && ReadyToLink(x, p, place, level) && level < |p.next| && x.next[level] == p.next[level]
      modifies this`nodes, this`linked, p`next
      ensures Valid()
      ensures nodes == NodesAfter(old(nodes), place, level, x)
      ensures linked == LinkedAfter(old(linked), place, level)
      ensures p.next == old(p.next)[level := x]
    {
      hide Less, NextIndex, WithNode, LinkedUp, Arranged, KeysAscend, FitsAt, Nexts;
      ghost var q: nat :| PrevIndex(nodes, linked, p, q, place, level);
      ghost var links := Nexts(nodes);
      LinkAt(q, level);
      PublishedLinks(nodes, linked, links, place, q, level, x, x.next);
      PublishedShape(nodes, linked, maxHeight, place, level, x);
      p.SetNext(level, x);
      nodes, linked := NodesAfter(nodes, place, level, x), LinkedAfter(linked, place, level);
      ghost var after := if level == 0 then WithNode(links, place, x.next) else links;
      forall i | 0 <= i < |nodes| && i != q ensures nodes[i] != p {
        NodesDiffer(nodes, linked, maxHeight, i, q);
      }
      assert Nexts(nodes) == after[q := after[q][level := x]];
    }

    /** An insertion under way: x is linked on the levels below, and prev names the nodes it
        has to be linked after from this level up. */
    ghost predicate Inserting(x: Node, prev: array<Node>, place: nat, level: nat)
      reads this, nodes, x, prev
    {
      && 1 <= place <= |nodes| == |linked| && level <= |x.next| <= maxHeight <= prev.Length
      && (if level == 0 then x !in nodes && FitsAt(nodes, x.key.key, place) else place < |nodes| && nodes[place] == x && linked[place] == level)
      && forall l :: level <= l < |x.next| ==> IsPrev(nodes, linked, prev[l], place, l)
    }

    /** The first write of an insertion on a level: the new node's own link. */
    method PrepareLevel(x: Node, prev: array<Node>, level: nat, ghost place: nat)
      requires Valid() && Inserting(x, prev, place, level) && level < |x.next| && level < |prev[level].next|
      modifies x
      ensures Valid() && Inserting(x, prev, place, level)
      ensures x.next == old(x.next)[level := prev[level].next[level]]
    {
      hide Less, NextIndex, LinkedUp, KeysAscend, FitsAt, Arranged, Nexts, IsPrev;
      PrevIsLinked(prev[level], place, level);
      ghost var links := Nexts(nodes);
      x.SetNext(level, prev[level].next[level]);
      if level == 0 {
        assert Nexts(nodes) == links;
      } else {
        forall i | 0 <= i < |nodes| && i != place ensures nodes[i] != x {
          NodesDiffer(nodes, linked, maxHeight, i, place);
        }
        assert Nexts(nodes) == links[place := x.next];
        LinkUnused(nodes, linked, links, place, x.next);
      }
    }

    /** A search starts at the head. */
    lemma HeadIsLinked(level: nat, target: InternalKey)
      requires Valid() && level < MAX_HEIGHT
      ensures SearchAt(nodes, linked, head, 0, level, target)
    {
    }

    lemma PrevIsLinked(p: Node, place: nat, level: nat)
      requires Valid() && IsPrev(nodes, linked, p, place, level)
      ensures level < |p.next| && p in nodes
    {
      var q: nat :| PrevIndex(nodes, linked, p, q, place, level);
      LinkAt(q, level);
    }

    /** The second write of an insertion on a level. */
    method LinkLevel(x: Node, prev: array<Node>, level: nat, ghost place: nat)
      requires Valid() && Inserting(x, prev, place, level) && level < |x.next| && level < |prev[level].next| && x.next[level] == prev[level].next[level]
      modifies this`nodes, this`linked, prev[level]
      ensures Valid() && Inserting(x, prev, place, level + 1)
      ensures nodes == NodesAfter(old(nodes), place, level, x)
      ensures linked == LinkedAfter(old(linked), place, level)
      ensures x.next == old(x.next)
    {
      hide Less, NextIndex, LinkedUp, KeysAscend, FitsAt, Arranged;
      assert x != prev[level] by {
        ghost var q: nat :| PrevIndex(nodes, linked, prev[level], q, place, level);
        if level > 0 {
          NodesDiffer(nodes, linked, maxHeight, q, place);
        }
      }
      Publish(x, prev[level], level, place);
      forall l | level + 1 <= l < |x.next| ensures IsPrev(nodes, linked, prev[l], place, l) {
        ghost var q: nat :| old(PrevIndex(nodes, linked, prev[l], q, place, l));
        assert PrevIndex(nodes, linked, prev[l], q, place, l);
      }
    }

    /** Levels above all others so far start at the head. */
    method RaiseHeight(prev: array<Node>, height: nat, ghost place: nat)
      requires Valid() && prev.Length == MAX_HEIGHT && 1 <= height <= MAX_HEIGHT && 1 <= place <= |nodes|
      requires forall l :: 0 <= l < maxHeight ==> IsPrev(nodes, linked, prev[l], place, l)
      modifies this`maxHeight, prev
      ensures Valid() && maxHeight == (if height > old(maxHeight) then height else old(maxHeight)) && maxHeight <= MAX_HEIGHT
      ensures forall l :: 0 <= l < maxHeight ==> IsPrev(nodes, linked, prev[l], place, l)
    {
      hide LinkedUp, KeysAscend;
      if height > maxHeight {
        var i := maxHeight;
        while i < height
          modifies prev
          invariant maxHeight <= i <= height
          invariant forall l :: 0 <= l < i ==> IsPrev(nodes, linked, prev[l], place, l)
        {
          prev[i] := head;
          assert PrevIndex(nodes, linked, head, 0, place, i);
          i := i + 1;
        }
        maxHeight := height;
      }
    }

    lemma PlaceFits(key: InternalKey)
      requires Valid() && forall e :: e in Entries() ==> e.key != key
      ensures FitsAt(nodes, key, SeekPos(Entries(), key) + 1) && SeekPos(Entries(), key) < |nodes| == |linked|
    {
      NewKeyFits(nodes, key);
    }

    /** Find the place for a new entry and make its node, not linked anywhere yet. */
    method BeginInsert(entry: Entry, height: nat) returns (x: Node, prev: array<Node>, ghost place: nat)
      requires Valid() && 1 <= height <= MAX_HEIGHT
      requires forall e :: e in Entries() ==> e.key != entry.key
      modifies this`maxHeight
      ensures Valid() && fresh(x) && fresh(prev) && x.key == entry && |x.next| == height
      ensures Inserting(x, prev, place, 0) && place == SeekPos(Entries(), entry.key) + 1
      ensures maxHeight >= old(maxHeight)
    {
      hide Less, NextIndex, Links, KeysAscend, FitsAt, IsPrev, EntriesAfterHead, Shape, SeekPos;
      PlaceFits(entry.key);
      place := SeekPos(Entries(), entry.key) + 1;
      prev := new Node[MAX_HEIGHT](_ => head);
      var found := FindGreaterOrEqual(entry.key, prev);
      RaiseHeight(prev, height, place);
      x := new Node(entry, height);
    }

    /** Link the node level by level, from the bottom. */
    method LinkAll(x: Node, prev: array<Node>, ghost place: nat)
      requires Valid() && Inserting(x, prev, place, 0) && 0 < |x.next|
      modifies this`nodes, this`linked, nodes, x
      ensures Valid() && nodes == WithNode(old(nodes), place, x)
    {
      hide Less, NextIndex, Valid, FitsAt, IsPrev, WithNode;
      var height, i := |x.next|, 0;
      while i < height
        invariant i <= height && Valid() && Inserting(x, prev, place, i) && |x.next| == height
        invariant nodes == if i == 0 then old(nodes) else WithNode(old(nodes), place, x)
      {
        PrevIsLinked(prev[i], place, i);
        PrepareLevel(x, prev, i, place);
        PrevIsLinked(prev[i], place, i);
        LinkLevel(x, prev, i, place);
        i := i + 1;
      }
    }

    method Insert(entry: Entry, height: nat)
      requires Valid() && 1 <= height <= MAX_HEIGHT
      requires forall e :: e in Entries() ==> e.key != entry.key
      modifies this, nodes
      ensures Valid() && Entries() == WithNode(old(Entries()), SeekPos(old(Entries()), entry.key), entry)
      ensures forall n: Node :: n in nodes ==> n in old(nodes) || fresh(n)
    {
      hide Less, NextIndex, LinkedUp, KeysAscend, Arranged, FitsAt, IsPrev, EntriesAfterHead, WithNode, SeekPos;
      var x, prev, place := BeginInsert(entry, height);
      LinkAll(x, prev, place);
      EntriesWithNode(old(nodes), place, x);
    }

    /** The next write of an insertion is either one of the two of a level. */
    ghost predicate WriterAt(x: Node, prev: array<Node>, place: nat, level: nat, prepared: bool)
      reads this, nodes, x, prev, if level < prev.Length then {prev[level]} else {}
    {
      && Inserting(x, prev, place, level)
      && (prepared ==> level < |x.next| && level < |prev[level].next| && x.next[level] == prev[level].next[level])
    }

    lemma WriterFacts(x: Node, prev: array<Node>, place: nat, level: nat, prepared: bool)
      requires Valid() && WriterAt(x, prev, place, level, prepared) && level < |x.next|
      ensures 1 <= place <= |nodes| == |linked| && |x.next| <= MAX_HEIGHT && level < prev.Length && IsPrev(nodes, linked, prev[level], place, level)
      ensures level > 0 ==> place < |nodes| && linked[place] == level
    {
      hide Less, LinkedUp, KeysAscend, FitsAt, IsPrev;
    }

    method WriterStep(x: Node, prev: array<Node>, level: nat, prepared: bool, ghost place: nat)
      requires Valid() && WriterAt(x, prev, place, level, prepared) && level < |x.next|
      modifies this`nodes, this`linked, x, prev[level]
      ensures Valid() && WriterAt(x, prev, place, if prepared then level + 1 else level, !prepared)
      ensures |x.next| == old(|x.next|)
      ensures nodes == if prepared then NodesAfter(old(nodes), place, level, x) else old(nodes)
      ensures linked == if prepared then LinkedAfter(old(linked), place, level) else old(linked)
    {
      hide Less, NextIndex, LinkedUp, KeysAscend, Arranged, FitsAt, IsPrev, EntriesAfterHead, WithNode, SeekPos;
      PrevIsLinked(prev[level], place, level);
      if prepared {
        LinkLevel(x, prev, level, place);
      } else {
        PrepareLevel(x, prev, level, place);
        PrevIsLinked(prev[level], place, level);
      }
    }

    /** What a search in flight has found. */
    ghost predicate Searching(y: Node, j: nat, level: nat, target: InternalKey)
      reads this
    {
      level < maxHeight && j < |nodes| && SearchAt(nodes, linked, y, j, level, target)
    }

    /** One load of a search. */
    method ReaderStep(target: InternalKey, x: Node, level: nat, ghost i: nat)
      returns (y: Node, next: Node?, lower: nat, done: bool, ghost j: nat)
      requires Valid() && Searching(x, i, level, target)
      ensures done ==> next == NodeAt(nodes, SeekPos(Entries(), target) + 1)
      ensures !done ==> Searching(y, j, lower, target) && lower <= level && (lower == level ==> i < j)
    {
      hide Less, NextIndex, LinkedUp, KeysAscend, Arranged;
      LinkAt(i, level);
      next, y, j, lower, done := x.next[level], x, i, level, false;
      if KeyIsAfterNode(target, next) {
        y := next;
        j := NextIndex(linked, i, level);
      } else if level == 0 {
        FoundAt(x, i, target);
        done := true;
      } else {
        lower := level - 1;
      }
    }

    // ----- a search among insertions -----

    /** The writer is between two insertions or between two writes of insertion k. */
    ghost predicate WriterOk(jobs: seq<Job>, w: Writer, k: nat, place: nat)
      reads this, nodes, if w.Linking? then {w.x, w.prev} else {}
      reads if w.Linking? && w.level < w.prev.Length then {w.prev[w.level]} else {}
    {
      k <= |jobs| && (w.Linking? ==>
        && k < |jobs| && w.x.key == jobs[k].entry && |w.x.next| == jobs[k].height && w.level < |w.x.next|
        && WriterAt(w.x, w.prev, place, w.level, w.prepared)
        && (w.level == 0 ==> place == SeekPos(Entries(), w.x.key.key) + 1))
    }

    /** The writer finds the place of its next entry, raises the height of the list if it has
        to, and makes the node. */
    method StartInsertion(jobs: seq<Job>, k: nat, ghost es: seq<Entry>, ghost y: Node, ghost j: nat, ghost level: nat, ghost target: InternalKey)
      returns (w: Writer, ghost place: nat)
      requires Valid() && k < |jobs| && JobsFit(es, jobs) && Entries() == Inserted(es, jobs[..k])
      modifies this`maxHeight
      ensures Valid() && WriterOk(jobs, w, k, place) && w.Linking? && w.level == 0 && !w.prepared
      ensures fresh(w.x) && fresh(w.prev) && Entries() == old(Entries())
      ensures old(Searching(y, j, level, target)) ==> Searching(y, j, level, target)
    {
      hide Less, NextIndex, Links, KeysAscend, FitsAt, IsPrev, EntriesAfterHead, Shape, SeekPos, Inserted, SearchAt;
      NewToList(es, jobs, k);
      var x, prev;
      x, prev, place := BeginInsert(jobs[k].entry, jobs[k].height);
      w := Linking(x, prev, 0, false);
    }

    /** One of the two writes of a level. */
    method LinkOnce(jobs: seq<Job>, w: Writer, k: nat, ghost place: nat, ghost es: seq<Entry>,
        ghost y: Node, ghost j: nat, ghost level: nat, ghost target: InternalKey)
      returns (w': Writer, ghost j': nat)
      requires Valid() && WriterOk(jobs, w, k, place) && w.Linking? && Entries() == Inserted(es, jobs[..LinkedJobs(w, k)])
      modifies this`nodes, this`linked, nodes, w.x
      ensures Valid()
      ensures if w'.Idle? then Entries() == Inserted(es, jobs[..k + 1])
              else WriterOk(jobs, w', k, place) && w'.x == w.x && Entries() == Inserted(es, jobs[..LinkedJobs(w', k)])
      ensures w'.Linking? ==> WrittenOf(w) < WrittenOf(w') < 2 * MAX_HEIGHT
      ensures old(Searching(y, j, level, target)) ==> Searching(y, j', level, target)
      ensures forall i :: 0 <= i < |nodes| ==> nodes[i] in old(nodes) || nodes[i] == w.x
    {
      hide Less, NextIndex, LinkedUp, KeysAscend, Arranged, FitsAt, IsPrev, EntriesAfterHead, WithNode, SeekPos,
        Inserted, SearchAt, NodesAfter, LinkedAfter, WriterAt, Valid;
      WriterFacts(w.x, w.prev, place, w.level, w.prepared);
      PrevIsLinked(w.prev[w.level], place, w.level);
      j' := if w.prepared && w.level == 0 then Shifted(place, j) else j;
      if SearchAt(nodes, linked, y, j, level, target) {
        SearchPublished(nodes, linked, place, w.x, w.level, y, j, level, target);
      }
      PublishedEntries(nodes, place, w.level, w.x);
      InsertedNext(es, jobs, k);
      WriterStep(w.x, w.prev, w.level, w.prepared, place);
      if !w.prepared {
        w' := w.(prepared := true);
      } else if w.level + 1 < |w.x.next| {
        w' := w.(level := w.level + 1, prepared := false);
      } else {
        w' := Idle;
      }
    }

    lemma NoWriter(jobs: seq<Job>, k: nat, place: nat)
      requires k <= |jobs|
      ensures WriterOk(jobs, Idle, k, place)
    {
    }

    /** One reader searches while one writer inserts entry after entry, either of them going
        on at any time by one load or one write.  The search may begin in the middle of an
        insertion, before or after the list got higher.  It returns what a search of the
        list as it stands when it ends would return, and that list has the entries of the
        first n insertions. */
    method FindWhileInserting(target: InternalKey, jobs: seq<Job>) returns (found: Node?, ghost n: nat)
      requires Valid() && JobsFit(Entries(), jobs)
      modifies this, nodes
      ensures Valid() && n <= |jobs| && Entries() == Inserted(old(Entries()), jobs[..n])
      ensures found == NodeAt(nodes, SeekPos(Entries(), target) + 1)
    {
      hide Less, NextIndex, Valid, FitsAt, IsPrev, Entries, EntriesAfterHead, SeekPos, NodeAt, WriterOk, SearchAt,
        Inserted, JobsFit;
      ghost var es := Entries();
      var w: Writer := Idle;
      var k: nat := 0;
      ghost var place: nat := 0;
      var started := false;
      var y: Node := head;
      var level: nat := 0;
      ghost var j: nat := 0;
      NothingInserted(es, jobs);
      NoWriter(jobs, 0, 0);
      while true
        invariant k <= |jobs| && (w.Linking? ==> k < |jobs| && fresh(w.x) && WrittenOf(w) < 2 * MAX_HEIGHT)
        invariant Valid() && WriterOk(jobs, w, k, place) && Entries() == Inserted(es, jobs[..LinkedJobs(w, k)])
        invariant forall i :: 0 <= i < |nodes| ==> nodes[i] in old(nodes) || fresh(nodes[i])
        invariant started ==> Searching(y, j, level, target)
        decreases |jobs| - k, if w.Linking? then 0 else 1, if w.Linking? then 2 * MAX_HEIGHT - WrittenOf(w) else 0,
          if started then 0 else 1, if started then level else 0, |nodes| - j
      {
        var writer: bool := *;
        if writer && k < |jobs| {
          if w.Idle? {
            w, place := StartInsertion(jobs, k, es, y, j, level, target);
          } else {
            w, j := LinkOnce(jobs, w, k, place, es, y, j, level, target);
            if w.Idle? {
              k := k + 1;
              NoWriter(jobs, k, place);
            }
          }
        } else if !started {
          Basics();
          started, y, level, j := true, head, maxHeight - 1, 0;
          HeadIsLinked(level, target);
        } else {
          var done;
          y, found, level, done, j := ReaderStep(target, y, level, j);
          if done {
            n := LinkedJobs(w, k);
            return;
          }
        }
      }
    }

    lemma KeyInList(key: InternalKey, e: Entry)
      requires Valid() && e in Entries() && e.key == key
      ensures SeekPos(Entries(), key) < |Entries()| && Entries()[SeekPos(Entries(), key)].key == key
    {
      hide Less, SeekPos;
      SortedEntries();
      var i :| 0 <= i < |Entries()| && Entries()[i] == e;
      CompareIsTotalOrder(key, key, key);
      SeekPosUnique(Entries(), key, i);
    }

    method Contains(key: InternalKey) returns (found: bool)
      requires Valid()
      ensures found <==> exists e :: e in Entries() && e.key == key
    {
      hide Less, LinkedUp, Arranged, KeysAscend, EntriesAfterHead, SeekPos;
      var x := FindGreaterOrEqual(key, null);
      found := x != null && x.key.key == key;
      ghost var es, p := Entries(), SeekPos(Entries(), key);
      assert p < |es| ==> es[p] in es && es[p] == nodes[p + 1].key;
      forall e | e in es && e.key == key ensures found {
        KeyInList(key, e);
      }
    }
  }

  /** A cursor over the list by node pointer, without back links. */
  class Iterator {
    const list: SkipList
    var node: Node?

    constructor (list: SkipList)
      ensures this.list == list && node == null
    {
      this.list := list;
      node := null;
    }

    predicate Valid()
      reads this
    {
      node != null
    }

    /** The cursor stands at a position of the list of entries; the end is "not valid". */
    ghost predicate At(pos: nat)
      reads this, list, list.nodes
    {
      list.Valid() && pos <= |list.Entries()| && node == NodeAt(list.nodes, pos + 1)
    }

    method Next(ghost pos: nat)
      requires At(pos) && Valid()
      modifies this
      ensures At(pos + 1)
    {
      hide SkipList.Valid, EntriesAfterHead;
      list.Basics();
      list.NextOnLevel0(pos + 1);
      node := node.next[0];
    }

    method Prev(ghost pos: nat)
      requires At(pos) && Valid()
      modifies this
      ensures At(PrevPos(|list.Entries()|, pos))
    {
      hide Less, SkipList.Valid, EntriesAfterHead, SeekPos;
      list.Basics();
      list.PosOfOwnKey(pos);
      node := list.FindLessThan(node.key.key);
      list.HeadIsFirst(pos);
      if node == list.head {
        node := null;
      }
    }

    method Seek(target: InternalKey)
      requires list.Valid()
      modifies this
      ensures At(SeekPos(list.Entries(), target))
    {
      node := list.FindGreaterOrEqual(target, null);
    }

    method SeekToFirst()
      requires list.Valid()
      modifies this
      ensures At(0)
    {
      hide SkipList.Valid, EntriesAfterHead;
      list.Basics();
      list.NextOnLevel0(0);
      node := list.head.next[0];
    }

    method SeekToLast()
      requires list.Valid()
      modifies this
      ensures At(LastPos(|list.Entries()|))
    {
      hide SkipList.Valid, EntriesAfterHead;
      list.Basics();
      node := list.FindLast();
      list.HeadIsFirst(|list.nodes| - 1);
      if node == list.head {
        node := null;
      }
    }
  }
}

/** A block: key/value entries whose keys are cut where they agree with the key before,
    restart points where they are not, and an array of the restart offsets at the end. */
module BlockFormat {
  import opened Coding

  datatype Entry = Entry(key: Bytes, value: Bytes)

  /** What goes into a block: the entries, how much of each key is shared with the one
      before, and which entries are restart points. */
  datatype Layout = Layout(entries: seq<Entry>, shared: seq<nat>, restarts: seq<nat>)

  ghost predicate SharedOk(l: Layout, i: nat)
    requires i < |l.entries| == |l.shared|
  {
    && l.shared[i] <= |l.entries[i].key|
    && (i == 0 ==> l.shared[i] == 0)
    && (i > 0 ==> l.shared[i] <= |l.entries[i - 1].key| && l.entries[i - 1].key[..l.shared[i]] == l.entries[i].key[..l.shared[i]])
  }

  ghost predicate RestartsOk(l: Layout)
    requires |l.entries| == |l.shared|
  {
    && l.restarts != [] && l.restarts[0] == 0
    && (forall j, k :: 0 <= j < k < |l.restarts| ==> l.restarts[j] < l.restarts[k])
    && (forall j :: 0 < j < |l.restarts| ==> l.restarts[j] < |l.entries| && l.shared[l.restarts[j]] == 0)
  }

  ghost predicate Good(l: Layout) {
    && |l.entries| == |l.shared|
    && (forall i: nat :: i < |l.entries| ==> SharedOk(l, i))
    && RestartsOk(l)
  }

  function EntryBytes(shared: nat, e: Entry): (bs: Bytes)
    requires shared <= |e.key|
    ensures |bs| >= 3
  {
    EncodeVarint(shared) + EncodeVarint(|e.key| - shared) + EncodeVarint(|e.value|) + e.key[shared..] + e.value
  }

  /** The bytes of the first n entries. */
  ghost function Data(l: Layout, n: nat): Bytes
    requires |l.entries| == |l.shared| && n <= |l.entries| && forall i: nat :: i < |l.entries| ==> SharedOk(l, i)
  {
    if n == 0 then []
    else
      assert SharedOk(l, n - 1);
      Data(l, n - 1) + EntryBytes(l.shared[n - 1], l.entries[n - 1])
  }

  /** Where entry n begins. */
  ghost function Offset(l: Layout, n: nat): nat
    requires |l.entries| == |l.shared| && n <= |l.entries| && forall i: nat :: i < |l.entries| ==> SharedOk(l, i)
  {
    |Data(l, n)|
  }

  ghost function RestartOffsets(l: Layout): (os: seq<nat>)
    requires Good(l)
    ensures |os| == |l.restarts|
  {
    seq(|l.restarts|, j requires 0 <= j < |l.restarts| =>
      Offset(l, if l.restarts[j] <= |l.entries| then l.restarts[j] else 0))
  }

  lemma {:induction false} DataPrefix(l: Layout, i: nat, n: nat)
    requires Good(l) && i <= n <= |l.entries|
    ensures Data(l, i) <= Data(l, n)
    decreases n
  {
    if i < n {
      DataPrefix(l, i, n - 1);
    }
  }

  lemma OffsetsGrow(l: Layout, i: nat, j: nat)
    requires Good(l) && i <= j <= |l.entries|
    ensures Offset(l, i) <= Offset(l, j)
    ensures i < j ==> Offset(l, i) + 3 <= Offset(l, j)
  {
    hide Data, EntryBytes;
    DataPrefix(l, i, j);
    if i < j {
      DataPrefix(l, i + 1, j);
      DataNext(l, i);
    }
  }

  lemma DataNext(l: Layout, i: nat)
    requires Good(l) && i < |l.entries|
    ensures l.shared[i] <= |l.entries[i].key|
    ensures Data(l, i + 1) == Data(l, i) + EntryBytes(l.shared[i], l.entries[i])
    ensures Offset(l, i + 1) == Offset(l, i) + |EntryBytes(l.shared[i], l.entries[i])|
  {
    assert SharedOk(l, i);
  }

  /** The finished block. */
  ghost function BlockBytes(l: Layout): Bytes
    requires Good(l) && Offset(l, |l.entries|) < TWO_32 && |l.restarts| < TWO_32
  {
    OffsetsFit(l);
    Data(l, |l.entries|) + Fixed32Array(RestartOffsets(l)) + EncodeFixed32(|l.restarts|)
  }

  lemma OffsetsFit(l: Layout)
    requires Good(l) && Offset(l, |l.entries|) < TWO_32
    ensures AllFit(RestartOffsets(l))
  {
    hide Data;
    forall j | 0 <= j < |l.restarts| ensures RestartOffsets(l)[j] < TWO_32 {
      OffsetsGrow(l, if l.restarts[j] <= |l.entries| then l.restarts[j] else 0, |l.entries|);
    }
  }

  // ----- how large a block can get -----

  /** A block of these entries is no larger than this: three lengths of at most five bytes and
      at most one restart offset for each, and what every block has. */
  function SizeBound(entries: seq<Entry>): nat {
    if entries == [] then 8
    else
      var e := entries[|entries| - 1];
      SizeBound(entries[..|entries| - 1]) + |e.key| + |e.value| + 19
  }

  lemma EntrySize(shared: nat, e: Entry)
    requires shared <= |e.key| < TWO_32 && |e.value| < TWO_32
    ensures |EntryBytes(shared, e)| <= |e.key| + |e.value| + 15
  {
    hide EncodeVarint;
    Varint32Size(shared);
    Varint32Size(|e.key| - shared);
    Varint32Size(|e.value|);
  }

  lemma {:induction false} DataSize(l: Layout, n: nat)
    requires Good(l) && n <= |l.entries| && SizeBound(l.entries[..n]) < TWO_32
    ensures |Data(l, n)| + 4 * n + 8 <= SizeBound(l.entries[..n])
  {
    hide EntryBytes, Data;
    if n > 0 {
      assert l.entries[..n][..n - 1] == l.entries[..n - 1];
      DataSize(l, n - 1);
      DataNext(l, n - 1);
      EntrySize(l.shared[n - 1], l.entries[n - 1]);
    } else {
      NoData(l);
    }
  }

  lemma NoData(l: Layout)
    requires Good(l)
    ensures Data(l, 0) == []
  {
  }

  /** Every restart point but the first is an entry of its own. */
  lemma {:induction false} RestartsAreFar(l: Layout, j: nat)
    requires Good(l) && j < |l.restarts|
    ensures j <= l.restarts[j]
  {
    if j > 0 {
      RestartsAreFar(l, j - 1);
    }
  }

  lemma RestartsAreFew(l: Layout)
    requires Good(l)
    ensures |l.restarts| <= |l.entries| + 1
  {
    RestartsAreFar(l, |l.restarts| - 1);
  }

  /** Data, restart offsets and their number. */
  lemma WithinBound(l: Layout)
    requires Good(l) && SizeBound(l.entries) < TWO_32
    ensures |Data(l, |l.entries|)| + 4 * |l.restarts| + 4 <= SizeBound(l.entries)
  {
    hide Data;
    assert l.entries[..|l.entries|] == l.entries;
    DataSize(l, |l.entries|);
    RestartsAreFew(l);
  }
}

/** What a table file holds: the entries cut into data blocks, a handle for every block, and
    an index entry behind every block. */
module TableModel {
  import opened Options
  import opened Coding
  import opened BlockFormat
  import opened BlockIter
  import opened Comparators
  import opened FilterBlock
  import opened TableFormat

  /** The entries, where each finished data block ends, how it is laid out and where it is. */
  datatype Blocks = Blocks(entries: seq<Entry>, ends: seq<nat>, layouts: seq<Layout>, handles: seq<BlockHandle>)
  {
    function Begin(i: nat): nat
      requires i <= |ends|
    {
      if i == 0 then 0 else ends[i - 1]
    }

    /** The entries of the block under construction. */
    function Rest(): seq<Entry> {
      if Begin(|ends|) <= |entries| then entries[Begin(|ends|)..] else []
    }

    /** The entries of the finished blocks. */
    function Written(): seq<Entry> {
      if Begin(|ends|) <= |entries| then entries[..Begin(|ends|)] else entries
    }

    ghost predicate Cut() {
      && |ends| == |layouts| == |handles|
      && (forall i: nat :: i < |ends| ==> CutAt(i))
    }

    ghost predicate CutAt(i: nat) {
      && i < |ends| && i < |layouts| && Begin(i) < ends[i] <= |entries|
      && layouts[i].entries == entries[Begin(i)..ends[i]]
    }

    ghost predicate Stored(file: Bytes, o: TableOptions) {
      |layouts| == |handles| && forall i :: 0 <= i < |layouts| ==> StoredBlock(file, o, handles[i], layouts[i])
    }

    /** The index key behind a block: between its last entry and the next one. */
    function Separator(cmp: Comparator, i: nat): Bytes
      requires i < |ends| && 0 < ends[i] <= |entries|
    {
      var last := entries[ends[i] - 1].key;
      if ends[i] < |entries| then cmp.separator(last, entries[ends[i]].key) else cmp.successor(last)
    }

    ghost predicate IndexedAt(cmp: Comparator, index: seq<Entry>, i: nat) {
      && i < |index| && i < |ends| && i < |handles| && 0 < ends[i] <= |entries|
      && index[i] == Entry(Separator(cmp, i), EncodeHandle(handles[i]))
    }

    /** The keys of a block went into the filter under the block's offset. */
    ghost predicate Filtered(added: set<(nat, Bytes)>, current: nat) {
      && |ends| == |handles|
      && (forall i: nat, j :: i < |ends| && Begin(i) <= j < ends[i] && 0 <= j < |entries| ==> (handles[i].offset as nat, entries[j].key) in added)
      && (forall j :: Begin(|ends|) <= j < |entries| ==> (current, entries[j].key) in added)
    }
  }

  ghost predicate StoredBlock(file: Bytes, o: TableOptions, h: BlockHandle, l: Layout) {
    exists data :: IsBlock(l, data) && StoredAt(file, o, h, data)
  }

  lemma StillStoredBlock(file: Bytes, more: Bytes, o: TableOptions, h: BlockHandle, l: Layout)
    requires StoredBlock(file, o, h, l)
    ensures StoredBlock(file + more, o, h, l)
  {
    hide IsBlock, StoredAt;
    var data :| IsBlock(l, data) && StoredAt(file, o, h, data);
    StillStored(file, more, o, h, data);
  }

  // ----- building -----

  /** The builder between two calls: the index lags one block behind, until the first key of
      the next block is known. */
  ghost predicate Building(o: TableOptions, b: Blocks, file: Bytes, index: seq<Entry>, data: seq<Entry>, pending: bool, handle: BlockHandle) {
    && b.Cut() && b.Stored(file, o) && Ascending(o.cmp.less, b.entries)
    && data == b.Rest()
    && |index| + (if pending then 1 else 0) == |b.ends|
    && (forall i: nat :: i < |index| ==> b.IndexedAt(o.cmp, index, i) && b.ends[i] < |b.entries|)
    && (pending ==> data == [] && handle == b.handles[|b.handles| - 1])
  }

  lemma BuildingFacts(o: TableOptions, b: Blocks, file: Bytes, index: seq<Entry>, data: seq<Entry>, pending: bool, handle: BlockHandle)
    requires Building(o, b, file, index, data, pending, handle)
    ensures data == b.Rest() && b.Cut() && (pending ==> data == [] && b.entries != []) && (!pending && data == [] ==> b.entries == [])
  {
    if |b.ends| > 0 {
      assert b.CutAt(|b.ends| - 1);
      if !pending {
        assert b.IndexedAt(o.cmp, index, |b.ends| - 1);
      }
    }
  }

  lemma SoundOrder(o: TableOptions)
    requires o.Sound()
    ensures Transitive(o.cmp.less)
  {
  }

  lemma NothingBuilt(o: TableOptions, handle: BlockHandle)
    ensures Building(o, Blocks([], [], [], []), [], [], [], false, handle)
  {
  }

  lemma AddBuilds(o: TableOptions, b: Blocks, file: Bytes, index: seq<Entry>, data: seq<Entry>, pending: bool, handle: BlockHandle, e: Entry)
    requires Building(o, b, file, index, data, pending, handle) && Transitive(o.cmp.less)
    requires b.entries != [] ==> o.cmp.less(b.entries[|b.entries| - 1].key, e.key)
    requires pending ==> b.entries != []
    ensures
      var index' := if pending then index + [Entry(o.cmp.separator(b.entries[|b.entries| - 1].key, e.key), EncodeHandle(handle))] else index;
      Building(o, b.(entries := b.entries + [e]), file, index', data + [e], false, handle)
  {
    hide EncodeHandle, StoredBlock, Transitive, Ascending, Blocks.Cut;
    var b' := b.(entries := b.entries + [e]);
    var index' := if pending then index + [Entry(o.cmp.separator(b.entries[|b.entries| - 1].key, e.key), EncodeHandle(handle))] else index;
    CutGrows(b, e);
    AscendingGrows(o.cmp.less, b.entries, e);
    forall i: nat | i < |index'| ensures b'.IndexedAt(o.cmp, index', i) && b'.ends[i] < |b'.entries| {
      if i < |index| {
        IndexKept(o.cmp, b, index, index', i, e);
      }
    }
    assert b'.Stored(file, o);
    assert data + [e] == b'.Rest();
  }

  lemma IndexKept(cmp: Comparator, b: Blocks, index: seq<Entry>, index': seq<Entry>, i: nat, e: Entry)
    requires b.IndexedAt(cmp, index, i) && index <= index' && b.ends[i] < |b.entries|
    ensures b.(entries := b.entries + [e]).IndexedAt(cmp, index', i)
  {
    hide EncodeHandle;
  }

  lemma AscendingGrows(less: Order, entries: seq<Entry>, e: Entry)
    requires Transitive(less) && Ascending(less, entries) && (entries != [] ==> less(entries[|entries| - 1].key, e.key))
    ensures Ascending(less, entries + [e])
  {
  }

  /** Blocks made earlier stay as they are. */
  lemma CutKept(b: Blocks, b': Blocks, i: nat)
    requires b.CutAt(i) && b.entries <= b'.entries && b.ends <= b'.ends && b.layouts <= b'.layouts
    ensures b'.CutAt(i) && b'.Begin(i) == b.Begin(i)
  {
  }

  lemma CutGrows(b: Blocks, e: Entry)
    requires b.Cut()
    ensures b.(entries := b.entries + [e]).Cut()
    ensures b.Begin(|b.ends|) <= |b.entries| && |b.ends| == |b.handles|
    ensures forall i :: 0 <= i < |b.ends| ==> 0 < b.ends[i] <= |b.entries|
    ensures |b.ends| > 0 ==> b.entries != []
  {
    var b' := b.(entries := b.entries + [e]);
    forall i: nat | i < |b.ends| ensures b'.CutAt(i) && 0 < b.ends[i] <= |b.entries| {
      CutKept(b, b', i);
    }
    assert |b.ends| > 0 ==> b.CutAt(|b.ends| - 1);
  }

  function WithBlock(b: Blocks, l: Layout, h: BlockHandle): Blocks {
    Blocks(b.entries, b.ends + [|b.entries|], b.layouts + [l], b.handles + [h])
  }

  lemma WithBlockEntries(b: Blocks, l: Layout, h: BlockHandle)
    ensures WithBlock(b, l, h).entries == b.entries
  {
  }

  lemma CutExtends(b: Blocks, l: Layout, h: BlockHandle)
    requires b.Cut() && b.Begin(|b.ends|) < |b.entries| && l.entries == b.entries[b.Begin(|b.ends|)..]
    ensures WithBlock(b, l, h).Cut()
  {
    var b' := WithBlock(b, l, h);
    var n := |b.ends|;
    assert b'.Begin(n) == b.Begin(n) && b'.ends[n] == |b.entries| && b'.layouts[n] == l;
    forall i: nat | i < |b'.ends| ensures b'.CutAt(i) {
      if i < n {
        CutKept(b, b', i);
      }
    }
  }

  lemma FlushBuilds(o: TableOptions, b: Blocks, file: Bytes, index: seq<Entry>, data: seq<Entry>, l: Layout, h: BlockHandle, more: Bytes, was: BlockHandle)
    requires Building(o, b, file, index, data, false, was) && data != []
    requires l.entries == data && StoredBlock(file + more, o, h, l)
    ensures
      Building(o, WithBlock(b, l, h), file + more, index, [], true, h)
  {
    hide EncodeHandle, StoredBlock, Ascending, Blocks.Cut;
    var b' := WithBlock(b, l, h);
    CutExtends(b, l, h);
    forall i | 0 <= i < |b'.layouts| ensures StoredBlock(file + more, o, b'.handles[i], b'.layouts[i]) {
      if i < |b.layouts| {
        StillStoredBlock(file, more, o, b.handles[i], b.layouts[i]);
      }
    }
    forall i: nat | i < |index| ensures b'.IndexedAt(o.cmp, index, i) && b'.ends[i] < |b'.entries| {
      assert b.IndexedAt(o.cmp, index, i);
    }
  }

  lemma FlushFilters(b: Blocks, added: set<(nat, Bytes)>, l: Layout, h: BlockHandle, next: nat)
    requires b.Filtered(added, h.offset) && b.Cut()
    ensures WithBlock(b, l, h).Filtered(added, next)
  {
    var b' := WithBlock(b, l, h);
    forall i: nat, j | i < |b'.ends| && b'.Begin(i) <= j < b'.ends[i] && 0 <= j < |b.entries|
      ensures (b'.handles[i].offset as nat, b.entries[j].key) in added
    {
      assert b'.Begin(i) == b.Begin(i);
    }
  }

  lemma AddFilters(b: Blocks, added: set<(nat, Bytes)>, current: nat, e: Entry)
    requires b.Filtered(added, current) && b.Cut()
    ensures b.(entries := b.entries + [e]).Filtered(added + {(current, e.key)}, current)
  {
    var b' := b.(entries := b.entries + [e]);
    forall i: nat, j | i < |b'.ends| && b'.Begin(i) <= j < b'.ends[i] && 0 <= j < |b'.entries|
      ensures (b'.handles[i].offset as nat, b'.entries[j].key) in added
    {
      assert b'.Begin(i) == b.Begin(i);
      assert b.CutAt(i);
    }
  }

  // ----- a finished table -----

  datatype Table = Table(
    blocks: Blocks,
    index: Layout,
    indexHandle: BlockHandle,
    meta: Layout,
    metaHandle: BlockHandle,
    filter: Option<Bytes>,
    filterHandle: BlockHandle)

  /** "filter." and the name of the policy. */
  function FilterKey(name: Bytes): Bytes {
    [102, 105, 108, 116, 101, 114, 46] + name
  }

  ghost predicate AllIndexed(cmp: Comparator, b: Blocks, index: seq<Entry>) {
    && b.Cut() && |index| == |b.ends| && b.Begin(|b.ends|) == |b.entries|
    && forall i: nat :: i < |index| ==> b.IndexedAt(cmp, index, i)
  }

  /** Every key of a block may match at the block's offset. */
  ghost predicate FilterCovers(p: Policy, filter: Bytes, b: Blocks) {
    && |b.ends| == |b.handles|
    && (forall i: nat, j, key ::
      i < |b.ends| && b.Begin(i) <= j < b.ends[i] && 0 <= j < |b.entries| && StandsFor(p, b.entries[j].key, key) ==>
        NewReader(p, filter).KeyMayMatch(b.handles[i].offset, key))
  }

  ghost predicate FilterStored(o: TableOptions, file: Bytes, t: Table) {
    && t.filter.Some? == o.policy.Some?
    && t.meta.entries == (if o.policy.Some? then [Entry(FilterKey(o.policyName), EncodeHandle(t.filterHandle))] else [])
    && (o.policy.Some? ==> StoredAt(file, o, t.filterHandle, t.filter.value) && FilterCovers(o.policy.value, t.filter.value, t.blocks))
  }

  ghost predicate IsTable(o: TableOptions, file: Bytes, t: Table) {
    && AllIndexed(o.cmp, t.blocks, t.index.entries) && t.blocks.Stored(file, o) && Ascending(o.cmp.less, t.blocks.entries)
    && StoredBlock(file, o, t.indexHandle, t.index) && StoredBlock(file, o, t.metaHandle, t.meta)
    && FilterStored(o, file, t)
    && |file| >= FOOTER_SIZE && file[|file| - FOOTER_SIZE..] == EncodeFooter(t.metaHandle, t.indexHandle)
  }

  /** The last index entry, behind all entries, completes the index. */
  lemma FinishIndexes(o: TableOptions, b: Blocks, file: Bytes, index: seq<Entry>, pending: bool, handle: BlockHandle)
    requires Building(o, b, file, index, [], pending, handle)
    ensures pending ==> b.entries != []
    ensures
      var index' := if pending then index + [Entry(o.cmp.successor(b.entries[|b.entries| - 1].key), EncodeHandle(handle))] else index;
      AllIndexed(o.cmp, b, index')
  {
    hide EncodeHandle, StoredBlock, Ascending, Blocks.CutAt, Blocks.Separator;
    BuildingFacts(o, b, file, index, [], pending, handle);
    NothingLeft(b);
    var index' := if pending then index + [Entry(o.cmp.successor(b.entries[|b.entries| - 1].key), EncodeHandle(handle))] else index;
    forall i: nat | i < |index'| ensures b.IndexedAt(o.cmp, index', i) {
      if i < |index| {
        IndexLonger(o.cmp, b, index, index', i);
      } else {
        LastSeparator(o.cmp, b);
      }
    }
  }

  lemma NothingLeft(b: Blocks)
    requires b.Cut() && b.Rest() == []
    ensures b.Begin(|b.ends|) == |b.entries| && |b.ends| == |b.handles|
    ensures |b.ends| > 0 ==> b.entries != [] && b.ends[|b.ends| - 1] == |b.entries|
  {
    if |b.ends| > 0 {
      assert b.CutAt(|b.ends| - 1);
    }
  }

  lemma IndexLonger(cmp: Comparator, b: Blocks, index: seq<Entry>, index': seq<Entry>, i: nat)
    requires b.IndexedAt(cmp, index, i) && index <= index'
    ensures b.IndexedAt(cmp, index', i)
  {
    hide EncodeHandle;
  }

  lemma LastSeparator(cmp: Comparator, b: Blocks)
    requires |b.ends| > 0 && b.entries != [] && b.ends[|b.ends| - 1] == |b.entries|
    ensures b.Separator(cmp, |b.ends| - 1) == cmp.successor(b.entries[|b.entries| - 1].key)
  {
  }

  lemma FilteredIsCovered(p: Policy, filter: Bytes, b: Blocks, added: set<(nat, Bytes)>, current: nat)
    requires Covers(p, filter, added) && b.Filtered(added, current)
    ensures FilterCovers(p, filter, b)
  {
    hide StandsFor, NewReader;
    forall i: nat, j, key | i < |b.ends| && b.Begin(i) <= j < b.ends[i] && 0 <= j < |b.entries| && StandsFor(p, b.entries[j].key, key)
      ensures NewReader(p, filter).KeyMayMatch(b.handles[i].offset, key)
    {
      var a := (b.handles[i].offset as nat, b.entries[j].key);
      assert a in added;
    }
  }

  lemma StillInFile(o: TableOptions, file: Bytes, file': Bytes, b: Blocks)
    requires b.Stored(file, o) && file <= file'
    ensures b.Stored(file', o)
  {
    hide StoredBlock;
    assert file' == file + file'[|file|..];
    forall i | 0 <= i < |b.layouts| ensures StoredBlock(file', o, b.handles[i], b.layouts[i]) {
      StillStoredBlock(file, file'[|file|..], o, b.handles[i], b.layouts[i]);
    }
  }

  /** A block stays where it is when the file grows. */
  lemma BlockStays(o: TableOptions, file: Bytes, file': Bytes, h: BlockHandle, l: Layout)
    requires StoredBlock(file, o, h, l) && file <= file'
    ensures StoredBlock(file', o, h, l)
  {
    assert file' == file + file'[|file|..];
    StillStoredBlock(file, file'[|file|..], o, h, l);
  }

  lemma BytesStay(o: TableOptions, file: Bytes, file': Bytes, h: BlockHandle, contents: Bytes)
    requires StoredAt(file, o, h, contents) && file <= file'
    ensures StoredAt(file', o, h, contents)
  {
    assert file' == file + file'[|file|..];
    StillStored(file, file'[|file|..], o, h, contents);
  }

  lemma BuildingStored(o: TableOptions, b: Blocks, file: Bytes, index: seq<Entry>, data: seq<Entry>, pending: bool, handle: BlockHandle)
    requires Building(o, b, file, index, data, pending, handle)
    ensures b.Stored(file, o) && Ascending(o.cmp.less, b.entries)
  {
  }

  /** Everything written one after the other, and the footer, make a table. */
  lemma TableDone(o: TableOptions, t: Table, data: Bytes, filtered: Bytes, described: Bytes, indexed: Bytes)
    requires t.blocks.Stored(data, o) && Ascending(o.cmp.less, t.blocks.entries) && AllIndexed(o.cmp, t.blocks, t.index.entries)
    requires data <= filtered <= described <= indexed
    requires t.filter.Some? == o.policy.Some?
    requires o.policy.Some? ==> StoredAt(filtered, o, t.filterHandle, t.filter.value) && FilterCovers(o.policy.value, t.filter.value, t.blocks)
    requires StoredBlock(described, o, t.metaHandle, t.meta)
    requires t.meta.entries == if o.policy.Some? then [Entry(FilterKey(o.policyName), EncodeHandle(t.filterHandle))] else []
    requires StoredBlock(indexed, o, t.indexHandle, t.index)
    ensures IsTable(o, indexed + EncodeFooter(t.metaHandle, t.indexHandle), t)
  {
    hide Blocks.Stored, Ascending, AllIndexed, StoredAt, StoredBlock, FilterCovers, EncodeHandle, EncodeFooter;
    var file := indexed + EncodeFooter(t.metaHandle, t.indexHandle);
    assert data <= file && filtered <= file && described <= file && indexed <= file;
    StillInFile(o, data, file, t.blocks);
    if o.policy.Some? {
      BytesStay(o, filtered, file, t.filterHandle, t.filter.value);
    }
    BlockStays(o, described, file, t.metaHandle, t.meta);
    BlockStays(o, indexed, file, t.indexHandle, t.index);
  }
}

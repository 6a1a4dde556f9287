/** How large a table gets, from the sizes of its entries: when nothing in it can outgrow the
    fields that hold sizes and offsets. */
module TableSizes {
  import opened Coding
  import opened BlockFormat
  import opened Comparators
  import opened FilterBlock
  import opened TableFormat
  import opened TableModel

  /** Each entry with what storing it can cost: in a data block with its trailer, and as the
      key of an index entry. */
  function Weight(entries: seq<Entry>): nat {
    if entries == [] then 0
    else
      var e := entries[|entries| - 1];
      Weight(entries[..|entries| - 1]) + |e.key| + |e.value| + 40
  }

  lemma {:induction false} WeightJoins(a: seq<Entry>, b: seq<Entry>)
    ensures Weight(a + b) == Weight(a) + Weight(b)
  {
    if b == [] {
      assert a + b == a;
    } else {
      WeightJoins(a, b[..|b| - 1]);
      assert (a + b)[..|a + b| - 1] == a + b[..|b| - 1];
    }
  }

  lemma WeightSplits(entries: seq<Entry>, n: nat)
    requires n <= |entries|
    ensures Weight(entries) == Weight(entries[..n]) + Weight(entries[n..])
  {
    assert entries == entries[..n] + entries[n..];
    WeightJoins(entries[..n], entries[n..]);
  }

  /** A block, with its trailer when it holds anything. */
  lemma {:induction false} BoundByWeight(entries: seq<Entry>)
    ensures SizeBound(entries) <= Weight(entries) + 8
    ensures entries != [] ==> SizeBound(entries) + BLOCK_TRAILER_SIZE <= Weight(entries)
  {
    if entries != [] {
      BoundByWeight(entries[..|entries| - 1]);
    }
  }

  // ----- the index -----

  /** Separators and successors are never longer than the key they take the place of. */
  ghost predicate ShortKeys(cmp: Comparator) {
    && (forall start, limit :: |cmp.separator(start, limit)| <= |start|)
    && (forall key :: |cmp.successor(key)| <= |key|)
  }

  lemma InternalIsShort(user: Comparator)
    ensures ShortKeys(Internal(user))
  {
    var c := Internal(user);
    forall start, limit ensures |c.separator(start, limit)| <= |start| {
      ShortenedIsShort(user.less, start, user.separator(UserKey(start), UserKey(limit)));
    }
    forall key ensures |c.successor(key)| <= |key| {
      ShortenedIsShort(user.less, key, user.successor(UserKey(key)));
    }
  }

  lemma ShortenedIsShort(less: Order, key: Bytes, tmp: Bytes)
    ensures |Shortened(less, key, tmp)| <= |key|
  {
  }

  lemma SeparatorIsShort(cmp: Comparator, b: Blocks, i: nat)
    requires ShortKeys(cmp) && i < |b.ends| && 0 < b.ends[i] <= |b.entries|
    ensures |b.Separator(cmp, i)| <= |b.entries[b.ends[i] - 1].key|
  {
  }

  /** The weight of a block has room for its index entry. */
  lemma IndexEntryFits(b: Blocks, i: nat, e: Entry)
    requires b.Cut() && i < |b.ends| && 0 < b.ends[i] <= |b.entries|
    requires |e.key| <= |b.entries[b.ends[i] - 1].key| && |e.value| <= MAX_ENCODED_LENGTH
    ensures b.Begin(i) < b.ends[i]
    ensures Weight(b.entries[..b.Begin(i)]) + |e.key| + |e.value| + 19 <= Weight(b.entries[..b.ends[i]])
  {
    hide Weight;
    assert b.CutAt(i);
    var n := b.ends[i];
    assert b.entries[..n][..n - 1] == b.entries[..n - 1];
    LastWeighs(b.entries[..n]);
    WeightSplits(b.entries[..n - 1], b.Begin(i));
    assert b.entries[..n - 1][..b.Begin(i)] == b.entries[..b.Begin(i)];
  }

  lemma LastWeighs(entries: seq<Entry>)
    requires entries != []
    ensures
      var e := entries[|entries| - 1];
      Weight(entries) == Weight(entries[..|entries| - 1]) + |e.key| + |e.value| + 40
  {
  }

  lemma {:induction false} IndexBound(cmp: Comparator, b: Blocks, index: seq<Entry>, n: nat)
    requires ShortKeys(cmp) && b.Cut() && n <= |index| <= |b.ends|
    requires forall i: nat :: i < |index| ==> b.IndexedAt(cmp, index, i)
    ensures b.Begin(n) <= |b.entries| && SizeBound(index[..n]) <= Weight(b.entries[..b.Begin(n)]) + 8
  {
    hide Weight, ShortKeys, EncodeHandle, Blocks.Separator;
    if n > 0 {
      IndexBound(cmp, b, index, n - 1);
      assert b.IndexedAt(cmp, index, n - 1);
      SeparatorIsShort(cmp, b, n - 1);
      HandleRoundTrip(b.handles[n - 1], []);
      IndexEntryFits(b, n - 1, index[n - 1]);
      assert index[..n][..n - 1] == index[..n - 1];
    }
  }

  lemma WholeIndexBound(cmp: Comparator, b: Blocks, index: seq<Entry>)
    requires ShortKeys(cmp) && AllIndexed(cmp, b, index)
    ensures SizeBound(index) <= Weight(b.entries) + 8
  {
    hide Weight, SizeBound, ShortKeys;
    IndexBound(cmp, b, index, |index|);
    assert index[..|index|] == index && b.entries[..|b.entries|] == b.entries;
  }

  // ----- the whole table -----

  /** Filters take so many bytes a key at most, and with that the table stays below 32 bits. */
  ghost predicate LightWith(o: TableOptions, entries: seq<Entry>, perKey: nat) {
    && (o.policy.Some? ==> Cheap(o.policy.value, perKey))
    && 2 * Weight(entries) + perKey * |entries| + |o.policyName| + 100 < TWO_32
  }

  ghost predicate Light(o: TableOptions, entries: seq<Entry>) {
    exists perKey: nat :: LightWith(o, entries, perKey)
  }

  /** Nothing outgrows its field: the table is light, and the index keys are no longer than
      the entries' keys. */
  ghost predicate Fits(o: TableOptions, entries: seq<Entry>) {
    ShortKeys(o.cmp) && Light(o, entries)
  }

  lemma FitsIsLight(o: TableOptions, entries: seq<Entry>)
    requires Fits(o, entries)
    ensures 2 * Weight(entries) + |o.policyName| + 100 < TWO_32 && ShortKeys(o.cmp)
  {
    hide Weight, ShortKeys, Cheap;
    var perKey: nat :| LightWith(o, entries, perKey);
    assert perKey * |entries| >= 0;
  }

  /** A filter block is no larger than its keys and the stretches of the file make it. */
  ghost predicate FilterSizeOk(o: TableOptions, count: nat, fileSize: nat, filterSize: nat) {
    o.policy.Some? ==> forall perKey: nat :: Cheap(o.policy.value, perKey) ==>
      filterSize <= perKey * count + 4 * (fileSize / FILTER_BASE + 1) + 5
  }

  /** The filter block of a table that fits. */
  lemma FilterFits(o: TableOptions, entries: seq<Entry>, fileSize: nat, filterSize: nat)
    requires Fits(o, entries) && o.policy.Some? && fileSize <= Weight(entries)
    requires FilterSizeOk(o, |entries|, fileSize, filterSize)
    ensures filterSize < TWO_32
  {
    hide Weight, ShortKeys, Cheap;
    var perKey: nat :| LightWith(o, entries, perKey);
    assert fileSize / FILTER_BASE <= fileSize / 2048;
  }

  lemma IndexFits(o: TableOptions, b: Blocks, index: seq<Entry>)
    requires Fits(o, b.entries) && AllIndexed(o.cmp, b, index)
    ensures SizeBound(index) < TWO_32
  {
    hide Weight, SizeBound, AllIndexed;
    FitsIsLight(o, b.entries);
    WholeIndexBound(o.cmp, b, index);
  }

  // ----- while the table is being built -----

  /** The data blocks so far take no more room than their entries weigh. */
  ghost predicate SizeOk(b: Blocks, fileSize: nat) {
    Weight(b.entries) < TWO_32 ==> fileSize <= Weight(b.Written())
  }

  lemma NothingSized()
    ensures SizeOk(Blocks([], [], [], []), 0)
  {
  }

  lemma AddSized(b: Blocks, fileSize: nat, e: Entry)
    requires SizeOk(b, fileSize) && b.Cut()
    ensures SizeOk(b.(entries := b.entries + [e]), fileSize)
    ensures Weight(b.entries) <= Weight(b.entries + [e])
  {
    hide Weight;
    var b' := b.(entries := b.entries + [e]);
    WeightJoins(b.entries, [e]);
    WrittenInEntries(b);
    assert b'.Begin(|b'.ends|) == b.Begin(|b.ends|);
    assert b'.Written() == b.Written();
  }

  lemma WrittenInEntries(b: Blocks)
    requires b.Cut()
    ensures b.Begin(|b.ends|) <= |b.entries| && b.entries == b.Written() + b.Rest()
  {
    if |b.ends| > 0 {
      assert b.CutAt(|b.ends| - 1);
    }
  }

  /** The next data block fits, and so does the file. */
  lemma BlockFits(b: Blocks, fileSize: nat)
    requires SizeOk(b, fileSize) && b.Cut() && Weight(b.entries) + 8 < TWO_32
    ensures fileSize < TWO_32 && SizeBound(b.Rest()) < TWO_32
  {
    hide Weight, SizeBound;
    WrittenInEntries(b);
    WeightJoins(b.Written(), b.Rest());
    BoundByWeight(b.Rest());
  }

  lemma FlushSized(b: Blocks, fileSize: nat, l: Layout, h: BlockHandle, more: nat)
    requires SizeOk(b, fileSize) && b.Cut() && b.Rest() != []
    requires SizeBound(b.Rest()) < TWO_32 ==> more <= SizeBound(b.Rest()) + BLOCK_TRAILER_SIZE
    ensures SizeOk(WithBlock(b, l, h), fileSize + more)
  {
    hide Weight, SizeBound;
    WrittenInEntries(b);
    WeightJoins(b.Written(), b.Rest());
    BoundByWeight(b.Rest());
    var b' := WithBlock(b, l, h);
    assert b'.Written() == b.entries;
  }

  /** With nothing waiting, the file holds the data blocks of all entries. */
  lemma AllWritten(o: TableOptions, b: Blocks, fileSize: nat)
    requires SizeOk(b, fileSize) && b.Cut() && b.Rest() == [] && Fits(o, b.entries)
    ensures fileSize <= Weight(b.entries) && fileSize + 54 < TWO_32 && |o.policyName| + 54 < TWO_32
  {
    hide Weight;
    FitsIsLight(o, b.entries);
    WrittenInEntries(b);
    assert b.entries == b.Written();
  }

  lemma MetaSize(meta: seq<Entry>, name: Bytes, handle: Bytes)
    requires |handle| <= MAX_ENCODED_LENGTH && (meta == [] || meta == [Entry(FilterKey(name), handle)])
    ensures SizeBound(meta) <= |name| + 54
  {
    if meta != [] {
      assert meta[..0] == [];
    }
  }

  /** A data block more in the file. */
  lemma BlockFlushed(o: TableOptions, b: Blocks, was: Bytes, index: seq<Entry>, data: seq<Entry>, l: Layout, h: BlockHandle, file: Bytes, before: BlockHandle)
    requires Building(o, b, was, index, data, false, before) && data != [] && SizeOk(b, |was|) && was <= file
    requires l.entries == data && StoredBlock(file, o, h, l)
    requires SizeBound(data) < TWO_32 ==> |file| <= |was| + SizeBound(data) + BLOCK_TRAILER_SIZE
    ensures
      var b' := WithBlock(b, l, h);
      Building(o, b', file, index, [], true, h) && SizeOk(b', |file|) && b'.entries == b.entries && b'.Rest() == []
  {
    hide Building, Blocks.Cut, Blocks.Rest, StoredBlock, SizeOk, SizeBound, WithBlock;
    assert file == was + file[|was|..];
    BuildingFacts(o, b, was, index, data, false, before);
    FlushBuilds(o, b, was, index, data, l, h, file[|was|..], before);
    WithBlockEntries(b, l, h);
    FlushSized(b, |was|, l, h, |file| - |was|);
    BuildingFacts(o, WithBlock(b, l, h), file, index, [], true, h);
  }
}

/** Reading a table file: the footer, the index, the filters, and point lookups. */
module TableReader {
  import opened Options
  import opened Coding
  import opened BlockFormat
  import opened BlockIter
  import opened Comparators
  import opened FilterBlock
  import opened TableFormat
  import opened TableModel
  import opened TableLookup

  datatype OpenResult = Opened(metaindex: BlockHandle, index: Bytes) | Failed(message: string)

  /** The part of Open that can fail. */
  function ReadIndex(o: TableOptions, file: Bytes): OpenResult {
    if |file| < FOOTER_SIZE then Failed("file is too short to be an sstable")
    else
      var footer := DecodeFooter(file[|file| - FOOTER_SIZE..]);
      if footer.BadFooter? then Failed(footer.message)
      else
        var contents := ReadBlock(file, o, footer.index);
        if contents.Corruption? then Failed(contents.message) else Opened(footer.metaindex, contents.data)
  }

  lemma ReadsIndex(o: TableOptions, file: Bytes, t: TableModel.Table)
    requires IsTable(o, file, t)
    ensures ReadIndex(o, file).Opened? && ReadIndex(o, file).metaindex == t.metaHandle && IsBlock(t.index, ReadIndex(o, file).index)
  {
    hide IsBlock, StoredAt, ReadBlock, DecodeFooter, EncodeFooter, AllIndexed, FilterStored, Ascending, Blocks.Stored;
    FooterRoundTrip(t.metaHandle, t.indexHandle);
    var data :| IsBlock(t.index, data) && StoredAt(file, o, t.indexHandle, data);
    ReadStored(file, o, t.indexHandle, data);
  }

  class Table {
    const o: TableOptions
    const file: Bytes
    const indexBlock: Bytes
    var filter: Option<Reader>
    ghost const t: TableModel.Table

    ghost predicate Opened() {
      o.Sound() && IsTable(o, file, t) && IsBlock(t.index, indexBlock)
    }

    ghost predicate Valid()
      reads this
    {
      && Opened()
      && filter.Some? == o.policy.Some? == t.filter.Some?
      && (filter.Some? ==> filter.value == NewReader(o.policy.value, t.filter.value))
    }

    constructor (o: TableOptions, file: Bytes, ghost t: TableModel.Table)
      requires o.Sound() && IsTable(o, file, t)
      ensures Valid() && this.o == o && this.file == file && this.t == t
    {
      hide IsBlock, IsTable, ReadIndex, TableOptions.Sound;
      ReadsIndex(o, file, t);
      var read := ReadIndex(o, file);
      this.o, this.file, this.t := o, file, t;
      indexBlock := read.index;
      filter := None;
      new;
      ReadMeta(read.metaindex);
    }

    /** Finds the filters through the meta index, if there is a policy to use them with. */
    method ReadMeta(metaindexHandle: BlockHandle)
      requires Opened() && filter.None? && metaindexHandle == t.metaHandle
      modifies this`filter
      ensures Valid()
    {
      hide IsBlock, StoredAt, ReadBlock, BytewiseLess, AllIndexed, Blocks.Stored, EncodeHandle, EncodeFooter,
        FilterCovers, NewReader;
      if o.policy.None? {
        return;
      }
      ghost var meta: Bytes :| IsBlock(t.meta, meta) && StoredAt(file, o, t.metaHandle, meta);
      ReadStored(file, o, metaindexHandle, meta);
      var contents := ReadBlock(file, o, metaindexHandle);
      if contents.Corruption? {
        // the meta index is optional, but a builder's can be read
        assert false;
      }
      var iter := new Iter(BYTEWISE.less, contents.data, t.meta);
      var key := FilterKey(o.policyName);
      BytewiseIsHonest();
      iter.Seek(key);
      BytewiseIsOrder(key, key, key);
      iter.Shows();
      if iter.Valid() && iter.key == key {
        var value := iter.Value();
        ReadFilter(value);
      }
    }

    method ReadFilter(filterHandleValue: Bytes)
      requires Opened() && o.policy.Some? && filterHandleValue == EncodeHandle(t.filterHandle)
      modifies this`filter
      ensures Valid()
    {
      hide IsBlock, StoredAt, ReadBlock, AllIndexed, Ascending, Blocks.Stored, EncodeHandle, DecodeHandle,
        EncodeFooter, FilterCovers, NewReader;
      HandleRoundTrip(t.filterHandle, []);
      assert filterHandleValue + [] == filterHandleValue;
      var handle := DecodeHandle(filterHandleValue);
      if handle.None? {
        assert false;
      }
      ReadStored(file, o, t.filterHandle, t.filter.value);
      var block := ReadBlock(file, o, handle.value.0);
      if block.Corruption? {
        assert false;
      }
      filter := Some(NewReader(o.policy.value, block.data));
    }

    /** An iterator over the data block an index value names. */
    method BlockReader(indexValue: Bytes, ghost i: nat) returns (iter: Iter)
      requires Opened() && t.blocks.IndexedAt(o.cmp, t.index.entries, i) && indexValue == t.index.entries[i].value
      ensures fresh(iter) && iter.Ok() && iter.less == o.cmp.less && i < |t.blocks.layouts| && iter.l == t.blocks.layouts[i]
    {
      hide IsBlock, StoredAt, ReadBlock, Ascending, EncodeHandle, DecodeHandle, EncodeFooter, FilterStored,
        Blocks.Separator;
      var h := t.blocks.handles[i];
      HandleRoundTrip(h, []);
      assert indexValue + [] == indexValue;
      var handle := DecodeHandle(indexValue);
      if handle.None? {
        assert false;
      }
      ghost var data: Bytes :| IsBlock(t.blocks.layouts[i], data) && StoredAt(file, o, h, data);
      ReadStored(file, o, h, data);
      var contents := ReadBlock(file, o, handle.value.0);
      if contents.Corruption? {
        assert false;
      }
      iter := new Iter(o.cmp.less, contents.data, t.blocks.layouts[i]);
    }

    /** One index seek, one look at the filter, one block: finds the first entry at or after
        the key whenever that entry is of the same user key, and never another entry. */
    method InternalGet(k: Bytes, ghost user: Comparator, ghost userPolicy: Option<Policy>) returns (found: Option<Entry>)
      requires Valid() && Honest(user) && o.cmp == Internal(user)
      requires o.policy == (if userPolicy.Some? then Some(InternalPolicy(userPolicy.value)) else None)
      requires userPolicy.Some? ==> HonestPolicy(userPolicy.value)
      ensures forall p: nat :: IsSeekPos(o.cmp.less, t.blocks.entries, k, p) ==> Answers(found, t.blocks.entries, k, p)
    {
      hide IsBlock, StoredAt, ReadBlock, EncodeHandle, DecodeHandle, EncodeFooter, Blocks.Separator, Blocks.Cut,
        Usable, Internal, IsSeekPos, FilterSays, Answers, InternalPolicy, IsTable, Honest, HonestPolicy, Ascending,
        Transitive;
      found := None;
      InternalUsable(user);
      TableFacts(o, file, t);
      IndexAscends(o.cmp, t.blocks, t.index.entries);
      var iiter := new Iter(o.cmp.less, indexBlock, t.index);
      iiter.Seek(k);
      iiter.Shows();
      SeekPosInRange(o.cmp.less, t.index.entries, k, iiter.pos);
      ghost var i, q, says := iiter.pos, 0, false;
      if iiter.Valid() {
        var handleValue := iiter.Value();
        IndexEntryOk(o, t, i);
        if FilterSays(filter, handleValue, k) {
          var blockIter := BlockReader(handleValue, i);
          BlockAscends(o.cmp.less, t.blocks, i);
          blockIter.Seek(k);
          blockIter.Shows();
          q, says := blockIter.pos, true;
          if blockIter.Valid() {
            var key := blockIter.Key();
            var value := blockIter.Value();
            found := Some(Entry(key, value));
          }
        } else {
          FilterRefuses(o, file, t, userPolicy, i, k);
        }
      }
      forall p: nat | IsSeekPos(o.cmp.less, t.blocks.entries, k, p) ensures Answers(found, t.blocks.entries, k, p) {
        SeekPosInRange(o.cmp.less, t.blocks.entries, k, p);
        LookupAnswers(user, t.blocks, t.index.entries, k, i, p, says, q);
      }
    }
  }

  function FilterSays(filter: Option<Reader>, handleValue: Bytes, k: Bytes): bool
    requires filter.Some? ==> filter.value.Ok()
  {
    var handle := DecodeHandle(handleValue);
    filter.None? || handle.None? || filter.value.KeyMayMatch(handle.value.0.offset, k)
  }

  lemma TableFacts(o: TableOptions, file: Bytes, t: TableModel.Table)
    requires o.Sound() && IsTable(o, file, t)
    ensures Ascending(o.cmp.less, t.blocks.entries) && AllIndexed(o.cmp, t.blocks, t.index.entries) && Transitive(o.cmp.less)
    ensures FilterStored(o, file, t)
  {
  }

  lemma IndexEntryOk(o: TableOptions, t: TableModel.Table, i: nat)
    requires AllIndexed(o.cmp, t.blocks, t.index.entries) && i < |t.index.entries|
    ensures t.blocks.IndexedAt(o.cmp, t.index.entries, i) && t.blocks.CutAt(i)
  {
  }

  lemma BlockAscends(less: Order, b: Blocks, i: nat)
    requires Ascending(less, b.entries) && b.CutAt(i)
    ensures Ascending(less, b.layouts[i].entries)
  {
  }

  /** When the filter does not match, the block has no entry of the user key. */
  lemma FilterRefuses(o: TableOptions, file: Bytes, t: TableModel.Table, userPolicy: Option<Policy>, i: nat, k: Bytes)
    requires FilterStored(o, file, t) && t.blocks.IndexedAt(o.cmp, t.index.entries, i) && t.blocks.CutAt(i)
    requires o.policy == if userPolicy.Some? then Some(InternalPolicy(userPolicy.value)) else None
    requires userPolicy.Some? ==> HonestPolicy(userPolicy.value)
    requires !FilterSays(if o.policy.Some? then Some(NewReader(o.policy.value, t.filter.value)) else None, t.index.entries[i].value, k)
    ensures forall p :: t.blocks.Begin(i) <= p < t.blocks.ends[i] ==> UserKey(t.blocks.entries[p].key) != UserKey(k)
  {
    hide Blocks.Separator, EncodeHandle, DecodeHandle, InternalPolicy, NewReader, StoredAt, HonestPolicy,
      FilterCovers, UserKey;
    var h := t.blocks.handles[i];
    HandleRoundTrip(h, []);
    assert EncodeHandle(h) + [] == EncodeHandle(h);
    forall p: nat | t.blocks.Begin(i) <= p < t.blocks.ends[i] ensures UserKey(t.blocks.entries[p].key) != UserKey(k) {
      if UserKey(t.blocks.entries[p].key) == UserKey(k) {
        FilterMatches(userPolicy.value, t.filter.value, t.blocks, k, i, p);
        assert false;
      }
    }
  }

  lemma SeekPosInRange(less: Order, entries: seq<Entry>, k: Bytes, p: nat)
    requires IsSeekPos(less, entries, k, p)
    ensures p <= |entries|
  {
  }
}

/** Building a table file: data blocks as they fill up, an index entry for each once the next
    key is known, then the filters, the meta index, the index and the footer. */
module TableBuilder {
  import opened Options
  import opened Coding
  import opened BlockFormat
  import opened BlockIter
  import opened Comparators
  import opened FilterBlock
  import opened TableFormat
  import opened TableModel
  import opened TableSizes
  import BlockBuilder

  class TableBuilder {
    const o: TableOptions
    const dataBlock: BlockBuilder.Builder
    const indexBlock: BlockBuilder.Builder
    const filterBlock: FilterBlockBuilder?
    var file: Bytes
    var offset: nat
    /** The status.  The model also gives up when a block outgrows its 32-bit offsets. */
    var ok: bool
    var lastKey: Bytes
    var numEntries: nat
    var closed: bool
    var pendingIndexEntry: bool
    var pendingHandle: BlockHandle
    ghost var blocks: Blocks

    ghost function Repr(): set<object> {
      {this, dataBlock, indexBlock} + if filterBlock == null then {} else {filterBlock}
    }

    ghost predicate Parts()
      reads Repr()
    {
      && o.Sound()
      && (this as object) != dataBlock && (this as object) != indexBlock && dataBlock != indexBlock
      && dataBlock.Valid() && indexBlock.Valid()
      && (filterBlock == null <==> o.policy.None?)
      && (filterBlock != null ==>
        && (filterBlock as object) != this && (filterBlock as object) != dataBlock && (filterBlock as object) != indexBlock
        && filterBlock.Valid() && filterBlock.policy == o.policy.value)
    }

    ghost predicate Consistent()
      reads Repr()
    {
      && offset == |file| && numEntries == |blocks.entries|
      && !dataBlock.finished && !indexBlock.finished
      && Building(o, blocks, file, indexBlock.layout.entries, dataBlock.layout.entries, pendingIndexEntry, pendingHandle)
      && (numEntries > 0 ==> lastKey == blocks.entries[numEntries - 1].key)
      && (filterBlock != null ==> filterBlock.blockOffset == offset && blocks.Filtered(filterBlock.added, offset))
    }

    /** The file is no larger than its entries make it, and every key is in the filter. */
    ghost predicate Sized()
      reads Repr()
    {
      SizeOk(blocks, |file|) && (filterBlock != null ==> filterBlock.Count() == |blocks.entries|)
    }

    /** Some size has outgrown what its field in the file can hold. */
    ghost predicate Overgrown()
      reads Repr()
    {
      || |file| >= TWO_64 || dataBlock.CurrentSizeEstimate() >= TWO_32 || indexBlock.CurrentSizeEstimate() >= TWO_32
      || (filterBlock != null && |filterBlock.result| >= TWO_32) || |o.policyName| + 54 >= TWO_32
    }

    ghost predicate Valid()
      reads Repr()
    {
      Parts() && (!ok ==> Overgrown()) && (ok && !closed ==> Consistent() && Sized())
    }

    constructor (o: TableOptions)
      requires o.Sound()
      ensures Valid() && ok && !closed && this.o == o && blocks.entries == [] && fresh(Repr())
    {
      hide BlockBuilder.Builder.Valid, FilterBlockBuilder.Valid, Building, SizeOk, FilterBlockBuilder.Count,
        BlockBuilder.Builder.CurrentSizeEstimate;
      this.o := o;
      var d := new BlockBuilder.Builder(o.restartInterval);
      var i := new BlockBuilder.Builder(1);
      dataBlock, indexBlock := d, i;
      if o.policy.Some? {
        var f := new FilterBlockBuilder(o.policy.value);
        f.StartBlock(0);
        filterBlock := f;
      } else {
        filterBlock := null;
      }
      file, offset, ok, lastKey, numEntries, closed, pendingIndexEntry := [], 0, true, [], 0, false, false;
      pendingHandle := BlockHandle(0, 0);
      blocks := Blocks([], [], [], []);
      NothingBuilt(o, BlockHandle(0, 0));
      NothingSized();
    }

    /** Appends a block as it is stored, and its trailer. */
    method WriteRawBlock(stored: Bytes, kind: byte) returns (handle: BlockHandle)
      requires ok && offset == |file| && |stored| < TWO_32
      modifies this`file, this`offset, this`ok
      ensures offset >= old(offset) && (!ok ==> file == old(file) && |file| >= TWO_64)
      ensures ok ==> offset == |file| && handle.offset as nat == |old(file)| && old(file) <= file
      ensures ok ==> |file| == |old(file)| + |stored| + BLOCK_TRAILER_SIZE
      ensures ok ==> forall contents :: DecodesTo(o, stored, kind, contents) ==> StoredAt(file, o, handle, contents)
    {
      hide Trailer, DecodesTo;
      handle := BlockHandle(0, 0);
      if |file| >= TWO_64 {
        ok := false;
        return;
      }
      handle := BlockHandle(offset, |stored|);
      ghost var was := file;
      file := file + stored;
      var trailer := Trailer(o.crc, stored, kind);
      file := file + trailer;
      offset := offset + |stored| + BLOCK_TRAILER_SIZE;
      assert file == was + (stored + trailer);
      forall contents | DecodesTo(o, stored, kind, contents) ensures StoredAt(file, o, handle, contents) {
        assert StoredAs(file, o, handle, stored, kind, contents);
      }
    }

    /** Finishes a block, compresses it if that helps, writes it and starts the next one. */
    method WriteBlock(block: BlockBuilder.Builder) returns (handle: BlockHandle)
      requires ok && offset == |file| && o.Sound() && block.Valid() && !block.finished && (block as object) != this
      modifies this`file, this`offset, this`ok, block
      ensures block.Valid() && offset >= old(offset)
      ensures !ok ==> file == old(file) && (|file| >= TWO_64 || (old(block.CurrentSizeEstimate()) >= TWO_32 && unchanged(block)))
      ensures ok ==> offset == |file| && handle.offset as nat == |old(file)| && old(file) <= file
      ensures ok ==> |file| <= |old(file)| + old(block.CurrentSizeEstimate()) + BLOCK_TRAILER_SIZE < |old(file)| + TWO_32 + BLOCK_TRAILER_SIZE
      ensures ok ==> !block.finished && block.layout.entries == [] && StoredBlock(file, o, handle, old(block.layout))
    {
      hide StoredAt, Data, BlockBytes;
      handle := BlockHandle(0, 0);
      if block.CurrentSizeEstimate() >= TWO_32 {
        ok := false;
        return;
      }
      ghost var layout := block.layout;
      var raw := block.Finish();
      BlockSize(layout);
      var compressed := o.compress(raw);
      var blockContents, kind: byte := raw, NO_COMPRESSION;
      if compressed.Some? && |compressed.value| < |raw| - |raw| / 8 {
        blockContents, kind := compressed.value, SNAPPY_COMPRESSION;
      }
      assert DecodesTo(o, blockContents, kind, raw);
      handle := WriteRawBlock(blockContents, kind);
      assert IsBlock(layout, raw);
      block.Reset();
    }

    /** The data block is no larger than the entries in it make it. */
    lemma DataBlockSize()
      requires Parts() && Consistent() && Sized()
      ensures SizeBound(dataBlock.layout.entries) < TWO_32 ==> dataBlock.CurrentSizeEstimate() <= SizeBound(dataBlock.layout.entries)
      ensures Weight(blocks.entries) + 8 < TWO_32 ==> |file| < TWO_32 && dataBlock.CurrentSizeEstimate() < TWO_32
    {
      hide BlockBuilder.Builder.Valid, FilterBlockBuilder.Valid, Building, Blocks.Filtered, Blocks.Cut, Blocks.Rest,
        TableOptions.Sound, SizeOk, SizeBound, Weight, FilterBlockBuilder.Count;
      BuildingFacts(o, blocks, file, indexBlock.layout.entries, dataBlock.layout.entries, pendingIndexEntry, pendingHandle);
      if SizeBound(dataBlock.layout.entries) < TWO_32 {
        dataBlock.EstimateBound();
      }
      if Weight(blocks.entries) + 8 < TWO_32 {
        BlockFits(blocks, |file|);
      }
    }

    /** Writes the data block, if there is anything in it; its index entry has to wait. */
    method Flush()
      requires Valid() && !closed
      modifies Repr()
      ensures Valid() && !closed && (ok ==> old(ok) && blocks.entries == old(blocks.entries) && blocks.Rest() == [])
      ensures old(ok) && Weight(old(blocks.entries)) + 8 < TWO_32 ==> ok
    {
      hide BlockBuilder.Builder.Valid, FilterBlockBuilder.Valid, Building, Blocks.Filtered, Blocks.Cut, Blocks.Rest,
        StoredBlock, TableOptions.Sound, WithBlock, SizeOk, SizeBound, Weight, FilterBlockBuilder.Count,
        BlockBuilder.Builder.CurrentSizeEstimate;
      if !ok {
        return;
      }
      dataBlock.EmptyHasNothing();
      BuildingFacts(o, blocks, file, indexBlock.layout.entries, dataBlock.layout.entries, pendingIndexEntry, pendingHandle);
      if dataBlock.Empty() {
        return;
      }
      DataBlockSize();
      ghost var was, layout, index := file, dataBlock.layout, indexBlock.layout.entries;
      ghost var before := pendingHandle;
      pendingHandle := WriteBlock(dataBlock);
      if ok {
        pendingIndexEntry := true;
        BlockFlushed(o, blocks, was, index, layout.entries, layout, pendingHandle, file, before);
        if filterBlock != null {
          FlushFilters(blocks, filterBlock.added, layout, pendingHandle, offset);
        }
        blocks := WithBlock(blocks, layout, pendingHandle);
      }
      if filterBlock != null {
        filterBlock.StartBlock(offset);
      }
    }

    /** The index entry of the block before, if it is still missing. */
    method AddPendingIndexEntry(key: Bytes)
      requires Parts() && !indexBlock.finished
      modifies this`lastKey, this`pendingIndexEntry, indexBlock
      ensures Parts() && !indexBlock.finished && !pendingIndexEntry
      ensures indexBlock.layout.entries == if !old(pendingIndexEntry) then old(indexBlock.layout.entries)
        else old(indexBlock.layout.entries) + [Entry(o.cmp.separator(old(lastKey), key), EncodeHandle(pendingHandle))]
    {
      hide BlockBuilder.Builder.Valid, FilterBlockBuilder.Valid, TableOptions.Sound, EncodeHandle;
      if pendingIndexEntry {
        lastKey := o.cmp.separator(lastKey, key);
        var handleEncoding := EncodeHandle(pendingHandle);
        indexBlock.Add(lastKey, handleEncoding);
        pendingIndexEntry := false;
      }
    }

    method AddFilterKey(key: Bytes)
      requires Parts()
      modifies filterBlock
      ensures Parts()
      ensures filterBlock != null ==> filterBlock.blockOffset == old(filterBlock.blockOffset)
      ensures filterBlock != null ==> filterBlock.added == old(filterBlock.added) + {(filterBlock.blockOffset, key)}
      ensures filterBlock != null ==> filterBlock.Count() == old(filterBlock.Count()) + 1
    {
      hide BlockBuilder.Builder.Valid, FilterBlockBuilder.Valid, FilterBlockBuilder.Count, TableOptions.Sound;
      if filterBlock != null {
        filterBlock.AddKey(key);
      }
    }

    /** The entry goes into the index behind the block before, the filter and the block. */
    method AddEntry(key: Bytes, value: Bytes)
      requires Parts() && !indexBlock.finished && !dataBlock.finished
      modifies this`lastKey, this`pendingIndexEntry, this`numEntries, indexBlock, dataBlock, filterBlock
      ensures Parts() && !indexBlock.finished && !dataBlock.finished && !pendingIndexEntry
      ensures lastKey == key && numEntries == old(numEntries) + 1
      ensures dataBlock.layout.entries == old(dataBlock.layout.entries) + [Entry(key, value)]
      ensures indexBlock.layout.entries == if !old(pendingIndexEntry) then old(indexBlock.layout.entries)
        else old(indexBlock.layout.entries) + [Entry(o.cmp.separator(old(lastKey), key), EncodeHandle(pendingHandle))]
      ensures filterBlock != null ==> filterBlock.blockOffset == old(filterBlock.blockOffset)
      ensures filterBlock != null ==> filterBlock.added == old(filterBlock.added) + {(filterBlock.blockOffset, key)}
      ensures filterBlock != null ==> filterBlock.Count() == old(filterBlock.Count()) + 1
    {
      hide BlockBuilder.Builder.Valid, FilterBlockBuilder.Valid, FilterBlockBuilder.Count, TableOptions.Sound,
        EncodeHandle;
      AddPendingIndexEntry(key);
      AddFilterKey(key);
      lastKey := key;
      numEntries := numEntries + 1;
      dataBlock.Add(key, value);
    }

    method Append(key: Bytes, value: Bytes)
      requires Valid() && !closed && ok
      requires blocks.entries != [] ==> o.cmp.less(blocks.entries[|blocks.entries| - 1].key, key)
      modifies Repr()
      ensures Valid() && !closed && ok && blocks.entries == old(blocks.entries) + [Entry(key, value)]
    {
      hide BlockBuilder.Builder.Valid, FilterBlockBuilder.Valid, Building, Blocks.Filtered, Blocks.Cut, Blocks.Rest,
        StoredBlock, TableOptions.Sound, EncodeHandle, Transitive, Overgrown, SizeOk, Weight,
        FilterBlockBuilder.Count;
      ghost var e := Entry(key, value);
      BuildingFacts(o, blocks, file, indexBlock.layout.entries, dataBlock.layout.entries, pendingIndexEntry, pendingHandle);
      SoundOrder(o);
      AddBuilds(o, blocks, file, indexBlock.layout.entries, dataBlock.layout.entries, pendingIndexEntry, pendingHandle, e);
      if filterBlock != null {
        AddFilters(blocks, filterBlock.added, offset, e);
      }
      AddSized(blocks, |file|, e);
      AddEntry(key, value);
      blocks := blocks.(entries := blocks.entries + [e]);
    }

    /** Adds an entry whose key comes after all others. */
    method Add(key: Bytes, value: Bytes)
      requires Valid() && !closed
      requires ok && blocks.entries != [] ==> o.cmp.less(blocks.entries[|blocks.entries| - 1].key, key)
      modifies Repr()
      ensures Valid() && !closed && (ok ==> old(ok) && blocks.entries == old(blocks.entries) + [Entry(key, value)])
      ensures old(ok) && Weight(old(blocks.entries) + [Entry(key, value)]) + 8 < TWO_32 ==> ok
    {
      hide Parts, Consistent, Overgrown, Sized, Weight;
      if !ok {
        return;
      }
      Append(key, value);
      var estimatedBlockSize := dataBlock.CurrentSizeEstimate();
      if estimatedBlockSize >= o.blockSize {
        Flush();
      }
    }

    method WriteFilterBlock() returns (handle: BlockHandle, ghost filter: Option<Bytes>)
      requires Parts() && ok && offset == |file| && (filterBlock != null ==> blocks.Filtered(filterBlock.added, filterBlock.blockOffset))
      modifies this`file, this`offset, this`ok, filterBlock
      ensures !ok ==> Overgrown() && (|old(file)| >= TWO_64 || (filterBlock != null && |filterBlock.result| >= TWO_32))
      ensures filterBlock != null ==> FilterSizeOk(o, old(filterBlock.Count()), old(filterBlock.blockOffset), |filterBlock.result|)
      ensures ok ==> offset == |file| && old(file) <= file && filter.Some? == o.policy.Some?
      ensures ok ==> |file| < |old(file)| + TWO_32 + BLOCK_TRAILER_SIZE
      ensures ok && o.policy.Some? ==> StoredAt(file, o, handle, filter.value) && FilterCovers(o.policy.value, filter.value, blocks)
    {
      hide BlockBuilder.Builder.Valid, FilterBlockBuilder.Valid, Blocks.Filtered, StoredAt, TableOptions.Sound,
        Covers, FilterCovers, FilterBlockBuilder.Count;
      handle, filter := BlockHandle(0, 0), None;
      if filterBlock != null {
        ghost var added, current := filterBlock.added, filterBlock.blockOffset;
        var contents := filterBlock.Finish();
        if |contents| >= TWO_32 {
          ok := false;
          return;
        }
        FilteredIsCovered(o.policy.value, contents, blocks, added, current);
        filter := Some(contents);
        assert DecodesTo(o, contents, NO_COMPRESSION, contents);
        handle := WriteRawBlock(contents, NO_COMPRESSION);
      }
    }

    method WriteMetaIndexBlock(filterHandle: BlockHandle) returns (handle: BlockHandle, ghost meta: Layout)
      requires ok && offset == |file| && o.Sound() && (filterBlock == null <==> o.policy.None?)
      modifies this`file, this`offset, this`ok
      ensures !ok ==> Overgrown() && (|old(file)| >= TWO_64 || |o.policyName| + 54 >= TWO_32)
      ensures ok ==> offset == |file| && old(file) <= file && StoredBlock(file, o, handle, meta)
      ensures ok ==> |file| < |old(file)| + TWO_32 + BLOCK_TRAILER_SIZE
      ensures ok ==> meta.entries == if o.policy.Some? then [Entry(FilterKey(o.policyName), EncodeHandle(filterHandle))] else []
    {
      hide BlockBuilder.Builder.Valid, StoredBlock, EncodeHandle, SizeBound;
      var metaIndexBlock := new BlockBuilder.Builder(o.restartInterval);
      if filterBlock != null {
        var key := FilterKey(o.policyName);
        var handleEncoding := EncodeHandle(filterHandle);
        metaIndexBlock.Add(key, handleEncoding);
      }
      meta := metaIndexBlock.layout;
      HandleRoundTrip(filterHandle, []);
      MetaSize(meta.entries, o.policyName, EncodeHandle(filterHandle));
      if |o.policyName| + 54 < TWO_32 {
        metaIndexBlock.EstimateBound();
      }
      handle := WriteBlock(metaIndexBlock);
    }

    method WriteIndexBlock() returns (handle: BlockHandle, ghost index: Layout)
      requires ok && offset == |file| && o.Sound() && indexBlock.Valid() && !indexBlock.finished && (indexBlock as object) != this
      requires pendingIndexEntry ==> blocks.entries != [] && lastKey == blocks.entries[|blocks.entries| - 1].key
      modifies this`file, this`offset, this`ok, this`lastKey, this`pendingIndexEntry, indexBlock
      ensures !ok ==> Overgrown() && (|old(file)| >= TWO_64 || SizeBound(index.entries) >= TWO_32)
      ensures ok ==> offset == |file| && old(file) <= file && StoredBlock(file, o, handle, index)
      ensures index.entries == if !old(pendingIndexEntry) then old(indexBlock.layout.entries)
        else old(indexBlock.layout.entries) + [Entry(o.cmp.successor(blocks.entries[|blocks.entries| - 1].key), EncodeHandle(pendingHandle))]
    {
      hide BlockBuilder.Builder.Valid, StoredBlock, EncodeHandle, SizeBound;
      if pendingIndexEntry {
        lastKey := o.cmp.successor(lastKey);
        var handleEncoding := EncodeHandle(pendingHandle);
        indexBlock.Add(lastKey, handleEncoding);
        pendingIndexEntry := false;
      }
      index := indexBlock.layout;
      if SizeBound(index.entries) < TWO_32 {
        indexBlock.EstimateBound();
      }
      handle := WriteBlock(indexBlock);
    }

    /** Everything behind the data blocks. */
    method WriteRest() returns (ghost t: Table)
      requires Parts() && ok && Consistent() && Sized() && blocks.Rest() == []
      modifies Repr()
      ensures closed == old(closed) && (!ok ==> Overgrown())
      ensures ok ==> IsTable(o, file, t) && t.blocks.entries == old(blocks.entries)
      ensures Fits(o, old(blocks.entries)) ==> ok
    {
      hide BlockBuilder.Builder.Valid, FilterBlockBuilder.Valid, Building, Blocks.Filtered, StoredBlock, StoredAt,
        FilterCovers, EncodeHandle, AllIndexed, Ascending, Blocks.Stored, TableOptions.Sound, Overgrown, IsTable,
        EncodeFooter, Blocks.Cut, Blocks.Rest, Fits, SizeOk, SizeBound, Weight, FilterSizeOk,
        FilterBlockBuilder.Count;
      var none := BlockHandle(0, 0);
      t := Table(blocks, indexBlock.layout, none, indexBlock.layout, none, None, none);
      BuildingFacts(o, blocks, file, indexBlock.layout.entries, dataBlock.layout.entries, pendingIndexEntry, pendingHandle);
      FinishIndexes(o, blocks, file, indexBlock.layout.entries, pendingIndexEntry, pendingHandle);
      BuildingStored(o, blocks, file, indexBlock.layout.entries, dataBlock.layout.entries, pendingIndexEntry, pendingHandle);
      ghost var data := file;
      if Fits(o, blocks.entries) {
        AllWritten(o, blocks, |file|);
      }
      var filterHandle, filter := WriteFilterBlock();
      ghost var filtered := file;
      if filterBlock != null && Fits(o, blocks.entries) {
        FilterFits(o, blocks.entries, |data|, |filterBlock.result|);
      }
      if ok {
        var metaHandle, meta := WriteMetaIndexBlock(filterHandle);
        ghost var described := file;
        if ok {
          var indexHandle, index := WriteIndexBlock();
          if Fits(o, blocks.entries) {
            IndexFits(o, blocks, index.entries);
          }
          if ok {
            ghost var indexed := file;
            var footerEncoding := EncodeFooter(metaHandle, indexHandle);
            file := file + footerEncoding;
            offset := offset + |footerEncoding|;
            t := Table(blocks, index, indexHandle, meta, metaHandle, filter, filterHandle);
            TableDone(o, t, data, filtered, described, indexed);
          }
        }
      }
    }

    /** Writes the last data block, the filters, the meta index, the index and the footer. */
    method Finish() returns (ghost t: Table)
      requires Valid() && !closed
      modifies Repr()
      ensures closed && (!ok ==> Overgrown())
      ensures ok ==> old(ok) && IsTable(o, file, t) && t.blocks.entries == old(blocks.entries)
      ensures old(ok) && Fits(o, old(blocks.entries)) ==> ok
    {
      hide Blocks.Rest, IsTable, Building, Blocks.Filtered, TableOptions.Sound, BlockBuilder.Builder.Valid,
        FilterBlockBuilder.Valid, Fits, SizeOk, Weight, FilterBlockBuilder.Count;
      var none := BlockHandle(0, 0);
      t := Table(blocks, dataBlock.layout, none, dataBlock.layout, none, None, none);
      if Fits(o, blocks.entries) {
        FitsIsLight(o, blocks.entries);
      }
      Flush();
      closed := true;
      if ok {
        t := WriteRest();
      }
    }
  }
}

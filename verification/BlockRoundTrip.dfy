/** A block read back. */
module BlockRoundTrip {
  import opened Options
  import opened Coding
  import opened BlockFormat
  import opened Comparators
  import BlockBuilder
  import BlockIter

  method AddAll(entries: seq<Entry>, restartInterval: nat) returns (builder: BlockBuilder.Builder)
    requires restartInterval >= 1
    ensures fresh(builder) && builder.Valid() && !builder.finished && builder.layout.entries == entries
    ensures builder.restartInterval == restartInterval
  {
    hide BlockBuilder.Builder.Valid;
    builder := new BlockBuilder.Builder(restartInterval);
    for i := 0 to |entries|
      invariant builder.Valid() && !builder.finished && fresh(builder) && builder.restartInterval == restartInterval && builder.layout.entries == entries[..i]
    {
      builder.Add(entries[i].key, entries[i].value);
      assert entries[i] == Entry(entries[i].key, entries[i].value);
      assert entries[..i + 1] == entries[..i] + [entries[i]];
    }
    assert entries[..|entries|] == entries;
  }

  method ReadAll(iter: BlockIter.Iter) returns (all: seq<Entry>)
    requires iter.Ok()
    modifies iter
    ensures all == iter.l.entries
  {
    hide BlockIter.Iter.Ok, BlockIter.Iter.Valid;
    ghost var entries := iter.l.entries;
    iter.SeekToFirst();
    iter.Shows();
    all := [];
    while iter.Valid()
      invariant iter.Ok() && iter.pos <= |entries| && all == entries[..iter.pos]
      invariant iter.Valid() <==> iter.pos < |entries|
      decreases |entries| - iter.pos
    {
      var key := iter.Key();
      var value := iter.Value();
      assert entries[..iter.pos + 1] == entries[..iter.pos] + [entries[iter.pos]];
      all := all + [Entry(key, value)];
      iter.Next();
      iter.Shows();
    }
  }

  /** Any list of entries, put into a block with any restart interval, comes back as it was
      when the block is iterated over.  A list is refused only when its block, laid out as
      the builder does, is too large for 32-bit offsets, and no list is whose keys and values
      leave room for the lengths and offsets. */
  method WriteAndRead(entries: seq<Entry>, restartInterval: nat, less: Order) returns (read: Option<seq<Entry>>, size: nat, ghost l: Layout)
    requires restartInterval >= 1
    ensures l.entries == entries && Good(l) && BlockBuilder.Spaced(l, restartInterval) && BlockBuilder.SharesAll(l)
    ensures |entries| <= l.restarts[|l.restarts| - 1] + restartInterval
    ensures size == Offset(l, |entries|) + 4 * |l.restarts| + 4
    ensures read == if size < TWO_32 then Some(entries) else None
    ensures SizeBound(entries) < TWO_32 ==> read == Some(entries)
  {
    hide BlockFormat.Data, BlockFormat.BlockBytes, BlockFormat.SizeBound, RestartOffsets, BlockBuilder.SharesAll,
      BlockBuilder.Spaced;
    var builder := AddAll(entries, restartInterval);
    l := builder.layout;
    size := |builder.buffer| + 4 * |builder.restarts| + 4;
    if SizeBound(entries) < TWO_32 {
      builder.EstimateBound();
    }
    if size >= TWO_32 {
      return None, size, l;
    }
    var block := builder.Finish();
    BlockIter.BlockSize(l);
    var iter := new BlockIter.Iter(less, block, l);
    var all := ReadAll(iter);
    read := Some(all);
  }
}

/** A table built and looked up in. */
module TableRoundTrip {
  import opened Options
  import opened Coding
  import opened BlockFormat
  import opened BlockIter
  import opened Comparators
  import opened FilterBlock
  import opened TableFormat
  import opened TableModel
  import opened TableLookup
  import opened TableSizes
  import TableBuilder
  import TableReader

  method Build(o: TableOptions, entries: seq<Entry>) returns (file: Option<Bytes>, ghost t: TableModel.Table, builder: TableBuilder.TableBuilder)
    requires o.Sound() && Ascending(o.cmp.less, entries)
    ensures file.None? ==> builder.Overgrown() && builder.o == o
    ensures file.Some? ==> IsTable(o, file.value, t) && t.blocks.entries == entries
    ensures Fits(o, entries) ==> file.Some?
  {
    hide Fits, Weight, TableBuilder.TableBuilder.Sized, IsTable, TableBuilder.TableBuilder.Parts,
      TableBuilder.TableBuilder.Consistent, TableBuilder.TableBuilder.Overgrown;
    builder := new TableBuilder.TableBuilder(o);
    for i := 0 to |entries|
      invariant builder.Valid() && !builder.closed && builder.o == o && fresh(builder.Repr())
      invariant builder.ok ==> builder.blocks.entries == entries[..i]
      invariant Fits(o, entries) ==> builder.ok
    {
      if Fits(o, entries) {
        PrefixLight(o, entries, i + 1);
      }
      assert i > 0 && builder.ok ==> builder.blocks.entries[|builder.blocks.entries| - 1] == entries[i - 1];
      builder.Add(entries[i].key, entries[i].value);
      assert entries[i] == Entry(entries[i].key, entries[i].value);
      assert entries[..i + 1] == entries[..i] + [entries[i]];
    }
    assert entries[..|entries|] == entries;
    t := builder.Finish();
    file := if builder.ok then Some(builder.file) else None;
  }

  lemma PrefixLight(o: TableOptions, entries: seq<Entry>, n: nat)
    requires Fits(o, entries) && n <= |entries|
    ensures Weight(entries[..n]) + 8 < TWO_32
  {
    hide Fits, Weight;
    FitsIsLight(o, entries);
    WeightSplits(entries, n);
  }

  lemma {:induction false} PlaceExists(less: Order, entries: seq<Entry>, k: Bytes) returns (p: nat)
    ensures IsSeekPos(less, entries, k, p)
  {
    p := 0;
    while p < |entries| && less(entries[p].key, k)
      invariant p <= |entries| && forall i :: 0 <= i < p ==> less(entries[i].key, k)
    {
      p := p + 1;
    }
  }

  /** For any ascending entries, block size, restart interval, compression, honest comparator
      and honest filter policy or none: once the table is built, a lookup finds the first
      entry at or after the key if that entry has the user key looked for, and otherwise
      finds nothing or shows that very entry.  A table is refused only when some part of it
      outgrew its offsets, and no table is whose keys and values leave room for the rest. */
  method BuildAndGet(o: TableOptions, entries: seq<Entry>, k: Bytes, ghost user: Comparator, ghost userPolicy: Option<Policy>)
    returns (built: bool, found: Option<Entry>, ghost p: nat, builder: TableBuilder.TableBuilder)
    requires o.Sound() && Ascending(o.cmp.less, entries)
    requires Honest(user) && o.cmp == Internal(user)
    requires o.policy == if userPolicy.Some? then Some(InternalPolicy(userPolicy.value)) else None
    requires userPolicy.Some? ==> HonestPolicy(userPolicy.value)
    ensures IsSeekPos(o.cmp.less, entries, k, p)
    ensures built ==> Answers(found, entries, k, p)
    ensures !built ==> builder.Overgrown() && builder.o == o
    ensures Light(o, entries) ==> built
  {
    InternalIsShort(user);
    hide Light, ShortKeys, IsTable, IsSeekPos, Answers, TableBuilder.TableBuilder.Overgrown;
    p := PlaceExists(o.cmp.less, entries, k);
    found := None;
    var file: Option<Bytes>;
    ghost var t;
    file, t, builder := Build(o, entries);
    built := file.Some?;
    if built {
      var table := new TableReader.Table(o, file.value, t);
      found := table.InternalGet(k, user, userPolicy);
    }
  }
}

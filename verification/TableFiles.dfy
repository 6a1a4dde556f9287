/** Table files as the engine sees them: which entries the bytes of a file stand for, and a
    lookup that reads them. */
module TableFiles {
  import opened Options
  import opened Coding
  import opened DbFormat
  import opened Tables
  import opened CompactionDrop
  import opened Cursors
  import opened Lookups
  import opened Ranks
  import BlockFormat
  import BlockIter
  import Comparators
  import FilterBlock
  import SortedGet
  import TableFormat
  import TableLookup
  import TableModel
  import TableReader
  import TableRoundTrip
  import TableSizes

  // ----- keys -----

  /** An internal key's bytes end in a tag of a known type. */
  predicate GoodKey(key: Bytes) {
    Comparators.IsInternalKey(key) && Comparators.Tag(key) % 256 <= 1
  }

  predicate GoodKeys(entries: seq<BlockFormat.Entry>) {
    forall i :: 0 <= i < |entries| ==> GoodKey(entries[i].key)
  }

  function KeyOf(rank: Rank, key: Bytes): InternalKey {
    var tag: nat := Comparators.Tag(key);
    InternalKey(rank(Comparators.UserKey(key)), tag / 256, if tag % 256 == 1 then Put else Deletion)
  }

  function EntryOf(rank: Rank, e: BlockFormat.Entry): Entry {
    Entry(KeyOf(rank, e.key), e.value)
  }

  function Listed(rank: Rank, entries: seq<BlockFormat.Entry>): (es: seq<Entry>)
    ensures |es| == |entries|
  {
    seq(|entries|, i requires 0 <= i < |entries| => EntryOf(rank, entries[i]))
  }

  /** What a reader at snapshot s seeks. */
  function SeekKey(ukey: Bytes, s: nat): (key: Bytes)
    requires s <= MAX_SEQUENCE
  {
    Comparators.WithTag(ukey, s * 256 + 1)
  }

  /** The comparator on the bytes of internal keys is the order of the keys they stand for. */
  lemma KeysCompare(user: Comparators.Comparator, rank: Rank, a: Bytes, b: Bytes)
    requires Ordered(rank, user.less) && GoodKey(a) && GoodKey(b)
    ensures Comparators.InternalLess(user.less, a, b) <==> Less(KeyOf(rank, a), KeyOf(rank, b))
  {
    hide Comparators.Tag, Comparators.UserKey;
    var x, y := Comparators.UserKey(a), Comparators.UserKey(b);
    assert user.less(x, y) <==> rank(x) < rank(y);
    assert user.less(y, x) <==> rank(y) < rank(x);
    TagIsPacked(rank, a);
    TagIsPacked(rank, b);
  }

  lemma TagIsPacked(rank: Rank, key: Bytes)
    requires GoodKey(key)
    ensures Pack(KeyOf(rank, key)) == Comparators.Tag(key)
  {
    hide Comparators.Tag, Comparators.UserKey;
  }

  lemma SeekKeyStands(rank: Rank, ukey: Bytes, s: nat)
    requires s <= MAX_SEQUENCE
    ensures var key := SeekKey(ukey, s); GoodKey(key) && Comparators.UserKey(key) == ukey && KeyOf(rank, key) == LookupKey(rank(ukey), s)
  {
    hide EncodeFixed64, DecodeFixed64;
    var tag := s * 256 + 1;
    Fixed64RoundTrip(tag);
    var key := ukey + EncodeFixed64(tag);
    assert key[|key| - 8..] == EncodeFixed64(tag) && key[..|key| - 8] == ukey;
  }

  lemma SameUserKey(user: Comparators.Comparator, rank: Rank, a: Bytes, b: Bytes)
    requires Comparators.Honest(user) && Ordered(rank, user.less)
    ensures rank(a) == rank(b) <==> a == b
    ensures !user.less(a, b) && !user.less(b, a) <==> a == b
  {
    assert user.less(a, b) || user.less(b, a) || a == b;
    assert user.less(a, b) <==> rank(a) < rank(b);
    assert user.less(b, a) <==> rank(b) < rank(a);
    assert !user.less(a, a);
  }

  // ----- lists -----

  lemma AscendingIsSorted(user: Comparators.Comparator, rank: Rank, entries: seq<BlockFormat.Entry>)
    requires Ordered(rank, user.less) && GoodKeys(entries)
    requires BlockIter.Ascending(Comparators.Internal(user).less, entries)
    ensures Sorted(Listed(rank, entries))
  {
    hide Ordered, Less, KeyOf, GoodKey, Comparators.InternalLess;
    var es := Listed(rank, entries);
    forall i, j | 0 <= i < j < |es| ensures Less(es[i].key, es[j].key) {
      assert Comparators.Internal(user).less(entries[i].key, entries[j].key);
      KeysCompare(user, rank, entries[i].key, entries[j].key);
    }
  }

  /** The place of the seek key among the bytes is the place of the lookup key. */
  lemma SamePlace(user: Comparators.Comparator, rank: Rank, entries: seq<BlockFormat.Entry>, ukey: Bytes, s: nat)
    requires Ordered(rank, user.less) && GoodKeys(entries) && s <= MAX_SEQUENCE
    ensures BlockIter.IsSeekPos(Comparators.Internal(user).less, entries, SeekKey(ukey, s),
              SeekPos(Listed(rank, entries), LookupKey(rank(ukey), s)))
  {
    hide Ordered, Less, KeyOf, GoodKey, Comparators.InternalLess, SeekKey, SeekPos;
    var es, key, target := Listed(rank, entries), SeekKey(ukey, s), LookupKey(rank(ukey), s);
    SeekKeyStands(rank, ukey, s);
    forall i | 0 <= i < |entries| ensures Comparators.Internal(user).less(entries[i].key, key) <==> Less(es[i].key, target) {
      KeysCompare(user, rank, entries[i].key, key);
    }
  }

  // ----- what the bytes of a list say -----

  /** A key's entry that a snapshot sees. */
  predicate Seen(e: BlockFormat.Entry, ukey: Bytes, s: nat) {
    Comparators.UserKey(e.key) == ukey && Comparators.Tag(e.key) / 256 <= s
  }

  /** Entry i is the first one of the user key that the snapshot sees. */
  predicate FirstSeen(entries: seq<BlockFormat.Entry>, ukey: Bytes, s: nat, i: nat) {
    i < |entries| && Seen(entries[i], ukey, s) && forall j :: 0 <= j < i ==> !Seen(entries[j], ukey, s)
  }

  /** The lookup answers with the bytes of an entry: its value, or nothing when its tag says
      that it is a deletion. */
  ghost predicate AnswersWith(r: Lookup, e: BlockFormat.Entry) {
    r.Hit? && ResultOf(r) == if Comparators.Tag(e.key) % 256 == 1 then Found(e.value) else NotFound
  }

  /** The lookup answers with the first entry seen, and misses when there is none. */
  ghost predicate ReadsBytes(r: Lookup, entries: seq<BlockFormat.Entry>, ukey: Bytes, s: nat) {
    && (forall i: nat :: FirstSeen(entries, ukey, s, i) ==> AnswersWith(r, entries[i]))
    && ((forall j :: 0 <= j < |entries| ==> !Seen(entries[j], ukey, s)) ==> r.Miss?)
  }

  lemma AnswerOfBytes(rank: Rank, e: BlockFormat.Entry)
    ensures AnswerOf(EntryOf(rank, e)) == if Comparators.Tag(e.key) % 256 == 1 then Found(e.value) else NotFound
  {
    hide Comparators.Tag, Comparators.UserKey;
  }

  /** In a sorted list, the first entry a snapshot sees is where the lookup key belongs. */
  lemma FirstVisible(es: seq<Entry>, k: UserKey, s: nat, i: nat)
    requires Sorted(es) && i < |es| && es[i].key.ukey == k && es[i].key.seqno <= s
    requires forall j :: 0 <= j < i ==> !(es[j].key.ukey == k && es[j].key.seqno <= s)
    ensures SeekPos(es, LookupKey(k, s)) == i
  {
    hide SeekPos;
    var p := SeekPos(es, LookupKey(k, s));
    LookupKeySplitsVisible(es[i].key, k, s);
    SeekPosBelow(es, LookupKey(k, s), i);
    if p < i {
      assert Less(es[p].key, es[i].key);
      assert es[p].key.ukey == k;
      LookupKeySplitsVisible(es[p].key, k, s);
    }
  }

  /** The answer at the place of the lookup key is the answer of the bytes. */
  lemma SeekReadsBytes(user: Comparators.Comparator, rank: Rank, entries: seq<BlockFormat.Entry>, ukey: Bytes, s: nat)
    requires Comparators.Honest(user) && Ordered(rank, user.less) && GoodKeys(entries)
    requires BlockIter.Ascending(Comparators.Internal(user).less, entries)
    ensures ReadsBytes(SortedGet.AtSeek(Listed(rank, entries), rank(ukey), s), entries, ukey, s)
  {
    hide Comparators.Honest, Ordered, GoodKeys, BlockIter.Ascending, Comparators.Internal, Comparators.Tag,
      Comparators.UserKey, SeekPos, Sorted;
    var es, k := Listed(rank, entries), rank(ukey);
    AscendingIsSorted(user, rank, entries);
    forall j | 0 <= j < |entries|
      ensures es[j] == EntryOf(rank, entries[j]) && (Seen(entries[j], ukey, s) <==> es[j].key.ukey == k && es[j].key.seqno <= s)
    {
      SameUserKey(user, rank, Comparators.UserKey(entries[j].key), ukey);
    }
    forall i: nat | FirstSeen(entries, ukey, s, i) ensures AnswersWith(SortedGet.AtSeek(es, k, s), entries[i]) {
      FirstVisible(es, k, s, i);
      AnswerOfBytes(rank, entries[i]);
    }
    var p := SeekPos(es, LookupKey(k, s));
    if p < |es| && es[p].key.ukey == k {
      LookupKeySplitsVisible(es[p].key, k, s);
      assert Seen(entries[p], ukey, s);
    }
  }

  lemma HasFirst(b: seq<Entry>)
    ensures b != [] ==> SetOf(b) != {}
  {
    if b != [] {
      assert b[0] in SetOf(b);
    }
  }

  lemma {:induction false} SortedListsEqual(a: seq<Entry>, b: seq<Entry>)
    requires Sorted(a) && Sorted(b) && SetOf(a) == SetOf(b)
    ensures a == b
  {
    hide Less;
    if a == [] {
      HasFirst(b);
    } else {
      assert a[0] in SetOf(b) && b != [];
      assert b[0] in SetOf(a);
      SmallestFirst(a, b);
      RestOfSorted(a, b);
      SortedListsEqual(a[1..], b[1..]);
      assert a == [a[0]] + a[1..] && b == [b[0]] + b[1..];
    }
  }

  lemma SmallestFirst(a: seq<Entry>, b: seq<Entry>)
    requires a != [] && b != [] && Sorted(a) && Sorted(b) && a[0] in b && b[0] in a
    ensures a[0] == b[0]
  {
    CompareIsTotalOrder(a[0].key, b[0].key, a[0].key);
    var i :| 0 <= i < |b| && b[i] == a[0];
    var j :| 0 <= j < |a| && a[j] == b[0];
  }

  lemma RestOfSorted(a: seq<Entry>, b: seq<Entry>)
    requires a != [] && b != [] && Sorted(a) && Sorted(b) && a[0] == b[0] && SetOf(a) == SetOf(b)
    ensures Sorted(a[1..]) && Sorted(b[1..]) && SetOf(a[1..]) == SetOf(b[1..])
  {
    NotInRest(a);
    NotInRest(b);
    forall x ensures x in a[1..] <==> x in b[1..] {
      assert a == [a[0]] + a[1..] && b == [b[0]] + b[1..];
      assert x in SetOf(a) <==> x in SetOf(b);
    }
  }

  lemma NotInRest(a: seq<Entry>)
    requires a != [] && Sorted(a)
    ensures a[0] !in a[1..]
  {
    CompareIsTotalOrder(a[0].key, a[0].key, a[0].key);
  }

  // ----- files -----

  /** The table files there are and how they are written and read. */
  datatype Store = Store(o: TableFormat.TableOptions, user: Comparators.Comparator, userPolicy: Option<FilterBlock.Policy>, rank: Rank,
                         files: map<nat, Bytes>)
  {
    ghost predicate Ok() {
      && o.Sound() && Comparators.Honest(user) && Ordered(rank, user.less)
      && o.cmp == Comparators.Internal(user)
      && o.policy == (if userPolicy.Some? then Some(FilterBlock.InternalPolicy(userPolicy.value)) else None)
      && (userPolicy.Some? ==> FilterBlock.HonestPolicy(userPolicy.value))
    }

    ghost predicate HoldsAs(t: Table, b: TableModel.Table)
      requires t.number in files
    {
      && TableModel.IsTable(o, files[t.number], b) && GoodKeys(b.blocks.entries)
      && t.entries == SetOf(Listed(rank, b.blocks.entries))
    }

    /** The bytes of the file are a table with these entries. */
    ghost predicate Holds(t: Table) {
      t.number in files && exists b :: HoldsAs(t, b)
    }

    ghost predicate HoldsAll(v: Levels) {
      forall l, t :: 0 <= l < NUM_LEVELS && t in v[l] ==> Holds(t)
    }
  }

  /** A list of the file's entries, whichever the bytes are taken for, is read alike. */
  lemma HeldReadsBytes(store: Store, t: Table, b: TableModel.Table, c: TableModel.Table, ukey: Bytes, s: nat)
    requires store.Ok() && t.number in store.files && store.HoldsAs(t, b) && store.HoldsAs(t, c)
    ensures ReadsBytes(SortedGet.AtSeek(Listed(store.rank, b.blocks.entries), store.rank(ukey), s), c.blocks.entries, ukey, s)
  {
    hide TableModel.IsTable, TableFormat.TableOptions.Sound, Comparators.Honest, Comparators.Internal,
      FilterBlock.HonestPolicy, FilterBlock.InternalPolicy, Ordered, GoodKeys, Listed, SetOf, BlockIter.Ascending,
      ReadsBytes, SortedGet.AtSeek, Sorted;
    TableReader.TableFacts(store.o, store.files[t.number], b);
    TableReader.TableFacts(store.o, store.files[t.number], c);
    AscendingIsSorted(store.user, store.rank, b.blocks.entries);
    AscendingIsSorted(store.user, store.rank, c.blocks.entries);
    SortedListsEqual(Listed(store.rank, b.blocks.entries), Listed(store.rank, c.blocks.entries));
    SeekReadsBytes(store.user, store.rank, c.blocks.entries, ukey, s);
  }

  /** Opens the file, finds the entry at or after the seek key and looks at its user key.  The
      answer is the value, or the absence, that the bytes of the first entry seen spell. */
  method Get(store: Store, t: Table, ukey: Bytes, s: nat) returns (r: Lookup)
    requires store.Ok() && store.Holds(t) && s <= MAX_SEQUENCE
    ensures Answers(r, t.entries, store.rank(ukey), s)
    ensures forall b :: store.HoldsAs(t, b) ==> ReadsBytes(r, b.blocks.entries, ukey, s)
  {
    hide ReadsBytes, TableModel.IsTable, TableFormat.TableOptions.Sound, Comparators.Honest, Comparators.Internal,
      FilterBlock.HonestPolicy, FilterBlock.InternalPolicy, Ordered, GoodKeys, Answers, Listed, KeyOf, SeekKey, SetOf,
      BlockIter.IsSeekPos, TableLookup.Answers, SeekPos;
    ghost var b :| store.HoldsAs(t, b);
    var user, key := store.user, SeekKey(ukey, s);
    var table := new TableReader.Table(store.o, store.files[t.number], b);
    var found := table.InternalGet(key, user, store.userPolicy);
    r := Miss;
    if found.Some? {
      var ukey' := Comparators.UserKey(found.value.key);
      if !user.less(ukey', ukey) && !user.less(ukey, ukey') {
        r := Hit(EntryOf(store.rank, found.value));
      }
    }
    TableReader.TableFacts(store.o, store.files[t.number], b);
    FoundAnswers(store, b, ukey, s, found, r);
    forall c | store.HoldsAs(t, c) ensures ReadsBytes(r, c.blocks.entries, ukey, s) {
      HeldReadsBytes(store, t, b, c, ukey, s);
    }
  }

  /** What the table reader may find makes the answer of the sorted list. */
  lemma FoundAnswers(store: Store, b: TableModel.Table, ukey: Bytes, s: nat, found: Option<BlockFormat.Entry>, r: Lookup)
    requires store.Ok() && GoodKeys(b.blocks.entries) && s <= MAX_SEQUENCE
    requires BlockIter.Ascending(store.o.cmp.less, b.blocks.entries)
    requires forall p: nat :: BlockIter.IsSeekPos(store.o.cmp.less, b.blocks.entries, SeekKey(ukey, s), p) ==>
               TableLookup.Answers(found, b.blocks.entries, SeekKey(ukey, s), p)
    requires
      var same := found.Some? && !store.user.less(Comparators.UserKey(found.value.key), ukey)
                  && !store.user.less(ukey, Comparators.UserKey(found.value.key));
      r == if same then Hit(EntryOf(store.rank, found.value)) else Miss
    ensures r == SortedGet.AtSeek(Listed(store.rank, b.blocks.entries), store.rank(ukey), s)
    ensures Answers(r, SetOf(Listed(store.rank, b.blocks.entries)), store.rank(ukey), s)
  {
    hide TableFormat.TableOptions.Sound, Comparators.Honest, FilterBlock.HonestPolicy, FilterBlock.InternalPolicy,
      Ordered, GoodKeys, Answers, SeekKey, SetOf, BlockIter.IsSeekPos, SeekPos, Sorted, BlockIter.Ascending,
      Comparators.UserKey, Comparators.Tag, Comparators.Internal;
    var entries, es := b.blocks.entries, Listed(store.rank, b.blocks.entries);
    var p := SeekPos(es, LookupKey(store.rank(ukey), s));
    AscendingIsSorted(store.user, store.rank, entries);
    SamePlace(store.user, store.rank, entries, ukey, s);
    SeekKeyStands(store.rank, ukey, s);
    if p < |entries| {
      SameUserKey(store.user, store.rank, Comparators.UserKey(entries[p].key), ukey);
    }
    assert r == SortedGet.AtSeek(es, store.rank(ukey), s);
    SortedGet.SeekAnswers(es, store.rank(ukey), s);
  }

  /** Writing a table file: afterwards the store holds it, under its number. */
  method Build(store: Store, number: nat, entries: seq<BlockFormat.Entry>) returns (store': Store, built: bool, ghost b: TableModel.Table)
    requires store.Ok() && GoodKeys(entries) && BlockIter.Ascending(store.o.cmp.less, entries)
    ensures store' == if built then store.(files := store'.files) else store
    ensures built ==> store'.files.Keys == store.files.Keys + {number}
    ensures built ==> forall n :: n in store.files && n != number ==> store'.files[n] == store.files[n]
    ensures built ==> b.blocks.entries == entries
    ensures built ==> forall t: Table :: t.number == number && t.entries == SetOf(Listed(store.rank, entries)) ==> store'.HoldsAs(t, b) && store'.Holds(t)
    ensures TableSizes.Fits(store.o, entries) ==> built
  {
    hide TableModel.IsTable, TableSizes.Fits, TableSizes.Weight, TableFormat.TableOptions.Sound, Comparators.Honest,
      Comparators.Internal, FilterBlock.HonestPolicy, FilterBlock.InternalPolicy, Ordered, GoodKeys, Listed, SetOf,
      BlockIter.Ascending;
    var file, builder;
    file, b, builder := TableRoundTrip.Build(store.o, entries);
    built := file.Some?;
    store' := store;
    if built {
      store' := store.(files := store.files[number := file.value]);
      forall t: Table | t.number == number && t.entries == SetOf(Listed(store.rank, entries)) ensures store'.HoldsAs(t, b) && store'.Holds(t) {
        assert store'.HoldsAs(t, b);
      }
    }
  }

  /** A file written and looked up in: the value read is that of the first entry, among the
      bytes written, that the snapshot sees. */
  method BuildAndGet(store: Store, t: Table, entries: seq<BlockFormat.Entry>, ukey: Bytes, s: nat) returns (built: bool, r: Lookup)
    requires store.Ok() && GoodKeys(entries) && BlockIter.Ascending(store.o.cmp.less, entries)
    requires t.entries == SetOf(Listed(store.rank, entries)) && s <= MAX_SEQUENCE
    ensures built ==> ReadsBytes(r, entries, ukey, s)
    ensures TableSizes.Fits(store.o, entries) ==> built
  {
    hide TableModel.IsTable, TableSizes.Fits, TableSizes.Weight, TableFormat.TableOptions.Sound, Comparators.Honest,
      Comparators.Internal, FilterBlock.HonestPolicy, FilterBlock.InternalPolicy, Ordered, GoodKeys, Listed, SetOf,
      BlockIter.Ascending, ReadsBytes, Answers;
    var store';
    ghost var b;
    store', built, b := Build(store, t.number, entries);
    r := Miss;
    if built {
      r := Get(store', t, ukey, s);
    }
  }
}

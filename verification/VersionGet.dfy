/** Looking a user key up in a version: level by level, stopping at the first hit. */
module VersionGet {
  import opened Coding
  import opened DbFormat
  import opened Lookups
  import opened Tables
  import opened TableFiles
  import opened VersionSearch
  import opened Lsm
  import opened Ranks
  import BlockFormat
  import Comparators
  import FilterBlock
  import TableFormat
  import TableModel

  // ----- level 0 -----

  predicate NewestFirst(files: Files) {
    forall i, j :: 0 <= i < j < |files| ==> files[i].number >= files[j].number
  }

  method InsertNewestFirst(files: Files, t: Table) returns (r: Files)
    requires NewestFirst(files)
    ensures NewestFirst(r)
    ensures forall u :: u in r <==> u in files || u == t
  {
    var i := 0;
    while i < |files| && files[i].number >= t.number
      invariant i <= |files|
      invariant forall j :: 0 <= j < i ==> files[j].number >= t.number
    {
      i := i + 1;
    }
    r := files[..i] + [t] + files[i..];
    InsertedAt(files, i, t);
  }

  lemma InsertedAt(files: Files, i: nat, t: Table)
    requires i <= |files|
    ensures forall u :: u in files[..i] + [t] + files[i..] <==> u in files || u == t
  {
    var r := files[..i] + [t] + files[i..];
    forall u | u in files ensures u in r {
      var j :| 0 <= j < |files| && files[j] == u;
      assert r[if j < i then j else j + 1] == u;
    }
    assert r[i] == t;
  }

  /** The level-0 files covering the key, highest number first. */
  method Level0Candidates(files: Files, k: UserKey) returns (tmp: Files)
    ensures NewestFirst(tmp)
    ensures forall t :: t in tmp <==> t in files && t.Covers(k)
  {
    tmp := [];
    for i := 0 to |files|
      invariant NewestFirst(tmp)
      invariant forall t :: t in tmp <==> t in files[..i] && t.Covers(k)
    {
      var f := files[i];
      assert files[..i + 1] == files[..i] + [f];
      if k >= f.Lo() && k <= f.Hi() {
        tmp := InsertNewestFirst(tmp, f);
      }
    }
    assert files[..|files|] == files;
  }

  // ----- a sorted level -----

  /** In a sorted level only the file the binary search finds can hold the newest
      visible entry; an entry in a later file is always outdone. */
  lemma OneFileDecides(files: Files, index: nat, k: UserKey, s: nat, u: Table, x: Entry)
    requires ValidFiles(files) && SortedLevel(files) && index <= |files|
    requires forall i :: 0 <= i < index ==> Less(files[i].largest, LookupKey(k, s))
    requires index < |files| ==> !Less(files[index].largest, LookupKey(k, s))
    requires u in files && Visible(u.entries, k, s, x)
    ensures index < |files| && files[index].Lo() <= k
    ensures u != files[index] ==> exists y :: Visible(files[index].entries, k, s, y) && x.key.seqno <= y.key.seqno
  {
    var j :| 0 <= j < |files| && files[j] == u;
    LookupKeySplitsVisible(x.key, k, s);
    assert !Less(u.largest, x.key);
    assert j >= index;
    var f := files[index];
    assert f in files;
    ValidTableRange(f);
    ValidTableRange(u);
    if j > index {
      var y :| y in f.entries && y.key == f.largest;
      LookupKeySplitsVisible(y.key, k, s);
      assert Less(y.key, x.key) || y.key == x.key;
      assert Less(f.largest, u.smallest);
      assert Visible(f.entries, k, s, y);
    }
  }

  // ----- the whole version -----

  /** No file in the levels before m holds a visible entry. */
  ghost predicate NothingAbove(v: Levels, m: nat, k: UserKey, s: nat) {
    forall l, t, e :: 0 <= l < m && l < NUM_LEVELS && t in v[l] ==> !Visible(t.entries, k, s, e)
  }

  /** A hit in level m is the newest of the version when nothing above has one and the
      other files of the level are outdone. */
  lemma HitDecides(v: Levels, m: nat, t: Table, k: UserKey, s: nat, e: Entry)
    requires LevelsOrdered(v) && NothingAbove(v, m, k, s) && m < NUM_LEVELS && t in v[m]
    requires Newest(t.entries, k, s, e)
    requires forall u, x :: u in v[m] && Visible(u.entries, k, s, x) ==> x.key.seqno <= e.key.seqno
    ensures Newest(TableEntries(v), k, s, e)
  {
    forall x | Visible(TableEntries(v), k, s, x) ensures x.key.seqno <= e.key.seqno {
      var l, u :| 0 <= l < NUM_LEVELS && u in v[l] && x in u.entries;
      assert Visible(u.entries, k, s, x);
      if l > m {
        assert Newer(t.entries, u.entries);
      }
    }
    assert Visible(TableEntries(v), k, s, e);
  }

  /** The first hit going through the level-0 files newest first. */
  lemma Level0HitDecides(v: Levels, tmp: Files, i: nat, k: UserKey, s: nat, e: Entry)
    requires LevelsOk(v) && NewestFirst(tmp) && i < |tmp| && (forall t :: t in tmp <==> t in v[0] && t.Covers(k))
    requires forall j, x :: 0 <= j < i ==> !Visible(tmp[j].entries, k, s, x)
    requires Newest(tmp[i].entries, k, s, e)
    ensures Newest(TableEntries(v), k, s, e)
  {
    hide TableEntries;
    var t := tmp[i];
    assert t in v[0];
    forall u, x | u in v[0] && Visible(u.entries, k, s, x) ensures x.key.seqno <= e.key.seqno {
      ValidTableRange(u);
      assert u in tmp;
      var j :| 0 <= j < |tmp| && tmp[j] == u;
      if u != t {
        assert j > i && t.number >= u.number;
        assert t.number != u.number;
        assert Newer(t.entries, u.entries);
      }
    }
    HitDecides(v, 0, t, k, s, e);
  }

  method GetLevel0(store: Store, v: Levels, ukey: Bytes, s: nat) returns (r: Lookup)
    requires LevelsOk(v) && store.Ok() && store.HoldsAll(v) && s <= MAX_SEQUENCE
    ensures r.Hit? ==> Newest(TableEntries(v), store.rank(ukey), s, r.e)
    ensures r.Miss? ==> NothingAbove(v, 1, store.rank(ukey), s)
  {
    hide TableEntries, Newest, LevelsOrdered, UniqueNumbers, Level0Ordered, NewestFirst, Store.Holds, Store.Ok;
    var k := store.rank(ukey);
    var tmp := Level0Candidates(v[0], k);
    for i := 0 to |tmp|
      invariant forall j, e :: 0 <= j < i ==> !Visible(tmp[j].entries, k, s, e)
    {
      assert tmp[i] in tmp;
      r := TableFiles.Get(store, tmp[i], ukey, s);
      if r.Hit? {
        Level0HitDecides(v, tmp, i, k, s, r.e);
        return;
      }
    }
    forall u, x | u in v[0] ensures !Visible(u.entries, k, s, x) {
      ValidTableRange(u);
      if u in tmp {
        var j :| 0 <= j < |tmp| && tmp[j] == u;
      }
    }
    r := Miss;
  }

  method GetSortedLevel(store: Store, v: Levels, m: nat, ukey: Bytes, s: nat) returns (r: Lookup)
    requires LevelsOk(v) && store.Ok() && store.HoldsAll(v) && s <= MAX_SEQUENCE
    requires 1 <= m < NUM_LEVELS && NothingAbove(v, m, store.rank(ukey), s)
    ensures r.Hit? ==> Newest(TableEntries(v), store.rank(ukey), s, r.e)
    ensures r.Miss? ==> NothingAbove(v, m + 1, store.rank(ukey), s)
  {
    hide Store.Holds, Store.Ok;
    var k := store.rank(ukey);
    var files := v[m];
    assert ValidFiles(files);
    ValidFilesHaveRanges(files);
    var index := FindFile(files, LookupKey(k, s));
    r := Miss;
    if index < |files| && k >= files[index].Lo() {
      assert files[index] in files;
      r := TableFiles.Get(store, files[index], ukey, s);
    }
    forall u, x | u in files && Visible(u.entries, k, s, x)
      ensures r.Hit? && x.key.seqno <= r.e.key.seqno
    {
      OneFileDecides(files, index, k, s, u, x);
    }
    if r.Hit? {
      HitDecides(v, m, files[index], k, s, r.e);
    }
  }

  lemma NothingAnywhere(v: Levels, k: UserKey, s: nat)
    requires NothingAbove(v, NUM_LEVELS, k, s)
    ensures forall e :: !Visible(TableEntries(v), k, s, e)
  {
    forall e | e in TableEntries(v) ensures !Visible(TableEntries(v), k, s, e) {
      var l, u :| 0 <= l < NUM_LEVELS && u in v[l] && e in u.entries;
      assert !Visible(u.entries, k, s, e);
    }
  }

  /** The bytes of one of the version's files hold entry e of the user key, seen at s. */
  ghost predicate SeenIn(store: Store, v: Levels, ukey: Bytes, s: nat, e: BlockFormat.Entry) {
    exists l: nat, t, b, i: nat :: SeenAt(store, v, ukey, s, e, l, t, b, i)
  }

  ghost predicate SeenAt(store: Store, v: Levels, ukey: Bytes, s: nat, e: BlockFormat.Entry, l: nat, t: Table, b: TableModel.Table, i: nat) {
    && l < NUM_LEVELS && t in v[l] && t.number in store.files && store.HoldsAs(t, b)
    && i < |b.blocks.entries| && b.blocks.entries[i] == e && Seen(e, ukey, s)
  }

  /** ... and every other one is older. */
  ghost predicate NewestSeen(store: Store, v: Levels, ukey: Bytes, s: nat, e: BlockFormat.Entry) {
    && SeenIn(store, v, ukey, s, e)
    && forall x :: SeenIn(store, v, ukey, s, x) ==> x == e || Comparators.Tag(x.key) / 256 < Comparators.Tag(e.key) / 256
  }

  lemma SeenIsVisible(store: Store, v: Levels, ukey: Bytes, s: nat, e: BlockFormat.Entry)
    requires store.Ok() && SeenIn(store, v, ukey, s, e)
    ensures Visible(TableEntries(v), store.rank(ukey), s, EntryOf(store.rank, e))
  {
    hide TableModel.IsTable, Store.Ok, TableEntries, Comparators.UserKey, Comparators.Tag;
    var l: nat, t, b, i: nat :| SeenAt(store, v, ukey, s, e, l, t, b, i);
    assert Listed(store.rank, b.blocks.entries)[i] == EntryOf(store.rank, e);
    assert EntryOf(store.rank, e) in t.entries;
  }

  lemma VisibleIsSeen(store: Store, v: Levels, ukey: Bytes, s: nat, x: Entry) returns (e: BlockFormat.Entry)
    requires store.Ok() && store.HoldsAll(v) && Visible(TableEntries(v), store.rank(ukey), s, x)
    ensures SeenIn(store, v, ukey, s, e) && x == EntryOf(store.rank, e)
  {
    hide TableModel.IsTable, TableEntries, Comparators.UserKey, Comparators.Tag, TableFormat.TableOptions.Sound,
      FilterBlock.HonestPolicy, FilterBlock.InternalPolicy, Comparators.Internal, Comparators.Honest, Ordered,
      GoodKeys;
    var l, t :| 0 <= l < NUM_LEVELS && t in v[l] && x in t.entries;
    assert store.Holds(t);
    var b :| store.HoldsAs(t, b);
    var es := Listed(store.rank, b.blocks.entries);
    var i :| 0 <= i < |es| && es[i] == x;
    e := b.blocks.entries[i];
    SameUserKey(store.user, store.rank, Comparators.UserKey(e.key), ukey);
    assert SeenAt(store, v, ukey, s, e, l, t, b, i);
  }

  /** A lookup that answers on the entries of the version answers on the bytes of its files. */
  lemma AnswersVersionBytes(store: Store, v: Levels, ukey: Bytes, s: nat, r: Lookup)
    requires store.Ok() && store.HoldsAll(v) && Answers(r, TableEntries(v), store.rank(ukey), s)
    ensures forall e :: NewestSeen(store, v, ukey, s, e) ==> AnswersWith(r, e)
    ensures (forall e :: !SeenIn(store, v, ukey, s, e)) ==> r.Miss?
  {
    hide Store.Ok, Store.HoldsAll, TableEntries, SeenIn, Comparators.UserKey, Comparators.Tag, Seen;
    if r.Hit? {
      var x := VisibleIsSeen(store, v, ukey, s, r.e);
    }
    forall e | NewestSeen(store, v, ukey, s, e) ensures AnswersWith(r, e) {
      SeenIsVisible(store, v, ukey, s, e);
      assert r.Hit?;
      var x := VisibleIsSeen(store, v, ukey, s, r.e);
      AnswerOfBytes(store.rank, x);
    }
  }

  /** The early-exit search of a version finds the newest visible entry of all its files,
      each read from its bytes, and answers with the value these bytes spell. */
  method Get(store: Store, v: Levels, ukey: Bytes, s: nat) returns (r: Lookup)
    requires LevelsOk(v) && store.Ok() && store.HoldsAll(v) && s <= MAX_SEQUENCE
    ensures Answers(r, TableEntries(v), store.rank(ukey), s)
    ensures forall e :: NewestSeen(store, v, ukey, s, e) ==> AnswersWith(r, e)
    ensures (forall e :: !SeenIn(store, v, ukey, s, e)) ==> r.Miss?
  {
    hide Store.Holds, Store.HoldsAll, Store.Ok, SeenIn, NewestSeen, AnswersWith;
    var k := store.rank(ukey);
    r := GetLevel0(store, v, ukey, s);
    var m := 1;
    while m < NUM_LEVELS && r.Miss?
      invariant 1 <= m <= NUM_LEVELS
      invariant r.Hit? ==> Newest(TableEntries(v), k, s, r.e)
      invariant r.Miss? ==> NothingAbove(v, m, k, s)
    {
      r := GetSortedLevel(store, v, m, ukey, s);
      m := m + 1;
    }
    if r.Miss? {
      NothingAnywhere(v, k, s);
    }
    AnswersVersionBytes(store, v, ukey, s, r);
  }
}

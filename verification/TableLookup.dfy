/** Why reading one data block is enough. */
module TableLookup {
  import opened Options
  import opened Coding
  import opened BlockFormat
  import opened BlockIter
  import opened Comparators
  import opened FilterBlock
  import opened TableFormat
  import opened TableModel

  ghost predicate Usable(cmp: Comparator) {
    Transitive(cmp.less) && Weak(cmp.less) && Separates(cmp) && Succeeds(cmp)
  }

  lemma {:induction false} EndsAscend(b: Blocks, i: nat, j: nat)
    requires b.Cut() && i < j < |b.ends|
    ensures b.ends[i] <= b.Begin(j) < b.ends[j] <= |b.entries|
  {
    assert b.CutAt(j);
    if i < j - 1 {
      EndsAscend(b, i, j - 1);
    }
  }

  /** A separator is not before the last entry of its block, and before the next entry. */
  lemma SeparatorBetween(cmp: Comparator, b: Blocks, index: seq<Entry>, i: nat)
    requires Usable(cmp) && Ascending(cmp.less, b.entries) && b.IndexedAt(cmp, index, i)
    ensures !cmp.less(index[i].key, b.entries[b.ends[i] - 1].key)
    ensures b.ends[i] < |b.entries| ==> cmp.less(index[i].key, b.entries[b.ends[i]].key)
  {
    hide EncodeHandle;
  }

  lemma IndexAscends(cmp: Comparator, b: Blocks, index: seq<Entry>)
    requires Usable(cmp) && Ascending(cmp.less, b.entries) && AllIndexed(cmp, b, index)
    ensures Ascending(cmp.less, index)
  {
    hide Blocks.Cut;
    forall i, j | 0 <= i < j < |index| ensures cmp.less(index[i].key, index[j].key) {
      EndsAscend(b, i, j);
      assert b.IndexedAt(cmp, index, i) && b.IndexedAt(cmp, index, j);
      SeparatorBetween(cmp, b, index, i);
      SeparatorBetween(cmp, b, index, j);
      var next, last := b.entries[b.ends[i]].key, b.entries[b.ends[j] - 1].key;
      assert next == last || cmp.less(next, last);
      assert cmp.less(index[i].key, last);
    }
  }

  /** The place of a key among all entries lies in the block the index seek finds, or just
      behind it. */
  lemma BlockOfKey(cmp: Comparator, b: Blocks, index: seq<Entry>, k: Bytes, i: nat, p: nat)
    requires Usable(cmp) && Ascending(cmp.less, b.entries) && AllIndexed(cmp, b, index)
    requires IsSeekPos(cmp.less, index, k, i) && IsSeekPos(cmp.less, b.entries, k, p)
    ensures i == |index| ==> p == |b.entries|
    ensures i < |index| ==> b.CutAt(i) && b.Begin(i) <= p <= b.ends[i]
  {
    hide Blocks.Cut;
    if i > 0 {
      assert b.IndexedAt(cmp, index, i - 1);
      SeparatorBetween(cmp, b, index, i - 1);
      var last := b.entries[b.ends[i - 1] - 1].key;
      assert cmp.less(index[i - 1].key, k);
      assert cmp.less(last, k);
      assert b.ends[i - 1] <= p;
    }
    if i < |index| {
      assert b.IndexedAt(cmp, index, i);
      SeparatorBetween(cmp, b, index, i);
      assert b.CutAt(i) by {
        CutEverywhere(b, i);
      }
    }
  }

  lemma CutEverywhere(b: Blocks, i: nat)
    requires b.Cut() && i < |b.ends|
    ensures b.CutAt(i)
  {
  }

  /** Seeking in the block finds the place of the key, counted from the block's beginning. */
  lemma PlaceInBlock(cmp: Comparator, b: Blocks, k: Bytes, i: nat, p: nat, q: nat)
    requires b.CutAt(i) && b.Begin(i) <= p <= b.ends[i]
    requires IsSeekPos(cmp.less, b.entries, k, p) && IsSeekPos(cmp.less, b.layouts[i].entries, k, q)
    ensures q == p - b.Begin(i)
    ensures q < |b.layouts[i].entries| ==> b.layouts[i].entries[q] == b.entries[p]
  {
    var es := b.layouts[i].entries;
    assert forall j :: 0 <= j < |es| ==> es[j] == b.entries[b.Begin(i) + j];
    assert q < |es| ==> es[q] == b.entries[b.Begin(i) + q];
  }

  /** A key between a block and its separator is not followed by an entry of its user key. */
  lemma NoUserKeyBehind(user: Comparator, b: Blocks, index: seq<Entry>, k: Bytes, i: nat)
    requires Honest(user) && Ascending(Internal(user).less, b.entries) && b.IndexedAt(Internal(user), index, i)
    requires InternalLess(user.less, b.entries[b.ends[i] - 1].key, k) && !InternalLess(user.less, index[i].key, k)
    requires b.ends[i] < |b.entries|
    ensures UserKey(b.entries[b.ends[i]].key) != UserKey(k)
  {
    hide EncodeHandle, Tag;
    InternalSeparator(user, b.entries[b.ends[i] - 1].key, b.entries[b.ends[i]].key);
  }

  lemma InternalUsable(user: Comparator)
    requires Honest(user)
    ensures Usable(Internal(user))
  {
    InternalSeparates(user);
    InternalWeak(user);
  }

  // ----- the answer of a lookup -----

  /** What a lookup may find when p is the place of the key: the entry there, and nothing
      only if that entry is of another user key. */
  ghost predicate Answers(found: Option<Entry>, entries: seq<Entry>, k: Bytes, p: nat) {
    && (found.Some? ==> p < |entries| && found.value == entries[p])
    && (p < |entries| && UserKey(entries[p].key) == UserKey(k) ==> found.Some?)
  }

  /** What a lookup does: nothing behind the last separator, nothing when the filter says so,
      otherwise the entry the block seek finds. */
  function LookupIn(b: Blocks, i: nat, says: bool, q: nat): Option<Entry>
    requires |b.ends| == |b.layouts|
  {
    if i < |b.ends| && says && q < |b.layouts[i].entries| then Some(b.layouts[i].entries[q]) else None
  }

  lemma BehindBlock(user: Comparator, b: Blocks, index: seq<Entry>, k: Bytes, i: nat)
    requires Honest(user) && Ascending(Internal(user).less, b.entries) && AllIndexed(Internal(user), b, index) && i < |index|
    requires IsSeekPos(Internal(user).less, index, k, i) && IsSeekPos(Internal(user).less, b.entries, k, b.ends[i])
    requires b.ends[i] < |b.entries|
    ensures UserKey(b.entries[b.ends[i]].key) != UserKey(k)
  {
    hide Blocks.Separator, EncodeHandle, Tag, UserKey, Honest, Blocks.Cut;
    assert b.IndexedAt(Internal(user), index, i);
    NoUserKeyBehind(user, b, index, k, i);
  }

  lemma FilterMatches(user: Policy, filter: Bytes, b: Blocks, k: Bytes, i: nat, p: nat)
    requires HonestPolicy(user) && FilterCovers(InternalPolicy(user), filter, b)
    requires i < |b.ends| && b.CutAt(i) && b.Begin(i) <= p < b.ends[i] && UserKey(b.entries[p].key) == UserKey(k)
    ensures NewReader(InternalPolicy(user), filter).KeyMayMatch(b.handles[i].offset, k)
  {
    hide NewReader, UserKey, InternalPolicy;
    var key := b.entries[p].key;
    forall keys | key in keys ensures InternalPolicy(user).mayMatch(k, InternalPolicy(user).create(keys)) {
      InternalPolicyMatches(user, keys, key, k);
    }
    assert StandsFor(InternalPolicy(user), key, k);
  }

  lemma LookupAnswers(user: Comparator, b: Blocks, index: seq<Entry>, k: Bytes, i: nat, p: nat, says: bool, q: nat)
    requires Honest(user) && Ascending(Internal(user).less, b.entries) && AllIndexed(Internal(user), b, index)
    requires IsSeekPos(Internal(user).less, index, k, i) && IsSeekPos(Internal(user).less, b.entries, k, p)
    requires i < |index| && says ==> b.CutAt(i) && IsSeekPos(Internal(user).less, b.layouts[i].entries, k, q)
    requires i < |index| && !says && b.CutAt(i) && b.Begin(i) <= p < b.ends[i] ==> UserKey(b.entries[p].key) != UserKey(k)
    requires i <= |index| && p <= |b.entries|
    ensures |b.ends| == |b.layouts| && Answers(LookupIn(b, i, says, q), b.entries, k, p)
  {
    hide Blocks.Separator, EncodeHandle, Internal, UserKey, Honest, IsSeekPos, Ascending, Blocks.CutAt;
    InternalUsable(user);
    BlockOfKey(Internal(user), b, index, k, i, p);
    if i < |index| {
      CutLengths(b, i);
      if says {
        PlaceInBlock(Internal(user), b, k, i, p, q);
      }
      if p == b.ends[i] && p < |b.entries| {
        BehindBlock(user, b, index, k, i);
      }
    }
  }

  lemma CutLengths(b: Blocks, i: nat)
    requires b.CutAt(i)
    ensures b.Begin(i) < b.ends[i] <= |b.entries| && |b.layouts[i].entries| == b.ends[i] - b.Begin(i)
  {
  }
}

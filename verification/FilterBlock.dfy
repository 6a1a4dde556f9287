/** The filter block of a table: one filter for the keys of the data blocks that begin in
    each stretch of 2048 bytes. */
module FilterBlock {
  import opened Coding
  import opened Comparators
  import opened DivMod

  datatype Policy = Policy(create: seq<Bytes> -> Bytes, mayMatch: (Bytes, Bytes) -> bool)

  /** A filter made from some keys matches each of them. */
  ghost predicate HonestPolicy(p: Policy) {
    forall keys, k :: k in keys ==> p.mayMatch(k, p.create(keys))
  }

  function UserKeys(keys: seq<Bytes>): (us: seq<Bytes>)
    ensures |us| == |keys| && forall i :: 0 <= i < |keys| ==> us[i] == UserKey(keys[i])
  {
    seq(|keys|, i requires 0 <= i < |keys| => UserKey(keys[i]))
  }

  /** A user's policy sees user keys only. */
  function InternalPolicy(user: Policy): Policy {
    Policy(keys => user.create(UserKeys(keys)), (key, filter) => user.mayMatch(UserKey(key), filter))
  }

  lemma InternalPolicyMatches(user: Policy, keys: seq<Bytes>, k: Bytes, key: Bytes)
    requires HonestPolicy(user) && k in keys && UserKey(k) == UserKey(key)
    ensures InternalPolicy(user).mayMatch(key, InternalPolicy(user).create(keys))
  {
    var i :| 0 <= i < |keys| && keys[i] == k;
    assert UserKeys(keys)[i] == UserKey(key);
  }

  const FILTER_BASE_LG := 11
  const FILTER_BASE := 2048

  // ----- the bytes -----

  function Flatten(keys: seq<Bytes>): Bytes {
    if keys == [] then [] else Flatten(keys[..|keys| - 1]) + keys[|keys| - 1]
  }

  /** Where each key begins in the flattened list. */
  ghost function Starts(keys: seq<Bytes>): (ss: seq<nat>)
    ensures |ss| == |keys|
  {
    seq(|keys|, i requires 0 <= i < |keys| => |Flatten(keys[..i])|)
  }

  lemma EmptyIsFlat()
    ensures Flatten([]) == [] && Starts([]) == []
  {
  }

  lemma FlattenNext(keys: seq<Bytes>, i: nat)
    requires i < |keys|
    ensures Flatten(keys[..i + 1]) == Flatten(keys[..i]) + keys[i]
  {
    assert keys[..i + 1][..i] == keys[..i];
  }

  lemma {:induction false} FlattenPrefix(keys: seq<Bytes>, i: nat, j: nat)
    requires i <= j <= |keys|
    ensures Flatten(keys[..i]) <= Flatten(keys[..j])
    decreases j
  {
    if i < j {
      FlattenPrefix(keys, i, j - 1);
      FlattenNext(keys, j - 1);
    }
  }

  lemma SliceIsKey(keys: seq<Bytes>, i: nat)
    requires i < |keys|
    ensures |Flatten(keys[..i])| <= |Flatten(keys[..i + 1])| <= |Flatten(keys)|
    ensures Flatten(keys)[|Flatten(keys[..i])|..|Flatten(keys[..i + 1])|] == keys[i]
  {
    hide Flatten;
    FlattenNext(keys, i);
    FlattenPrefix(keys, i + 1, |keys|);
    assert keys[..|keys|] == keys;
    var a, b := Flatten(keys[..i]), Flatten(keys[..i + 1]);
    assert Flatten(keys)[|a|..|b|] == Flatten(keys)[..|b|][|a|..] == keys[i];
  }

  function FilterOf(p: Policy, keys: seq<Bytes>): Bytes {
    if keys == [] then [] else p.create(keys)
  }

  ghost function FiltersOf(p: Policy, filters: seq<seq<Bytes>>): (fs: seq<Bytes>)
    ensures |fs| == |filters| && forall i :: 0 <= i < |filters| ==> fs[i] == FilterOf(p, filters[i])
  {
    seq(|filters|, i requires 0 <= i < |filters| => FilterOf(p, filters[i]))
  }

  /** The finished block: the filters, their offsets, the length of the filters, and the
      base. */
  function BlockOf(data: Bytes, offsets: seq<uint32>): Bytes {
    Fixed32sFit(offsets);
    data + Fixed32Array(offsets) + EncodeFixed32(|data| % TWO_32) + [FILTER_BASE_LG]
  }

  lemma Fixed32sFit(offsets: seq<uint32>)
    ensures AllFit(offsets)
  {
  }

  // ----- reading -----

  function ShiftRight(n: nat, k: nat): nat {
    if k == 0 then n else ShiftRight(n / 2, k - 1)
  }

  function Power2(k: nat): (p: nat)
    ensures p > 0
  {
    if k == 0 then 1 else 2 * Power2(k - 1)
  }

  lemma {:induction false} ShiftIsDivision(n: nat, k: nat)
    ensures ShiftRight(n, k) == n / Power2(k)
  {
    if k > 0 {
      ShiftIsDivision(n / 2, k - 1);
      DivTwice(n, 2, Power2(k - 1));
    }
  }

  lemma ShiftByBase(n: nat)
    ensures ShiftRight(n, FILTER_BASE_LG) == n / FILTER_BASE
  {
    ShiftIsDivision(n, FILTER_BASE_LG);
    assert Power2(6) == 64;
    assert Power2(11) == 32 * Power2(6);
  }

  function WordAt(data: Bytes, pos: nat): uint32
    requires pos + 4 <= |data|
  {
    DecodeFixed32(data[pos..pos + 4])
  }

  /** The filters of a block: its bytes, where the offset array begins and how many filters
      there are. */
  datatype Reader = Reader(policy: Policy, data: Bytes, offset: nat, num: nat, baseLg: nat)
  {
    ghost predicate Ok() {
      num > 0 ==> offset + 4 * num + 5 <= |data|
    }

    /** Could the block at this offset hold the key?  Errors count as yes. */
    predicate KeyMayMatch(blockOffset: nat, key: Bytes)
      requires Ok()
    {
      var index := ShiftRight(blockOffset, baseLg);
      if index < num then
        var start := WordAt(data, offset + index * 4);
        var limit := WordAt(data, offset + index * 4 + 4);
        if start <= limit <= offset then policy.mayMatch(key, data[start..limit]) else start != limit
      else
        true
    }
  }

  function NewReader(policy: Policy, contents: Bytes): (r: Reader)
    ensures r.Ok()
  {
    var n := |contents|;
    if n < 5 then Reader(policy, [], 0, 0, 0)
    else
      var lastWord := WordAt(contents, n - 5);
      if lastWord > n - 5 then Reader(policy, [], 0, 0, contents[n - 1])
      else Reader(policy, contents, lastWord, (n - 5 - lastWord) / 4, contents[n - 1])
  }

  // ----- what the builder has made so far -----

  ghost predicate Built(p: Policy, filters: seq<seq<Bytes>>, data: Bytes, offsets: seq<uint32>) {
    && |offsets| == |filters| && data == Flatten(FiltersOf(p, filters))
    && forall i :: 0 <= i < |filters| ==> offsets[i] == Starts(FiltersOf(p, filters))[i] % TWO_32
  }

  /** A key of the block at an offset is in the filter for that offset, or waits for it. */
  ghost predicate KeyIn(filters: seq<seq<Bytes>>, pending: seq<Bytes>, offset: nat, key: Bytes) {
    var i := offset / FILTER_BASE;
    if i < |filters| then key in filters[i] else i == |filters| && key in pending
  }

  lemma BuiltNext(p: Policy, filters: seq<seq<Bytes>>, data: Bytes, offsets: seq<uint32>, keys: seq<Bytes>)
    requires Built(p, filters, data, offsets)
    ensures Built(p, filters + [keys], data + FilterOf(p, keys), offsets + [|data| % TWO_32])
  {
    var fs, fs' := FiltersOf(p, filters), FiltersOf(p, filters + [keys]);
    assert fs' == fs + [FilterOf(p, keys)];
    assert fs'[..|fs|] == fs;
    forall i | 0 <= i < |fs'| ensures (offsets + [|data| % TWO_32])[i] == Starts(fs')[i] % TWO_32 {
      if i < |fs| {
        assert fs'[..i] == fs[..i];
      }
    }
  }

  /** Filter i lies between its offset and the next, or the end. */
  lemma FilterAt(p: Policy, filters: seq<seq<Bytes>>, data: Bytes, offsets: seq<uint32>, i: nat)
    requires Built(p, filters, data, offsets) && |data| < TWO_32 && i < |filters|
    ensures
      var limit := if i + 1 < |filters| then offsets[i + 1] else |data|;
      offsets[i] <= limit <= |data| && data[offsets[i]..limit] == FilterOf(p, filters[i])
  {
    hide Flatten;
    var fs := FiltersOf(p, filters);
    SliceIsKey(fs, i);
    assert fs[..|fs|] == fs;
    assert Starts(fs)[i] == |Flatten(fs[..i])|;
    assert i + 1 < |fs| ==> Starts(fs)[i + 1] == |Flatten(fs[..i + 1])|;
  }

  /** The offset array, as the reader sees it. */
  lemma OffsetAt(data: Bytes, offsets: seq<uint32>, i: nat)
    requires i < |offsets|
    ensures |BlockOf(data, offsets)| == |data| + 4 * |offsets| + 5
    ensures WordAt(BlockOf(data, offsets), |data| + i * 4) == offsets[i]
  {
    hide EncodeFixed32, DecodeFixed32, Fixed32Array;
    var contents, m, array' := BlockOf(data, offsets), |offsets|, Fixed32Array(offsets);
    assert contents == data + (array' + (EncodeFixed32(|data| % TWO_32) + [FILTER_BASE_LG]));
    Fixed32At(offsets, i);
    Fixed32RoundTrip(offsets[i]);
    assert contents[|data| + i * 4..|data| + i * 4 + 4] == array'[4 * i..4 * i + 4];
  }

  /** What follows the offset array. */
  lemma BlockEnd(data: Bytes, offsets: seq<uint32>)
    requires |data| < TWO_32
    ensures
      var contents := BlockOf(data, offsets);
      var n := |contents|;
      && n == |data| + 4 * |offsets| + 5 && contents[n - 1] == FILTER_BASE_LG && contents[..|data|] == data
      && WordAt(contents, n - 5) == |data|
  {
    hide EncodeFixed32, DecodeFixed32, Fixed32Array;
    var contents, m := BlockOf(data, offsets), |offsets|;
    Fixed32RoundTrip(|data|);
    assert contents[|data| + 4 * m..|data| + 4 * m + 4] == EncodeFixed32(|data|);
  }

  /** Any filter made from the added key has to match the looked-up one. */
  ghost predicate StandsFor(p: Policy, added: Bytes, key: Bytes) {
    forall keys :: added in keys ==> p.mayMatch(key, p.create(keys))
  }

  /** The reader asks the filter of the stretch the offset lies in, whatever it holds. */
  lemma FilterAsked(p: Policy, filters: seq<seq<Bytes>>, data: Bytes, offsets: seq<uint32>, offset: nat, key: Bytes)
    requires Built(p, filters, data, offsets) && |data| < TWO_32 && offset / FILTER_BASE < |filters|
    ensures NewReader(p, BlockOf(data, offsets)).KeyMayMatch(offset, key)
      <==> p.mayMatch(key, FilterOf(p, filters[offset / FILTER_BASE]))
  {
    hide WordAt, BlockOf, Built, ShiftRight;
    var i := offset / FILTER_BASE;
    BuiltCounts(p, filters, data, offsets);
    ShiftByBase(offset);
    BlockEnd(data, offsets);
    OffsetAt(data, offsets, i);
    if i + 1 < |offsets| {
      OffsetAt(data, offsets, i + 1);
    }
    FilterAt(p, filters, data, offsets, i);
    var r := NewReader(p, BlockOf(data, offsets));
    assert r.data[offsets[i]..if i + 1 < |filters| then offsets[i + 1] else |data|] == FilterOf(p, filters[i]);
  }

  /** The reader asks the filter the key is in. */
  lemma KeyFound(p: Policy, filters: seq<seq<Bytes>>, data: Bytes, offsets: seq<uint32>, offset: nat, added: Bytes, key: Bytes)
    requires Built(p, filters, data, offsets) && |data| < TWO_32 && KeyIn(filters, [], offset, added) && StandsFor(p, added, key)
    ensures NewReader(p, BlockOf(data, offsets)).KeyMayMatch(offset, key)
  {
    hide Built, NewReader, BlockOf;
    FilterAsked(p, filters, data, offsets, offset, key);
  }

  /** A stretch without keys has an empty filter.  It rules out every key exactly when the
      policy refuses the empty filter; the reader itself does not. */
  lemma EmptyFilterRefusesIff(p: Policy, filters: seq<seq<Bytes>>, data: Bytes, offsets: seq<uint32>, offset: nat)
    requires Built(p, filters, data, offsets) && |data| < TWO_32
    requires offset / FILTER_BASE < |filters| && filters[offset / FILTER_BASE] == []
    ensures (forall key :: !NewReader(p, BlockOf(data, offsets)).KeyMayMatch(offset, key)) <==> (forall key :: !p.mayMatch(key, []))
    ensures forall key :: NewReader(p, BlockOf(data, offsets)).KeyMayMatch(offset, key) <==> p.mayMatch(key, [])
  {
    hide Built, NewReader, BlockOf;
    forall key ensures NewReader(p, BlockOf(data, offsets)).KeyMayMatch(offset, key) <==> p.mayMatch(key, []) {
      FilterAsked(p, filters, data, offsets, offset, key);
    }
  }

  /** A policy that never rules anything out, and needs no filter for that. */
  function MatchAll(): Policy {
    Policy(keys => [], (key, filter) => true)
  }

  /** With an honest policy an empty filter may match every key. */
  lemma EmptyFilterMatches(key: Bytes)
    ensures
      var p := MatchAll();
      && HonestPolicy(p) && Built(p, [[]], [], [0])
      && NewReader(p, BlockOf([], [0])).KeyMayMatch(0, key)
  {
    hide NewReader, BlockOf;
    var p := MatchAll();
    var fs := FiltersOf(p, [[]]);
    assert fs == [[]] && fs[..0] == [];
    assert Flatten(fs) == [] && Starts(fs)[0] == 0;
    FilterAsked(p, [[]], [], [0], 0, key);
  }

  // ----- how large the filters get -----

  function KeyCount(filters: seq<seq<Bytes>>): nat {
    if filters == [] then 0 else KeyCount(filters[..|filters| - 1]) + |filters[|filters| - 1]|
  }

  lemma KeyCountNext(filters: seq<seq<Bytes>>, keys: seq<Bytes>)
    ensures KeyCount(filters + [keys]) == KeyCount(filters) + |keys|
  {
    assert (filters + [keys])[..|filters|] == filters;
  }

  /** A filter takes no more than so many bytes for each of its keys. */
  ghost predicate Cheap(p: Policy, perKey: nat) {
    forall keys :: keys != [] ==> |p.create(keys)| <= perKey * |keys|
  }

  lemma CheapFilter(p: Policy, perKey: nat, keys: seq<Bytes>)
    requires Cheap(p, perKey)
    ensures |FilterOf(p, keys)| <= perKey * |keys|
  {
  }

  lemma {:induction false} FlattenCost(p: Policy, perKey: nat, filters: seq<seq<Bytes>>)
    requires Cheap(p, perKey)
    ensures |Flatten(FiltersOf(p, filters))| <= perKey * KeyCount(filters)
  {
    hide Cheap;
    var fs := FiltersOf(p, filters);
    if filters != [] {
      var front, last := filters[..|filters| - 1], filters[|filters| - 1];
      FlattenCost(p, perKey, front);
      assert fs[..|fs| - 1] == FiltersOf(p, front);
      CheapFilter(p, perKey, last);
      Distribute(KeyCount(front), |last|, perKey);
    }
  }

  /** The finished block: no more than its filters, an offset for each of them, and five
      bytes. */
  lemma FilterBlockSize(p: Policy, perKey: nat, filters: seq<seq<Bytes>>, data: Bytes, offsets: seq<uint32>)
    requires Built(p, filters, data, offsets) && Cheap(p, perKey)
    ensures |BlockOf(data, offsets)| <= perKey * KeyCount(filters) + 4 * |filters| + 5
  {
    hide Cheap, Flatten;
    FlattenCost(p, perKey, filters);
    Fixed32sFit(offsets);
  }

  // ----- building -----

  class FilterBlockBuilder {
    const policy: Policy
    var keys: Bytes
    var start: seq<nat>
    var result: Bytes
    var filterOffsets: seq<uint32>
    ghost var pending: seq<Bytes>
    ghost var filters: seq<seq<Bytes>>
    ghost var blockOffset: nat
    ghost var added: set<(nat, Bytes)>

    ghost predicate Consistent()
      reads this
    {
      && keys == Flatten(pending) && start == Starts(pending)
      && Built(policy, filters, result, filterOffsets)
      && forall a :: a in added ==> KeyIn(filters, pending, a.0, a.1)
    }

    ghost predicate Valid()
      reads this
    {
      Consistent() && |filters| == blockOffset / FILTER_BASE
    }

    /** How many keys were added. */
    ghost function Count(): nat
      reads this
    {
      KeyCount(filters) + |pending|
    }

    constructor (policy: Policy)
      ensures Valid() && this.policy == policy && blockOffset == 0 && added == {} && result == [] && Count() == 0
    {
      this.policy := policy;
      keys, start, result, filterOffsets := [], [], [], [];
      pending, filters, blockOffset, added := [], [], 0, {};
    }

    /** A data block begins at the offset: the keys so far belong to the blocks before. */
    method StartBlock(blockOffset: nat)
      requires Valid() && this.blockOffset <= blockOffset
      modifies this
      ensures Valid() && this.blockOffset == blockOffset && added == old(added) && Count() == old(Count())
    {
      hide Built, KeyIn;
      BuiltCounts(policy, filters, result, filterOffsets);
      var filterIndex := blockOffset / FILTER_BASE;
      while filterIndex > |filterOffsets|
        invariant Consistent() && |filters| == |filterOffsets| <= filterIndex && added == old(added) && Count() == old(Count())
      {
        GenerateFilter();
        BuiltCounts(policy, filters, result, filterOffsets);
      }
      this.blockOffset := blockOffset;
    }

    method AddKey(key: Bytes)
      requires Valid()
      modifies this
      ensures Valid() && blockOffset == old(blockOffset) && added == old(added) + {(blockOffset, key)} && Count() == old(Count()) + 1
    {
      hide Built;
      start := start + [|keys|];
      keys := keys + key;
      ghost var before := pending;
      pending := pending + [key];
      added := added + {(blockOffset, key)};
      assert pending[..|before|] == before;
      assert forall i :: 0 <= i < |before| ==> pending[..i] == before[..i];
    }

    method GenerateFilter()
      requires Consistent()
      modifies this
      ensures Consistent() && pending == [] && filters == old(filters + [pending]) && added == old(added) && Count() == old(Count())
    {
      hide Built, Flatten;
      EmptyIsFlat();
      var numKeys := |start|;
      ghost var was := pending;
      KeyCountNext(filters, pending);
      BuiltNext(policy, filters, result, filterOffsets, pending);
      filters, pending := filters + [pending], [];
      if numKeys == 0 {
        filterOffsets := filterOffsets + [|result| % TWO_32];
        assert result + [] == result;
        return;
      }
      start := start + [|keys|];
      var tmpKeys: seq<Bytes> := [];
      for i := 0 to numKeys
        modifies {}
        invariant tmpKeys == was[..i]
      {
        SliceIsKey(was, i);
        assert was[..|was|] == was;
        assert start[i] == |Flatten(was[..i])| && start[i + 1] == |Flatten(was[..i + 1])|;
        tmpKeys := tmpKeys + [keys[start[i]..start[i + 1]]];
        assert was[..i + 1] == was[..i] + [was[i]];
      }
      assert was[..|was|] == was;
      filterOffsets := filterOffsets + [|result| % TWO_32];
      result := result + policy.create(tmpKeys);
      keys, start := [], [];
    }

    /** The finished block matches every added key at the offset of its block, as long as
        the filters' length fits in 32 bits. */
    method Finish() returns (contents: Bytes)
      requires Valid()
      modifies this
      ensures added == old(added)
      ensures contents == result && (|result| < TWO_32 ==> Covers(policy, contents, added))
      ensures forall perKey: nat :: Cheap(policy, perKey) ==>
        |contents| <= perKey * old(Count()) + 4 * (old(blockOffset) / FILTER_BASE + 1) + 5
    {
      hide Built, KeyIn;
      if start != [] {
        GenerateFilter();
      }
      ghost var data := result;
      var arrayOffset := |result| % TWO_32;
      var offsets := filterOffsets;
      Fixed32Start(data);
      for i := 0 to |offsets|
        modifies this`result
        invariant AllFit(offsets[..i]) && AllFit(offsets)
        invariant result == data + Fixed32Array(offsets[..i])
      {
        Fixed32Next(data, offsets, i);
        result := result + EncodeFixed32(offsets[i]);
      }
      assert offsets[..|offsets|] == offsets;
      result := result + EncodeFixed32(arrayOffset);
      result := result + [FILTER_BASE_LG];
      contents := result;
      forall perKey: nat | Cheap(policy, perKey)
        ensures |contents| <= perKey * old(Count()) + 4 * (old(blockOffset) / FILTER_BASE + 1) + 5
      {
        FilterBlockSize(policy, perKey, filters, data, filterOffsets);
      }
      if |data| < TWO_32 {
        CoversAll(policy, filters, data, filterOffsets, added);
      }
    }
  }

  lemma BuiltCounts(p: Policy, filters: seq<seq<Bytes>>, data: Bytes, offsets: seq<uint32>)
    requires Built(p, filters, data, offsets)
    ensures |offsets| == |filters|
  {
  }

  /** Every added key, and every key it stands for, may match at the offset it was added at. */
  ghost predicate Covers(p: Policy, contents: Bytes, added: set<(nat, Bytes)>) {
    forall a, key :: a in added && StandsFor(p, a.1, key) ==> NewReader(p, contents).KeyMayMatch(a.0, key)
  }

  lemma CoversAll(p: Policy, filters: seq<seq<Bytes>>, data: Bytes, offsets: seq<uint32>, added: set<(nat, Bytes)>)
    requires Built(p, filters, data, offsets) && |data| < TWO_32 && forall a :: a in added ==> KeyIn(filters, [], a.0, a.1)
    ensures Covers(p, BlockOf(data, offsets), added)
  {
    hide Built, KeyIn, BlockOf, StandsFor, NewReader;
    forall a, key | a in added && StandsFor(p, a.1, key) ensures NewReader(p, BlockOf(data, offsets)).KeyMayMatch(a.0, key) {
      KeyFound(p, filters, data, offsets, a.0, a.1, key);
    }
  }
}

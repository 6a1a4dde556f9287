/** Building a block entry by entry. */
module BlockBuilder {
  import opened Coding
  import opened BlockFormat

  /** Restart points are this far apart. */
  ghost predicate Spaced(l: Layout, interval: nat) {
    forall j :: 0 < j < |l.restarts| ==> l.restarts[j] == l.restarts[j - 1] + interval
  }

  /** Every entry between restart points shares as much as it can. */
  ghost predicate SharesAll(l: Layout)
    requires |l.entries| == |l.shared|
  {
    forall i: nat :: 0 < i < |l.entries| && i !in l.restarts ==>
      l.shared[i] == CommonPrefix(l.entries[i - 1].key, l.entries[i].key)
  }

  function LastKey(l: Layout): Bytes {
    if l.entries == [] then [] else l.entries[|l.entries| - 1].key
  }

  class Builder {
    const restartInterval: nat
    var buffer: Bytes
    var restarts: seq<nat>
    var counter: nat
    var finished: bool
    var lastKey: Bytes
    ghost var layout: Layout

    ghost predicate Valid()
      reads this
    {
      && restartInterval >= 1 && Good(layout) && Spaced(layout, restartInterval) && SharesAll(layout)
      && restarts == RestartOffsets(layout)
      && counter == |layout.entries| - layout.restarts[|layout.restarts| - 1] <= restartInterval
      && lastKey == LastKey(layout)
      && (!finished ==> buffer == Data(layout, |layout.entries|))
    }

    constructor (restartInterval: nat)
      requires restartInterval >= 1
      ensures Valid() && !finished && this.restartInterval == restartInterval && layout.entries == []
    {
      this.restartInterval := restartInterval;
      buffer, restarts, counter, finished, lastKey := [], [0], 0, false, [];
      layout := Layout([], [], [0]);
    }

    predicate Empty()
      reads this
    {
      buffer == []
    }

    lemma EmptyHasNothing()
      requires Valid() && !finished
      ensures Empty() <==> layout.entries == []
    {
      if layout.entries != [] {
        DataNext(layout, |layout.entries| - 1);
      }
    }

    function CurrentSizeEstimate(): nat
      reads this
    {
      |buffer| + 4 * |restarts| + 4
    }

    lemma EstimateBound()
      requires Valid() && !finished && SizeBound(layout.entries) < TWO_32
      ensures CurrentSizeEstimate() <= SizeBound(layout.entries)
    {
      WithinBound(layout);
    }

    /** Forgets everything, for the next block. */
    method Reset()
      requires Valid()
      modifies this
      ensures Valid() && !finished && layout.entries == []
    {
      buffer, restarts, counter, finished, lastKey := [], [0], 0, false, [];
      layout := Layout([], [], [0]);
    }

    /** How much of a key the key before already has. */
    method CountShared(key: Bytes) returns (shared: nat)
      ensures shared == CommonPrefix(lastKey, key)
    {
      shared := 0;
      var minLength := if |lastKey| < |key| then |lastKey| else |key|;
      while shared < minLength && lastKey[shared] == key[shared]
        invariant shared <= minLength && lastKey[..shared] == key[..shared]
      {
        assert lastKey[..shared + 1] == lastKey[..shared] + [lastKey[shared]];
        assert key[..shared + 1] == key[..shared] + [key[shared]];
        shared := shared + 1;
      }
      CommonPrefixUnique(lastKey, key, shared);
    }

    /** Appends an entry whose key comes after all others. */
    method Add(key: Bytes, value: Bytes)
      requires Valid() && !finished
      modifies this
      ensures Valid() && !finished && layout.entries == old(layout.entries) + [Entry(key, value)]
    {
      hide CommonPrefix, EntryBytes, Data, EncodeVarint, Good, Spaced, SharesAll, RestartOffsets, LastKey;
      ghost var l := layout;
      LayoutShape(l);
      var shared := 0;
      ghost var restart := counter >= restartInterval;
      if counter < restartInterval {
        shared := CountShared(key);
      } else {
        restarts := restarts + [|buffer|];
        counter := 0;
      }
      var nonShared := |key| - shared;
      buffer := buffer + EncodeVarint(shared);
      buffer := buffer + EncodeVarint(nonShared);
      buffer := buffer + EncodeVarint(|value|);
      buffer := buffer + key[shared..];
      buffer := buffer + value;
      EntryParts(old(buffer), shared, Entry(key, value));
      lastKey := lastKey[..shared];
      lastKey := lastKey + key[shared..];
      assert key == lastKey;
      counter := counter + 1;
      layout := Extended(l, Entry(key, value), shared, restart);
      Longer(l, Entry(key, value), shared, restart, restartInterval);
    }

    /** Appends the restart array and its length. */
    method Finish() returns (block: Bytes)
      requires Valid() && !finished && |buffer| < TWO_32 && |restarts| < TWO_32
      modifies this`buffer, this`finished
      ensures Valid() && finished && Offset(layout, |layout.entries|) < TWO_32 && block == buffer == BlockBytes(layout)
    {
      hide Data, EncodeFixed32, Good, Spaced, SharesAll, RestartOffsets, LastKey, Fixed32Array;
      LayoutShape(layout);
      OffsetsFit(layout);
      ghost var data := buffer;
      Fixed32Start(data);
      for i := 0 to |restarts|
        invariant AllFit(restarts[..i])
        invariant buffer == data + Fixed32Array(restarts[..i])
      {
        Fixed32Next(data, restarts, i);
        buffer := buffer + EncodeFixed32(restarts[i]);
      }
      assert restarts[..|restarts|] == restarts;
      buffer := buffer + EncodeFixed32(|restarts|);
      finished := true;
      block := buffer;
    }
  }

  lemma LayoutShape(l: Layout)
    requires Good(l)
    ensures |l.entries| == |l.shared| && l.restarts != [] && l.restarts[|l.restarts| - 1] <= |l.entries|
    ensures |RestartOffsets(l)| == |l.restarts|
    ensures l.entries == [] ==> l.restarts == [0]
    ensures forall i: nat :: i < |l.entries| ==> SharedOk(l, i)
  {
  }

  lemma EntryParts(front: Bytes, shared: nat, e: Entry)
    requires shared <= |e.key|
    ensures front + EncodeVarint(shared) + EncodeVarint(|e.key| - shared) + EncodeVarint(|e.value|) + e.key[shared..] + e.value
      == front + EntryBytes(shared, e)
  {
    hide EncodeVarint;
  }

  /** A longer layout keeps the data of the entries it had. */
  lemma {:induction false} SameData(l: Layout, l': Layout, n: nat)
    requires |l.entries| == |l.shared| && |l'.entries| == |l'.shared| && n <= |l.entries| <= |l'.entries|
    requires (forall i: nat :: i < |l.entries| ==> SharedOk(l, i)) && (forall i: nat :: i < |l'.entries| ==> SharedOk(l', i))
    requires l.entries == l'.entries[..|l.entries|] && l.shared == l'.shared[..|l.entries|]
    ensures Data(l, n) == Data(l', n)
  {
    hide EntryBytes;
    if n > 0 {
      SameData(l, l', n - 1);
    }
  }

  /** The layout with one more entry, at a restart point or not. */
  function Extended(l: Layout, e: Entry, shared: nat, restart: bool): Layout {
    Layout(l.entries + [e], l.shared + [shared], if restart then l.restarts + [|l.entries|] else l.restarts)
  }

  lemma Longer(l: Layout, e: Entry, shared: nat, restart: bool, interval: nat)
    requires Good(l) && Spaced(l, interval) && SharesAll(l) && interval >= 1
    requires var since := |l.entries| - l.restarts[|l.restarts| - 1]; if restart then since == interval else since < interval
    requires shared == if restart then 0 else CommonPrefix(LastKey(l), e.key)
    ensures
      var l' := Extended(l, e, shared, restart);
      && Good(l') && Spaced(l', interval) && SharesAll(l') && LastKey(l') == e.key
      && Data(l', |l'.entries|) == Data(l, |l.entries|) + EntryBytes(shared, e)
      && RestartOffsets(l') == (if restart then RestartOffsets(l) + [Offset(l, |l.entries|)] else RestartOffsets(l))
      && |l'.entries| - l'.restarts[|l'.restarts| - 1] == 1 + (if restart then 0 else |l.entries| - l.restarts[|l.restarts| - 1])
  {
    hide EntryBytes, Data, CommonPrefix, SharesAll, Good, RestartOffsets;
    LayoutShape(l);
    var l', n := Extended(l, e, shared, restart), |l.entries|;
    ExtendedGood(l, e, shared, restart);
    ExtendedShares(l, e, shared, restart);
    LongerData(l, e, shared, restart);
  }

  /** The data grows by the entry, and what was there stays where it was. */
  lemma LongerData(l: Layout, e: Entry, shared: nat, restart: bool)
    requires Good(l) && Good(Extended(l, e, shared, restart)) && shared <= |e.key|
    ensures
      var l' := Extended(l, e, shared, restart);
      && Data(l', |l'.entries|) == Data(l, |l.entries|) + EntryBytes(shared, e)
      && RestartOffsets(l') == (if restart then RestartOffsets(l) + [Offset(l, |l.entries|)] else RestartOffsets(l))
  {
    hide EntryBytes, Data;
    var l', n := Extended(l, e, shared, restart), |l.entries|;
    DataNext(l', n);
    forall i: nat | i <= n ensures Data(l, i) == Data(l', i) {
      SameData(l, l', i);
    }
  }

  lemma ExtendedGood(l: Layout, e: Entry, shared: nat, restart: bool)
    requires Good(l) && (restart ==> |l.entries| > l.restarts[|l.restarts| - 1])
    requires shared == if restart then 0 else CommonPrefix(LastKey(l), e.key)
    ensures Good(Extended(l, e, shared, restart))
  {
    var l', n := Extended(l, e, shared, restart), |l.entries|;
    forall i: nat | i < n + 1 ensures SharedOk(l', i) {
      if i < n {
        assert SharedOk(l, i);
      }
    }
  }

  lemma ExtendedShares(l: Layout, e: Entry, shared: nat, restart: bool)
    requires Good(l) && SharesAll(l)
    requires shared == if restart then 0 else CommonPrefix(LastKey(l), e.key)
    ensures SharesAll(Extended(l, e, shared, restart))
  {
    hide CommonPrefix;
    var l', n := Extended(l, e, shared, restart), |l.entries|;
    assert restart ==> l'.restarts[|l.restarts|] == n;
    forall i: nat | 0 < i < n + 1 && i !in l'.restarts
      ensures l'.shared[i] == CommonPrefix(l'.entries[i - 1].key, l'.entries[i].key)
    {
    }
  }
}

/** Reading a block: decoding entries one after another, binary search over the restart
    points, and moving back by scanning forward from a restart point. */
module BlockIter {
  import opened Options
  import opened Coding
  import opened BlockFormat
  import opened Comparators
  import Cursors

  ghost predicate Ascending(less: Order, entries: seq<Entry>) {
    forall i, j :: 0 <= i < j < |entries| ==> less(entries[i].key, entries[j].key)
  }

  /** The first position whose key is not before the target. */
  ghost predicate IsSeekPos(less: Order, entries: seq<Entry>, target: Bytes, pos: nat) {
    && pos <= |entries|
    && (forall i :: 0 <= i < pos ==> less(entries[i].key, target))
    && (pos < |entries| ==> !less(entries[pos].key, target))
  }

  // ----- decoding one entry -----

  /** The three numbers of an entry and where its key bytes begin. */
  datatype Header = Header(shared: nat, nonShared: nat, valueLength: nat, keyStart: nat)

  function DecodeEntry(data: Bytes, p: nat, limit: nat): (r: Option<Header>)
    requires limit <= |data|
    ensures r.Some? ==> p < r.value.keyStart <= limit && r.value.nonShared < TWO_32 && r.value.valueLength < TWO_32
  {
    if limit < p + 3 then None
    else if data[p] < 128 && data[p + 1] < 128 && data[p + 2] < 128 then
      CheckLengths(data[p], data[p + 1], data[p + 2], p + 3, limit)
    else
      var a := GetVarint32(data[p..limit]);
      if a.None? then None
      else
        var b := GetVarint32(data[p + a.value.size..limit]);
        if b.None? then None
        else
          var c := GetVarint32(data[p + a.value.size + b.value.size..limit]);
          if c.None? then None
          else CheckLengths(a.value.value, b.value.value, c.value.value, p + a.value.size + b.value.size + c.value.size, limit)
  }

  /** The sum of the lengths is taken in 32 bits. */
  function CheckLengths(shared: nat, nonShared: nat, valueLength: nat, keyStart: nat, limit: nat): Option<Header> {
    if limit - keyStart < (nonShared + valueLength) % TWO_32 then None
    else Some(Header(shared, nonShared, valueLength, keyStart))
  }

  lemma FirstByte(n: nat)
    ensures EncodeVarint(n)[0] < 128 <==> n < 128
    ensures n < 128 ==> EncodeVarint(n) == [n]
  {
  }

  /** One number at the front of what is left of the data. */
  lemma NumberAt(data: Bytes, p: nat, limit: nat, n: uint32, rest: Bytes)
    requires p <= limit <= |data| && data[p..limit] == EncodeVarint(n) + rest
    ensures GetVarint32(data[p..limit]) == Some(Varint(n, |EncodeVarint(n)|))
    ensures p + |EncodeVarint(n)| + |rest| == limit && data[p + |EncodeVarint(n)|..limit] == rest
    ensures p < limit && (n < 128 <==> data[p] < 128) && (n < 128 ==> data[p] == n && |EncodeVarint(n)| == 1)
  {
    hide EncodeVarint, GetVarint32;
    var x := EncodeVarint(n);
    DropFront(data, p, limit, x, rest);
    FirstByte(n);
    GetVarint32Encoded(n, rest);
  }

  lemma TwoNumbersAt(data: Bytes, i: nat, limit: nat, b: uint32, c: uint32, tail: Bytes)
    requires i <= limit <= |data| && data[i..limit] == EncodeVarint(b) + (EncodeVarint(c) + tail)
    ensures
      var j := i + |EncodeVarint(b)|;
      && i < j < j + |EncodeVarint(c)| <= limit && data[j + |EncodeVarint(c)|..limit] == tail
      && GetVarint32(data[i..limit]) == Some(Varint(b, |EncodeVarint(b)|))
      && GetVarint32(data[j..limit]) == Some(Varint(c, |EncodeVarint(c)|))
      && (b < 128 <==> data[i] < 128) && (c < 128 <==> data[j] < 128)
      && (b < 128 ==> data[i] == b && j == i + 1) && (c < 128 ==> data[j] == c && |EncodeVarint(c)| == 1)
  {
    hide EncodeVarint, GetVarint32;
    NumberAt(data, i, limit, b, EncodeVarint(c) + tail);
    NumberAt(data, i + |EncodeVarint(b)|, limit, c, tail);
  }

  /** Three numbers at the front decode as they were encoded, on either path. */
  lemma DecodeHeader(data: Bytes, p: nat, limit: nat, a: uint32, b: uint32, c: uint32, tail: Bytes)
    requires p <= limit <= |data| < TWO_32 && b + c <= |tail|
    requires data[p..limit] == EncodeVarint(a) + (EncodeVarint(b) + (EncodeVarint(c) + tail))
    ensures
      var keyStart := p + |EncodeVarint(a)| + |EncodeVarint(b)| + |EncodeVarint(c)|;
      DecodeEntry(data, p, limit) == Some(Header(a, b, c, keyStart)) && data[keyStart..limit] == tail
  {
    hide EncodeVarint, GetVarint32, CheckLengths, DecodeEntry;
    NumberAt(data, p, limit, a, EncodeVarint(b) + (EncodeVarint(c) + tail));
    var i := p + |EncodeVarint(a)|;
    TwoNumbersAt(data, i, limit, b, c, tail);
    var j := i + |EncodeVarint(b)|;
    LengthsFit(a, b, c, j + |EncodeVarint(c)|, limit);
    HeaderPaths(data, p, limit, a, b, c, i, j);
  }

  lemma HeaderPaths(data: Bytes, p: nat, limit: nat, a: uint32, b: uint32, c: uint32, i: nat, j: nat)
    requires p < i < j < j + |EncodeVarint(c)| <= limit <= |data| && i == p + |EncodeVarint(a)| && j == i + |EncodeVarint(b)|
    requires a < 128 <==> data[p] < 128
    requires b < 128 <==> data[i] < 128
    requires c < 128 <==> data[j] < 128
    requires a < 128 ==> data[p] == a && i == p + 1
    requires b < 128 ==> data[i] == b && j == i + 1
    requires c < 128 ==> data[j] == c && |EncodeVarint(c)| == 1
    requires GetVarint32(data[p..limit]) == Some(Varint(a, |EncodeVarint(a)|))
    requires GetVarint32(data[i..limit]) == Some(Varint(b, |EncodeVarint(b)|))
    requires GetVarint32(data[j..limit]) == Some(Varint(c, |EncodeVarint(c)|))
    ensures DecodeEntry(data, p, limit) == CheckLengths(a, b, c, j + |EncodeVarint(c)|, limit)
  {
    hide EncodeVarint, GetVarint32, CheckLengths;
  }

  lemma DropFront(data: Bytes, p: nat, limit: nat, x: Bytes, rest: Bytes)
    requires p <= limit <= |data| && data[p..limit] == x + rest && x != []
    ensures data[p + |x|..limit] == rest && p + |x| + |rest| == limit && data[p] == x[0]
  {
    assert data[p..limit][|x|..] == rest;
    assert data[p] == data[p..limit][0];
  }

  lemma LengthsFit(shared: nat, nonShared: nat, valueLength: nat, keyStart: nat, limit: nat)
    requires keyStart + nonShared + valueLength <= limit < TWO_32
    ensures CheckLengths(shared, nonShared, valueLength, keyStart, limit) == Some(Header(shared, nonShared, valueLength, keyStart))
  {
  }

  /** The entries lie in the block where they should. */
  ghost predicate IsBlock(l: Layout, data: Bytes) {
    && Good(l) && Offset(l, |l.entries|) < TWO_32 && |l.restarts| < TWO_32
    && data == BlockBytes(l) && |data| < TWO_32
  }

  lemma DataInBlock(l: Layout, data: Bytes, i: nat)
    requires IsBlock(l, data) && i < |l.entries|
    ensures l.shared[i] <= |l.entries[i].key| && Offset(l, i) <= Offset(l, i + 1) <= Offset(l, |l.entries|) <= |data|
    ensures data[Offset(l, i)..Offset(l, i + 1)] == EntryBytes(l.shared[i], l.entries[i])
  {
    hide Data, EntryBytes, Fixed32Array;
    var n := |l.entries|;
    DataNext(l, i);
    DataPrefix(l, i + 1, n);
    DataPrefix(l, i, i + 1);
    OffsetsFit(l);
    assert data[..Offset(l, n)] == Data(l, n);
    assert Data(l, n)[..Offset(l, i + 1)] == Data(l, i + 1);
    assert data[..Offset(l, i + 1)] == Data(l, i + 1);
    assert data[Offset(l, i)..Offset(l, i + 1)] == Data(l, i + 1)[Offset(l, i)..];
  }

  /** The bytes of an entry and what follows it up to the restart array. */
  lemma EntryInBlock(l: Layout, data: Bytes, i: nat)
    requires IsBlock(l, data) && i < |l.entries|
    ensures
      var e, limit, q := l.entries[i], Offset(l, |l.entries|), Offset(l, i + 1);
      && l.shared[i] <= |e.key| < TWO_32 && |e.value| < TWO_32 && Offset(l, i) + 3 <= q <= limit <= |data| < TWO_32
      && var k := e.key[l.shared[i]..];
         && data[Offset(l, i)..limit] == EncodeVarint(l.shared[i]) + (EncodeVarint(|k|) + (EncodeVarint(|e.value|) + (k + e.value + data[q..limit])))
         && q == Offset(l, i) + |EncodeVarint(l.shared[i])| + |EncodeVarint(|k|)| + |EncodeVarint(|e.value|)| + |k| + |e.value|
  {
    hide Data, EncodeVarint, BlockBytes;
    var e, p, q := l.entries[i], Offset(l, i), Offset(l, i + 1);
    var limit := Offset(l, |l.entries|);
    DataInBlock(l, data, i);
    OffsetsGrow(l, i, i + 1);
    SharedFits(l, i);
    var k := e.key[l.shared[i]..];
    var x, y, z := EncodeVarint(l.shared[i]), EncodeVarint(|k|), EncodeVarint(|e.value|);
    assert data[p..limit] == data[p..q] + data[q..limit];
    assert data[p..q] == x + y + z + k + e.value;
    FiveParts(x, y, z, k + e.value, data[q..limit]);
    assert x + y + z + k + e.value == x + y + z + (k + e.value);
  }

  lemma FiveParts(x: Bytes, y: Bytes, z: Bytes, w: Bytes, tail: Bytes)
    ensures x + y + z + w + tail == x + (y + (z + (w + tail)))
  {
  }

  /** Decoding at an entry's offset gives that entry. */
  lemma DecodeAt(l: Layout, data: Bytes, i: nat)
    requires IsBlock(l, data) && i < |l.entries|
    ensures
      var e, limit := l.entries[i], Offset(l, |l.entries|);
      && l.shared[i] <= |e.key| && Offset(l, i) + 3 <= Offset(l, i + 1) <= limit <= |data|
      && var h := DecodeEntry(data, Offset(l, i), limit);
         && h.Some? && h.value.shared == l.shared[i] && h.value.nonShared == |e.key| - l.shared[i] && h.value.valueLength == |e.value|
         && h.value.keyStart + h.value.nonShared + h.value.valueLength == Offset(l, i + 1)
         && data[h.value.keyStart..h.value.keyStart + h.value.nonShared] == e.key[l.shared[i]..]
         && data[h.value.keyStart + h.value.nonShared..Offset(l, i + 1)] == e.value
  {
    hide Data, EncodeVarint, DecodeEntry, BlockBytes, Offset;
    var e, p, q := l.entries[i], Offset(l, i), Offset(l, i + 1);
    var limit := Offset(l, |l.entries|);
    EntryInBlock(l, data, i);
    var k := e.key[l.shared[i]..];
    var keyStart := p + |EncodeVarint(l.shared[i])| + |EncodeVarint(|k|)| + |EncodeVarint(|e.value|)|;
    DecodeHeader(data, p, limit, l.shared[i], |k|, |e.value|, k + e.value + data[q..limit]);
    KeyAndValue(data, keyStart, limit, k, e.value, data[q..limit]);
  }

  lemma KeyAndValue(data: Bytes, keyStart: nat, limit: nat, k: Bytes, value: Bytes, rest: Bytes)
    requires keyStart <= limit <= |data| && data[keyStart..limit] == k + value + rest
    ensures keyStart + |k| + |value| <= limit
    ensures data[keyStart..keyStart + |k|] == k && data[keyStart + |k|..keyStart + |k| + |value|] == value
  {
    assert k + value + rest == k + (value + rest);
    SliceFront(data, keyStart, limit, k, value + rest);
    SliceFront(data, keyStart + |k|, limit, value, rest);
  }

  lemma SliceFront(data: Bytes, from: nat, limit: nat, x: Bytes, rest: Bytes)
    requires from <= limit <= |data| && data[from..limit] == x + rest
    ensures from + |x| <= limit && data[from..from + |x|] == x && data[from + |x|..limit] == rest
  {
    assert data[from..from + |x|] == data[from..limit][..|x|];
    assert data[from + |x|..limit] == data[from..limit][|x|..];
  }

  /** All lengths fit in 32 bits: an entry's key is made of pieces of the data. */
  lemma {:induction false} SharedFits(l: Layout, i: nat)
    requires Good(l) && i < |l.entries| && Offset(l, |l.entries|) < TWO_32
    ensures |l.entries[i].key| <= Offset(l, i + 1) && |l.entries[i].value| <= Offset(l, i + 1) && l.shared[i] <= |l.entries[i].key|
    ensures Offset(l, i + 1) <= Offset(l, |l.entries|)
  {
    hide Data, EncodeVarint;
    DataNext(l, i);
    OffsetsGrow(l, i + 1, |l.entries|);
    assert SharedOk(l, i);
    if i > 0 {
      SharedFits(l, i - 1);
    }
  }

  /** The restart array is where the block says. */
  lemma RestartAt(l: Layout, data: Bytes, j: nat)
    requires IsBlock(l, data) && j < |l.restarts|
    ensures
      var limit := Offset(l, |l.entries|);
      && limit + 4 * |l.restarts| + 4 == |data|
      && l.restarts[j] <= |l.entries| && Offset(l, l.restarts[j]) < TWO_32
      && DecodeFixed32(data[limit + 4 * j..limit + 4 * j + 4]) == Offset(l, l.restarts[j])
      && DecodeFixed32(data[|data| - 4..]) == |l.restarts|
  {
    hide Data, EncodeFixed32, DecodeFixed32, Fixed32Array;
    var limit, n := Offset(l, |l.entries|), |l.restarts|;
    OffsetsFit(l);
    var os := RestartOffsets(l);
    var tail := Fixed32Array(os);
    assert data == Data(l, |l.entries|) + tail + EncodeFixed32(n);
    assert data[limit..limit + 4 * n] == tail;
    assert data[limit + 4 * j..limit + 4 * j + 4] == tail[4 * j..4 * j + 4];
    assert data[|data| - 4..] == EncodeFixed32(n);
    Fixed32At(os, j);
    Fixed32RoundTrip(os[j]);
    Fixed32RoundTrip(n);
  }

  lemma OffsetOrder(l: Layout, i: nat, j: nat)
    requires Good(l) && i <= |l.entries| && j <= |l.entries|
    ensures Offset(l, i) < Offset(l, j) <==> i < j
    ensures Offset(l, i) == Offset(l, j) <==> i == j
  {
    hide Data;
    if i < j {
      OffsetsGrow(l, i, j);
    } else if j < i {
      OffsetsGrow(l, j, i);
    }
  }

  class Iter {
    const less: Order
    const data: Bytes
    const restarts: nat
    const numRestarts: nat
    ghost const l: Layout
    var current: nat
    var restartIndex: nat
    var key: Bytes
    var valueStart: nat
    var valueLength: nat
    ghost var pos: nat

    ghost predicate Shape()
    {
      IsBlock(l, data) && restarts == Offset(l, |l.entries|) && numRestarts == |l.restarts|
    }

    /** The restart index is that of the last restart point not after entry i, or one less
        when entry i is itself a restart point. */
    ghost predicate Near(i: nat)
      reads this
    {
      && numRestarts == |l.restarts| && restartIndex < numRestarts && l.restarts[restartIndex] <= i
      && (restartIndex + 1 < numRestarts ==> l.restarts[restartIndex + 1] >= i)
    }

    ghost predicate At(i: nat)
      reads this
      requires Shape()
    {
      && i < |l.entries| && current == Offset(l, i) && key == l.entries[i].key && Near(i)
      && valueStart + valueLength == Offset(l, i + 1) <= |data|
      && data[valueStart..valueStart + valueLength] == l.entries[i].value
    }

    ghost predicate Ok()
      reads this
    {
      && Shape()
      && if pos < |l.entries| then At(pos) else pos == |l.entries| && current == restarts && restartIndex == numRestarts
    }

    /** The next entry to parse is i, and the shared part of its key is at hand. */
    ghost predicate Ready(i: nat)
      reads this
      requires Shape()
    {
      && i <= |l.entries| && valueStart + valueLength == Offset(l, i)
      && restartIndex < numRestarts && l.restarts[restartIndex] <= i
      && (i < |l.entries| ==> l.shared[i] <= |key| && l.shared[i] <= |l.entries[i].key| && key[..l.shared[i]] == l.entries[i].key[..l.shared[i]])
    }

    /** NewIterator: finds the restart array at the end of the block. */
    constructor (less: Order, data: Bytes, ghost l: Layout)
      requires IsBlock(l, data)
      ensures Ok() && this.less == less && this.data == data && this.l == l && pos == |l.entries|
    {
      hide Data, BlockBytes, Fixed32Array, DecodeFixed32;
      RestartAt(l, data, 0);
      this.less, this.data, this.l := less, data, l;
      var n := DecodeFixed32(data[|data| - 4..]);
      numRestarts := n;
      restarts := |data| - (1 + n) * 4;
      current := |data| - (1 + n) * 4;
      restartIndex := n;
      key, valueStart, valueLength := [], 0, 0;
      pos := |l.entries|;
    }

    predicate Valid()
      reads this
    {
      current < restarts
    }

    /** A valid iterator shows the entry at its position; it is valid exactly at one. */
    lemma Shows()
      requires Ok()
      ensures Valid() <==> pos < |l.entries|
      ensures Valid() ==> key == l.entries[pos].key && valueStart + valueLength <= |data|
      ensures Valid() ==> data[valueStart..valueStart + valueLength] == l.entries[pos].value
    {
      hide Data, IsBlock;
      if pos < |l.entries| {
        BlockIsGood(l, data);
        OffsetOrder(l, pos, |l.entries|);
      }
    }

    method Key() returns (k: Bytes)
      requires Ok() && Valid()
      ensures pos < |l.entries| && k == l.entries[pos].key
    {
      Shows();
      k := key;
    }

    method Value() returns (v: Bytes)
      requires Ok() && Valid()
      ensures pos < |l.entries| && v == l.entries[pos].value
    {
      Shows();
      v := data[valueStart..valueStart + valueLength];
    }

    method GetRestartPoint(index: nat) returns (offset: nat)
      requires Shape() && index < numRestarts
      ensures l.restarts[index] <= |l.entries| && offset == Offset(l, l.restarts[index])
    {
      hide Data, BlockBytes;
      RestartAt(l, data, index);
      offset := DecodeFixed32(data[restarts + index * 4..restarts + index * 4 + 4]);
    }

    method SeekToRestartPoint(index: nat)
      requires Shape() && index < numRestarts
      modifies this
      ensures Shape() && restartIndex == index && l.restarts[index] <= |l.entries| && Ready(l.restarts[index])
    {
      hide Data, BlockBytes, IsBlock;
      BlockIsGood(l, data);
      key := [];
      restartIndex := index;
      var offset := GetRestartPoint(index);
      valueStart, valueLength := offset, 0;
      RestartShared(l, index);
    }

    method Invalidate()
      requires Shape()
      modifies this
      ensures Ok() && pos == |l.entries|
    {
      current := restarts;
      restartIndex := numRestarts;
      pos := |l.entries|;
    }

    /** Decodes the next entry, or finds the end. */
    method ParseNextKey(ghost i: nat) returns (ok: bool)
      requires Shape() && Ready(i)
      modifies this
      ensures Ok() && pos == i && ok == (i < |l.entries|)
    {
      hide Data, BlockBytes, DecodeEntry, IsBlock, EntryBytes;
      BlockIsGood(l, data);
      current := valueStart + valueLength;
      pos := i;
      OffsetOrder(l, i, |l.entries|);
      if current >= restarts {
        Invalidate();
        return false;
      }
      DecodeAt(l, data, i);
      var h := DecodeEntry(data, current, restarts);
      if h.None? || |key| < h.value.shared {
        // "bad entry in block": not in a block the builder made
        assert false;
      }
      key := key[..h.value.shared];
      key := key + data[h.value.keyStart..h.value.keyStart + h.value.nonShared];
      valueStart, valueLength := h.value.keyStart + h.value.nonShared, h.value.valueLength;
      assert key == l.entries[i].key[..l.shared[i]] + l.entries[i].key[l.shared[i]..];
      assert key == l.entries[i].key;
      AdvanceRestart(i);
      return true;
    }

    /** Moves the restart index up to the entry just parsed. */
    method AdvanceRestart(ghost i: nat)
      requires Shape() && i < |l.entries| && current == Offset(l, i) && restartIndex < numRestarts && l.restarts[restartIndex] <= i
      modifies this`restartIndex
      ensures Near(i)
    {
      hide Data, BlockBytes, IsBlock;
      BlockIsGood(l, data);
      var more := true;
      while more
        invariant restartIndex < numRestarts && l.restarts[restartIndex] <= i
        invariant !more ==> Near(i)
        decreases more, numRestarts - restartIndex
      {
        more := false;
        if restartIndex + 1 < numRestarts {
          var offset := GetRestartPoint(restartIndex + 1);
          OffsetOrder(l, l.restarts[restartIndex + 1], i);
          if offset < current {
            restartIndex := restartIndex + 1;
            more := true;
          }
        }
      }
    }

    method SeekToFirst()
      requires Ok()
      modifies this
      ensures Ok() && pos == 0
    {
      hide Data, BlockBytes, IsBlock;
      BlockIsGood(l, data);
      SeekToRestartPoint(0);
      var _ := ParseNextKey(0);
    }

    method SeekToLast()
      requires Ok()
      modifies this
      ensures Ok() && pos == Cursors.PrevPos(|l.entries|, |l.entries|)
    {
      hide Data, BlockBytes, IsBlock;
      BlockIsGood(l, data);
      SeekToRestartPoint(numRestarts - 1);
      ghost var i := l.restarts[numRestarts - 1];
      var more := true;
      while more
        invariant Shape() && i <= |l.entries|
        invariant more ==> Ready(i) && (i < |l.entries| || i == 0)
        invariant !more ==> Ok() && pos == Cursors.PrevPos(|l.entries|, |l.entries|)
        decreases more, |l.entries| - i
      {
        var ok := ParseNextKey(i);
        more := false;
        if ok {
          NextReady(i);
          OffsetOrder(l, i + 1, |l.entries|);
          more := valueStart + valueLength < restarts;
          if more {
            i := i + 1;
          }
        }
      }
    }

    lemma NextReady(i: nat)
      requires Shape() && At(i)
      ensures i + 1 <= |l.entries| && Ready(i + 1)
    {
      hide Data, BlockBytes;
      if i + 1 < |l.entries| {
        assert SharedOk(l, i + 1);
      }
    }

    method Next()
      requires Ok() && Valid()
      modifies this
      ensures Ok() && pos == old(pos) + 1
    {
      hide Data, BlockBytes, IsBlock;
      Shows();
      NextReady(pos);
      var _ := ParseNextKey(pos + 1);
    }

    /** Goes back to a restart point before the entry and forward from there. */
    method Prev()
      requires Ok() && Valid()
      modifies this
      ensures Ok() && pos == Cursors.PrevPos(|l.entries|, old(pos))
    {
      hide Data, BlockBytes, IsBlock;
      BlockIsGood(l, data);
      Shows();
      ghost var p := pos;
      var original := current;
      var offset := GetRestartPoint(restartIndex);
      OffsetOrder(l, l.restarts[restartIndex], p);
      while offset >= original
        invariant Shape() && restartIndex < numRestarts && original == Offset(l, p) && pos == p
        invariant l.restarts[restartIndex] <= |l.entries| && offset == Offset(l, l.restarts[restartIndex])
        invariant offset >= original <==> l.restarts[restartIndex] >= p
        decreases restartIndex
      {
        if restartIndex == 0 {
          Invalidate();
          return;
        }
        restartIndex := restartIndex - 1;
        offset := GetRestartPoint(restartIndex);
        OffsetOrder(l, l.restarts[restartIndex], p);
      }
      SeekToRestartPoint(restartIndex);
      ghost var i := l.restarts[restartIndex];
      var more := true;
      while more
        invariant Shape() && i < p < |l.entries|
        invariant more ==> Ready(i)
        invariant !more ==> Ok() && pos == p - 1
        decreases more, p - i
      {
        var ok := ParseNextKey(i);
        NextReady(i);
        OffsetOrder(l, i + 1, p);
        more := ok && valueStart + valueLength < original;
        if more {
          i := i + 1;
        }
      }
    }

    /** Binary search for the last restart point before the target, then forward to the
        first entry at or after it. */
    method Seek(target: Bytes)
      requires Ok() && Transitive(less) && Ascending(less, l.entries)
      modifies this
      ensures Ok() && IsSeekPos(less, l.entries, target, pos)
    {
      hide Data, BlockBytes, IsBlock, Transitive, Ascending;
      BlockIsGood(l, data);
      var left := FindRestart(target);
      SeekToRestartPoint(left);
      ghost var i := l.restarts[left];
      if i > 0 {
        BeforeIsBefore(less, l.entries, target, i);
      }
      var more := true;
      while more
        invariant Shape() && i <= |l.entries|
        invariant more ==> Ready(i) && forall j :: 0 <= j < i ==> less(l.entries[j].key, target)
        invariant !more ==> Ok() && IsSeekPos(less, l.entries, target, pos)
        decreases more, |l.entries| - i
      {
        var ok := ParseNextKey(i);
        more := false;
        if ok && less(key, target) {
          NextReady(i);
          i := i + 1;
          more := true;
        }
      }
    }

    /** The key at restart point j comes before the target. */
    ghost predicate KeyBefore(j: nat, target: Bytes) {
      j < |l.restarts| && l.restarts[j] < |l.entries| && less(l.entries[l.restarts[j]].key, target)
    }

    /** The last restart point whose key is before the target, or the first one. */
    method FindRestart(target: Bytes) returns (left: nat)
      requires Shape()
      ensures left < numRestarts && l.restarts[left] <= |l.entries|
      ensures left > 0 ==> KeyBefore(left, target)
      ensures left + 1 < numRestarts ==> !KeyBefore(left + 1, target)
    {
      hide Data, BlockBytes, IsBlock, DecodeEntry, EntryBytes;
      BlockIsGood(l, data);
      left := 0;
      var right := numRestarts - 1;
      while left < right
        invariant 0 <= left <= right < numRestarts
        invariant left > 0 ==> KeyBefore(left, target)
        invariant right + 1 < numRestarts ==> !KeyBefore(right + 1, target)
        decreases right - left
      {
        var mid := (left + right + 1) / 2;
        var offset := GetRestartPoint(mid);
        RestartShared(l, mid);
        DecodeAt(l, data, l.restarts[mid]);
        var h := DecodeEntry(data, offset, restarts);
        if h.None? || h.value.shared != 0 {
          // "bad entry in block": not in a block the builder made
          assert false;
        }
        var midKey := data[h.value.keyStart..h.value.keyStart + h.value.nonShared];
        assert midKey == l.entries[l.restarts[mid]].key;
        if less(midKey, target) {
          left := mid;
        } else {
          right := mid - 1;
        }
      }
    }
  }

  lemma BlockIsGood(l: Layout, data: Bytes)
    requires IsBlock(l, data)
    ensures Good(l) && |l.entries| == |l.shared| && l.restarts != [] && l.restarts[0] == 0
    ensures forall j :: 0 <= j < |l.restarts| ==> l.restarts[j] <= |l.entries|
    ensures forall j :: 0 < j < |l.restarts| ==> l.restarts[j] < |l.entries|
  {
    hide Data, BlockBytes;
  }

  lemma RestartShared(l: Layout, j: nat)
    requires Good(l) && j < |l.restarts|
    ensures l.restarts[j] < |l.entries| ==> l.shared[l.restarts[j]] == 0
    ensures j > 0 ==> l.restarts[j] < |l.entries|
  {
    if |l.entries| > 0 {
      assert SharedOk(l, 0);
    }
  }

  lemma BeforeIsBefore(less: Order, entries: seq<Entry>, target: Bytes, i: nat)
    requires Transitive(less) && Ascending(less, entries) && i < |entries| && less(entries[i].key, target)
    ensures forall j :: 0 <= j < i ==> less(entries[j].key, target)
  {
  }

  lemma BlockSize(l: Layout)
    requires Good(l) && Offset(l, |l.entries|) < TWO_32 && |l.restarts| < TWO_32
    ensures |BlockBytes(l)| == Offset(l, |l.entries|) + 4 * |l.restarts| + 4
  {
    hide Data;
    OffsetsFit(l);
  }
}

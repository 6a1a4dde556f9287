/** The entries a batch adds to the memtable, and what reads find after it: for each key the
    last operation on it that the snapshot sees. */
module BatchReads {
  import opened Coding
  import opened DbFormat
  import opened CompactionDrop
  import opened Ranks
  import opened WriteBatches

  /** The entry an operation adds to the memtable. */
  function EntryFor(rank: Rank, seqno: nat, op: Op): Entry {
    match op
    case Put(key, value) => Entry(InternalKey(rank(key), seqno, Kind.Put), value)
    case Delete(key) => Entry(InternalKey(rank(key), seqno, Deletion), [])
  }

  /** The entries of a batch with this sequence number. */
  function BatchEntries(rank: Rank, sequence: nat, ops: seq<Op>): (es: seq<Entry>)
    ensures |es| == |ops|
  {
    seq(|ops|, i requires 0 <= i < |ops| => EntryFor(rank, sequence + i, ops[i]))
  }

  // ----- what a reader is to find -----

  /** How many operations of a batch a snapshot sees. */
  function SeenBy(sequence: nat, count: nat, s: nat): (n: nat)
    ensures n <= count
  {
    if s < sequence then 0 else if s - sequence + 1 < count then s - sequence + 1 else count
  }

  /** Operation i is the last of the first n on the key. */
  predicate LastOn(ops: seq<Op>, n: nat, k: Bytes, i: nat) {
    i < n <= |ops| && ops[i].key == k && forall j :: i < j < n ==> ops[j].key != k
  }

  predicate NoneOn(ops: seq<Op>, n: nat, k: Bytes) {
    n <= |ops| && forall j :: 0 <= j < n ==> ops[j].key != k
  }

  /** Reading k finds the value last put, or nothing after a deletion; a key the operations
      do not touch reads as before. */
  ghost predicate ReadsAfter(rank: Rank, before: set<Entry>, after: set<Entry>, ops: seq<Op>, n: nat, k: Bytes, s: nat) {
    && (forall i: nat :: LastOn(ops, n, k, i) ==> Read(after, rank(k), s) == match ops[i] case Put(_, value) => Found(value) case Delete(_) => NotFound)
    && (NoneOn(ops, n, k) ==> Read(after, rank(k), s) == Read(before, rank(k), s))
  }

  /** ... at every snapshot, those inside the batch included. */
  ghost predicate Adds(rank: Rank, before: set<Entry>, after: set<Entry>, sequence: nat, ops: seq<Op>) {
    forall k, s: nat :: ReadsAfter(rank, before, after, ops, SeenBy(sequence, |ops|, s), k, s)
  }

  /** The entries stand for the operations, whatever older entries they are added to. */
  ghost predicate Plays(rank: Rank, entries: seq<Entry>, sequence: nat, ops: seq<Op>) {
    forall before: set<Entry> :: Distinct(before) && (forall e :: e in before ==> e.key.seqno < sequence) ==>
      Adds(rank, before, before + SetOf(entries), sequence, ops)
  }

  lemma BatchPlays(rank: Rank, sequence: nat, ops: seq<Op>)
    requires Injective(rank)
    ensures Plays(rank, BatchEntries(rank, sequence, ops), sequence, ops)
  {
    hide Adds, Distinct;
    forall before: set<Entry> | Distinct(before) && (forall e :: e in before ==> e.key.seqno < sequence)
      ensures Adds(rank, before, before + SetOf(BatchEntries(rank, sequence, ops)), sequence, ops)
    {
      BatchAdds(rank, before, sequence, ops);
    }
  }

  lemma AddedAreDistinct(rank: Rank, before: set<Entry>, sequence: nat, ops: seq<Op>)
    requires Distinct(before) && forall e :: e in before ==> e.key.seqno < sequence
    ensures Distinct(before + SetOf(BatchEntries(rank, sequence, ops)))
  {
    var es := BatchEntries(rank, sequence, ops);
    forall a, b | a in before + SetOf(es) && b in before + SetOf(es) && a.key.ukey == b.key.ukey && a.key.seqno == b.key.seqno ensures a == b {
      if a !in before && b !in before {
        var i :| 0 <= i < |es| && es[i] == a;
        var j :| 0 <= j < |es| && es[j] == b;
      }
    }
  }

  /** A visible entry is an old one or that of an operation the snapshot sees. */
  lemma VisibleAfter(rank: Rank, before: set<Entry>, sequence: nat, ops: seq<Op>, k: Bytes, s: nat, x: Entry)
    requires Injective(rank)
    requires Visible(before + SetOf(BatchEntries(rank, sequence, ops)), rank(k), s, x) && x !in before
    ensures exists j :: 0 <= j < SeenBy(sequence, |ops|, s) && ops[j].key == k && x == EntryFor(rank, sequence + j, ops[j])
  {
    var es := BatchEntries(rank, sequence, ops);
    var j :| 0 <= j < |es| && es[j] == x;
    assert x == EntryFor(rank, sequence + j, ops[j]);
  }

  /** Adding the entries of a batch above all others adds its operations. */
  lemma BatchAdds(rank: Rank, before: set<Entry>, sequence: nat, ops: seq<Op>)
    requires Injective(rank) && Distinct(before) && forall e :: e in before ==> e.key.seqno < sequence
    ensures Adds(rank, before, before + SetOf(BatchEntries(rank, sequence, ops)), sequence, ops)
  {
    hide ReadsAfter, Read, Distinct;
    forall k, s: nat
      ensures ReadsAfter(rank, before, before + SetOf(BatchEntries(rank, sequence, ops)), ops, SeenBy(sequence, |ops|, s), k, s)
    {
      BatchRead(rank, before, sequence, ops, k, s);
    }
  }

  lemma BatchRead(rank: Rank, before: set<Entry>, sequence: nat, ops: seq<Op>, k: Bytes, s: nat)
    requires Injective(rank) && Distinct(before) && forall e :: e in before ==> e.key.seqno < sequence
    ensures ReadsAfter(rank, before, before + SetOf(BatchEntries(rank, sequence, ops)), ops, SeenBy(sequence, |ops|, s), k, s)
  {
    hide Read, Distinct;
    var es, n := BatchEntries(rank, sequence, ops), SeenBy(sequence, |ops|, s);
    var after := before + SetOf(es);
    AddedAreDistinct(rank, before, sequence, ops);
    forall i: nat | LastOn(ops, n, k, i)
      ensures Read(after, rank(k), s) == match ops[i] case Put(_, value) => Found(value) case Delete(_) => NotFound
    {
      assert es[i] == EntryFor(rank, sequence + i, ops[i]) && es[i] in es;
      forall x | Visible(after, rank(k), s, x) ensures x.key.seqno <= es[i].key.seqno {
        if x !in before {
          VisibleAfter(rank, before, sequence, ops, k, s, x);
        }
      }
      ReadNewest(after, rank(k), s, es[i]);
    }
    if NoneOn(ops, n, k) {
      forall x ensures Visible(after, rank(k), s, x) <==> Visible(before, rank(k), s, x) {
        if Visible(after, rank(k), s, x) && x !in before {
          VisibleAfter(rank, before, sequence, ops, k, s, x);
        }
      }
      ReadSame(after, before, rank(k), s, s);
    }
  }

  // ----- one batch after another -----

  /** The last operation on the key in the first n batches is operation i of batch m. */
  predicate LastInBatches(batches: seq<seq<Op>>, n: nat, k: Bytes, m: nat, i: nat) {
    && m < n <= |batches| && LastOn(batches[m], |batches[m]|, k, i)
    && forall l :: m < l < n ==> NoneOn(batches[l], |batches[l]|, k)
  }

  predicate NoneInBatches(batches: seq<seq<Op>>, n: nat, k: Bytes) {
    n <= |batches| && forall l :: 0 <= l < n ==> NoneOn(batches[l], |batches[l]|, k)
  }

  /** Reading k finds what the last operation on it in the batches left. */
  ghost predicate ReadsLast(rank: Rank, es: set<Entry>, batches: seq<seq<Op>>, n: nat, k: Bytes, s: nat) {
    && (forall m: nat, i: nat :: LastInBatches(batches, n, k, m, i) ==>
          Read(es, rank(k), s) == match batches[m][i] case Put(_, value) => Found(value) case Delete(_) => NotFound)
    && (NoneInBatches(batches, n, k) ==> Read(es, rank(k), s) == NotFound)
  }

  lemma NextBatch(rank: Rank, before: set<Entry>, after: set<Entry>, batches: seq<seq<Op>>, n: nat, k: Bytes, s: nat)
    requires n < |batches| && ReadsLast(rank, before, batches, n, k, s)
    requires ReadsAfter(rank, before, after, batches[n], |batches[n]|, k, s)
    ensures ReadsLast(rank, after, batches, n + 1, k, s)
  {
    hide Read;
    forall m: nat, i: nat | LastInBatches(batches, n + 1, k, m, i)
      ensures Read(after, rank(k), s) == match batches[m][i] case Put(_, value) => Found(value) case Delete(_) => NotFound
    {
      if m < n {
        assert LastInBatches(batches, n, k, m, i);
      }
    }
    if NoneInBatches(batches, n + 1, k) {
      assert NoneInBatches(batches, n, k);
    }
  }
}

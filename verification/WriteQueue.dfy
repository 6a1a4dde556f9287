/** The queue of writers in memory: building the batch of a group and popping it. */
module WriteQueue {
  import opened Options
  import opened Coding
  import opened WriteBatches
  import GroupCommit

  class Writer {
    const batch: WriteBatch?
    const sync: bool
    var done: bool
    var status: GroupCommit.Status

    constructor (batch: WriteBatch?, sync: bool)
      ensures this.batch == batch && this.sync == sync && !done
    {
      this.batch, this.sync, done, status := batch, sync, false, GroupCommit.Ok;
    }

    /** The writer as the group commit rules see it. */
    ghost function Abstract(): GroupCommit.Writer
      reads batch
    {
      GroupCommit.Writer(if batch == null then None else Some(GroupCommit.Batch(|batch.rep|, |batch.ops|)), sync)
    }
  }

  ghost function Batches(ws: seq<Writer>): set<object> {
    set w | w in ws && w.batch != null :: w.batch
  }

  ghost function AbstractAll(ws: seq<Writer>): (q: seq<GroupCommit.Writer>)
    reads Batches(ws)
    ensures |q| == |ws|
  {
    seq(|ws|, i requires 0 <= i < |ws| reads Batches(ws) => ws[i].Abstract())
  }

  ghost predicate AllValid(ws: seq<Writer>)
    reads Batches(ws)
  {
    forall w :: w in ws && w.batch != null ==> w.batch.Valid()
  }

  /** The operations of a group, in queue order. */
  ghost function OpsOf(ws: seq<Writer>): seq<Op>
    reads Batches(ws)
  {
    if ws == [] then []
    else
      var w := ws[|ws| - 1];
      OpsOf(ws[..|ws| - 1]) + if w.batch == null then [] else w.batch.ops
  }

  lemma {:induction false} OpsFit(ops: seq<Op>)
    ensures |ops| <= |OpsBytes(ops)|
  {
    if ops != [] {
      OpsFit(ops[..|ops| - 1]);
    }
  }

  lemma BatchFits(b: WriteBatch)
    requires b.Valid()
    ensures |b.ops| + HEADER <= |b.rep|
  {
    OpsFit(b.ops);
  }

  lemma AbstractAt(ws: seq<Writer>, i: nat)
    requires i < |ws|
    ensures AbstractAll(ws)[i] == ws[i].Abstract()
  {
  }

  lemma OpsOfNext(ws: seq<Writer>, i: nat)
    requires i < |ws|
    ensures OpsOf(ws[..i + 1]) == OpsOf(ws[..i]) + if ws[i].batch == null then [] else ws[i].batch.ops
  {
    assert ws[..i + 1][..i] == ws[..i];
  }

  lemma PrefixBatches(ws: seq<Writer>, i: nat)
    requires i <= |ws|
    ensures Batches(ws[..i]) <= Batches(ws)
  {
  }

  lemma OpsOfFirst(ws: seq<Writer>)
    requires ws != [] && ws[0].batch != null
    ensures OpsOf(ws[..1]) == ws[0].batch.ops
  {
    OpsOfNext(ws, 0);
    assert ws[..0] == [];
  }

  class Queue {
    const tmpBatch: WriteBatch
    var writers: seq<Writer>
    var lastSequence: nat

    ghost predicate Valid()
      reads this, tmpBatch, Batches(writers), writers
    {
      && AllValid(writers) && tmpBatch !in Batches(writers) && tmpBatch.Valid() && tmpBatch.ops == []
      && (forall i, j :: 0 <= i < j < |writers| ==> writers[i] != writers[j])
    }

    ghost function Abstract(): (q: seq<GroupCommit.Writer>)
      reads this, Batches(writers)
      ensures |q| == |writers|
    {
      AbstractAll(writers)
    }

    constructor (lastSequence: nat)
      ensures Valid() && writers == [] && this.lastSequence == lastSequence && fresh(tmpBatch)
    {
      tmpBatch := new WriteBatch();
      writers := [];
      this.lastSequence := lastSequence;
    }

    method PushBack(w: Writer)
      requires Valid() && w !in writers && (w.batch != null ==> w.batch.Valid() && w.batch != tmpBatch)
      modifies this`writers
      ensures Valid() && writers == old(writers) + [w]
    {
      writers := writers + [w];
    }

    /** Adds one more batch to the group's: into the temporary batch, which first takes
        over the leader's. */
    method Join(result: WriteBatch, first: WriteBatch, batch: WriteBatch) returns (result': WriteBatch)
      requires result == first || result == tmpBatch
      requires result.Valid() && first.Valid() && batch.Valid() && first != tmpBatch && batch != tmpBatch
      requires result == first ==> tmpBatch.Valid() && tmpBatch.ops == []
      requires |result.ops| + |batch.ops| < TWO_32
      modifies tmpBatch
      ensures result' == tmpBatch && tmpBatch.Valid() && tmpBatch.ops == old(result.ops) + old(batch.ops)
    {
      hide WriteBatch.Valid;
      result' := result;
      if result == first {
        result' := tmpBatch;
        result'.Append(first);
      }
      result'.Append(batch);
    }

    /** Collects the batches of the group the front writer leads.  Only the temporary batch
        is written to; the result is the front writer's own batch as long as nobody else
        contributes one. */
    method BuildBatchGroup() returns (result: WriteBatch, k: nat)
      requires Valid() && writers != [] && writers[0].batch != null
      modifies tmpBatch
      ensures k == GroupCommit.GroupLength(Abstract()) && 0 < k <= |writers|
      ensures result.Valid() && result.ops == OpsOf(writers[..k])
      ensures result == writers[0].batch || result == tmpBatch
      ensures result == writers[0].batch ==> tmpBatch.Valid() && tmpBatch.ops == []
    {
      hide OpsOf, WriteBatch.Valid, GroupCommit.GroupLength, GroupCommit.JoinFrom, AbstractAll;
      ghost var q := Abstract();
      AbstractAt(writers, 0);
      GroupCommit.GroupUnfold(q);
      var first := writers[0];
      result := first.batch;
      var size: nat := |first.batch.rep|;
      BatchFits(first.batch);
      var maxSize := if size <= GroupCommit.SMALL_BATCH then size + GroupCommit.SMALL_BATCH else GroupCommit.MAX_GROUP;
      OpsOfFirst(writers);
      k := 1;
      while k < |writers|
        invariant 0 < k <= |writers| && Abstract() == q
        invariant GroupCommit.GroupLength(q) == k + GroupCommit.JoinFrom(q, k, size, maxSize)
        invariant result.Valid() && result.ops == OpsOf(writers[..k]) && |result.ops| <= size
        invariant result == first.batch || result == tmpBatch
        invariant result == first.batch ==> tmpBatch.Valid() && tmpBatch.ops == []
        invariant AllValid(writers)
      {
        var w := writers[k];
        GroupCommit.JoinUnfold(q, k, size, maxSize);
        AbstractAt(writers, 0);
        AbstractAt(writers, k);
        OpsOfNext(writers, k);
        PrefixBatches(writers, k);
        PrefixBatches(writers, k + 1);
        if w.sync && !first.sync {
          break;
        }
        if w.batch != null {
          BatchFits(w.batch);
          if size + |w.batch.rep| > maxSize {
            break;
          }
          size := size + |w.batch.rep|;
          result := Join(result, first.batch, w.batch);
        }
        k := k + 1;
      }
      if k == |writers| {
        GroupCommit.JoinUnfold(q, k, size, maxSize);
      }
    }

    /** Pops the group: everyone but the leader is told the outcome and woken. */
    method PopGroup(k: nat, status: GroupCommit.Status)
      requires Valid() && 0 < k <= |writers|
      modifies this`writers, writers
      ensures Valid() && writers == old(writers)[k..]
      ensures forall i :: 0 < i < k ==> old(writers)[i].done && old(writers)[i].status == status
      ensures forall i :: k <= i < |old(writers)| ==> old(writers)[i].done == old(writers[i].done)
    {
      var leader := writers[0];
      var last := writers[k - 1];
      ghost var all := writers;
      ghost var i := 0;
      var more := true;
      while more
        invariant 0 <= i <= k && writers == all[i..] && (more <==> i < k)
        invariant forall j :: 0 < j < i ==> all[j].done && all[j].status == status
        invariant forall j :: i <= j < |all| ==> all[j].done == old(all[j].done)
        decreases k - i
      {
        var ready := writers[0];
        writers := writers[1..];
        if ready != leader {
          ready.status := status;
          ready.done := true;
        }
        more := ready != last;
        i := i + 1;
      }
    }

    /** One log record for the whole batch, its entries numbered from the last sequence
        number on; nothing is inserted unless the log took it. */
    method LogAndInsert(updates: WriteBatch, sync: bool, logOk: bool, syncOk: bool)
      returns (record: Bytes, added: seq<(nat, Op)>, status: GroupCommit.Status)
      requires updates.Valid() && lastSequence + 1 < TWO_64
      modifies updates
      ensures updates.Valid() && updates.ops == old(updates.ops)
      ensures Parse(record) == (updates.ops, Ok) && |record| >= HEADER && DecodeFixed64(record[..8]) == lastSequence + 1
      ensures status == GroupCommit.Ok <==> logOk && (sync ==> syncOk)
      ensures status == GroupCommit.Ok ==> Numbered(added, updates.ops, lastSequence)
      ensures status != GroupCommit.Ok ==> added == []
    {
      hide Rep, Parse;
      updates.SetSequence(lastSequence + 1);
      record := updates.rep;
      BatchRoundTrip(updates.sequence, updates.ops);
      added := [];
      status := GroupCommit.Ok;
      if !logOk || (sync && !syncOk) {
        status := GroupCommit.Failed;
      }
      if status == GroupCommit.Ok {
        var s;
        added, s := updates.InsertInto();
      }
    }

    /** What the front writer does for its group: builds its batch, logs and inserts it,
        advances the last sequence number, whatever the log said, and pops the group. */
    method Commit(logOk: bool, syncOk: bool) returns (record: Bytes, added: seq<(nat, Op)>, status: GroupCommit.Status)
      requires Valid() && writers != [] && writers[0].batch != null && lastSequence + 1 < TWO_64
      modifies this, tmpBatch, writers, Batches(writers)
      ensures Valid()
      ensures
        var k := GroupCommit.GroupLength(old(Abstract()));
        var ops := old(OpsOf(writers[..k]));
        && writers == old(writers)[k..] && lastSequence == old(lastSequence) + |ops|
        && Parse(record) == (ops, Ok) && |record| >= HEADER && DecodeFixed64(record[..8]) == old(lastSequence) + 1
        && (status == GroupCommit.Ok <==> logOk && (old(writers)[0].sync ==> syncOk))
        && (if status == GroupCommit.Ok then Numbered(added, ops, old(lastSequence)) else added == [])
        && forall i :: 0 < i < k ==> old(writers)[i].done && old(writers)[i].status == status
    {
      hide OpsOf, Rep, Parse, GroupCommit.GroupLength, Numbered, WriteBatch.Valid, AbstractAll, DecodeFixed64;
      var leader := writers[0];
      var updates, k := BuildBatchGroup();
      PrefixBatches(writers, k);
      assert updates.ops == old(OpsOf(writers[..k]));
      record, added, status := LogAndInsert(updates, leader.sync, logOk, syncOk);
      var count := updates.Count();
      if updates == tmpBatch {
        tmpBatch.Clear();
      }
      lastSequence := lastSequence + count;
      PopGroup(k, status);
    }
  }

  /** The i-th operation has the i-th number after seqno. */
  predicate Numbered(added: seq<(nat, Op)>, ops: seq<Op>, seqno: nat) {
    |added| == |ops| && forall i :: 0 <= i < |ops| ==> added[i] == (seqno + 1 + i, ops[i])
  }
}

/** A batch of updates in its byte form: a sequence number, a count and the operations. */
module WriteBatches {
  import opened Options
  import opened Coding

  const HEADER := 12

  const TYPE_DELETION := 0

  const TYPE_VALUE := 1

  datatype Op = Put(key: Bytes, value: Bytes) | Delete(key: Bytes)
  {
    predicate Encodable() {
      |key| < TWO_32 && (Put? ==> |value| < TWO_32)
    }
  }

  predicate Encodable(ops: seq<Op>) {
    |ops| < TWO_32 && forall op :: op in ops ==> op.Encodable()
  }

  function OpBytes(op: Op): Bytes {
    match op
    case Put(key, value) => [TYPE_VALUE] + LengthPrefixed(key) + LengthPrefixed(value)
    case Delete(key) => [TYPE_DELETION] + LengthPrefixed(key)
  }

  function OpsBytes(ops: seq<Op>): Bytes {
    if ops == [] then [] else OpsBytes(ops[..|ops| - 1]) + OpBytes(ops[|ops| - 1])
  }

  function Rep(sequence: uint64, ops: seq<Op>): Bytes
    requires |ops| < TWO_32
  {
    EncodeFixed64(sequence) + EncodeFixed32(|ops|) + OpsBytes(ops)
  }

  // ----- reading -----

  datatype Status = Ok | Corruption(what: string)

  /** The operation at the front of the input. */
  function ParseOp(input: Bytes): (r: (Status, Option<(Op, Bytes)>))
    requires input != []
    ensures r.0.Ok? <==> r.1.Some?
    ensures r.1.Some? ==> |r.1.value.1| < |input|
  {
    if input[0] == TYPE_VALUE then
      var key := GetLengthPrefixed(input[1..]);
      if key.None? then (Corruption("bad WriteBatch Put"), None)
      else
        var value := GetLengthPrefixed(key.value.1);
        if value.None? then (Corruption("bad WriteBatch Put"), None)
        else (Ok, Some((Put(key.value.0, value.value.0), value.value.1)))
    else if input[0] == TYPE_DELETION then
      var key := GetLengthPrefixed(input[1..]);
      if key.None? then (Corruption("bad WriteBatch Delete"), None) else (Ok, Some((Delete(key.value.0), key.value.1)))
    else (Corruption("unknown WriteBatch tag"), None)
  }

  /** The operations handed on before the end of the input or the first bad one. */
  function ParseOps(input: Bytes): (seq<Op>, Status)
    decreases |input|
  {
    if input == [] then ([], Ok)
    else
      var (status, op) := ParseOp(input);
      if op.None? then ([], status)
      else
        var (rest, s) := ParseOps(op.value.1);
        ([op.value.0] + rest, s)
  }

  /** What iterating over a batch hands to the memtable, and how it ends. */
  function Parse(rep: Bytes): (seq<Op>, Status) {
    if |rep| < HEADER then ([], Corruption("malformed WriteBatch (too small)"))
    else
      var (ops, status) := ParseOps(rep[HEADER..]);
      (ops, if status.Ok? && |ops| != DecodeFixed32(rep[8..12]) then Corruption("WriteBatch has wrong count") else status)
  }

  lemma OpRoundTrip(op: Op, rest: Bytes)
    requires op.Encodable()
    ensures OpBytes(op) + rest != [] && ParseOp(OpBytes(op) + rest) == (Ok, Some((op, rest)))
  {
    hide LengthPrefixed, GetLengthPrefixed;
    var input := OpBytes(op) + rest;
    match op {
      case Put(key, value) =>
        assert input[1..] == LengthPrefixed(key) + (LengthPrefixed(value) + rest);
        LengthPrefixedRoundTrip(key, LengthPrefixed(value) + rest);
        LengthPrefixedRoundTrip(value, rest);
      case Delete(key) =>
        assert input[1..] == LengthPrefixed(key) + rest;
        LengthPrefixedRoundTrip(key, rest);
    }
  }

  lemma {:induction false} OpsRoundTrip(ops: seq<Op>, rest: Bytes)
    requires forall op :: op in ops ==> op.Encodable()
    ensures ParseOps(OpsBytes(ops) + rest) == (ops + ParseOps(rest).0, ParseOps(rest).1)
  {
    hide OpBytes, ParseOp;
    if ops == [] {
      assert [] + rest == rest && ops + ParseOps(rest).0 == ParseOps(rest).0;
    } else {
      var front, last := ops[..|ops| - 1], ops[|ops| - 1];
      OpRoundTrip(last, rest);
      OpsRoundTrip(front, OpBytes(last) + rest);
      assert OpsBytes(ops) + rest == OpsBytes(front) + (OpBytes(last) + rest);
      assert front + ([last] + ParseOps(rest).0) == ops + ParseOps(rest).0;
    }
  }

  /** A batch is read back exactly, with its sequence number and count. */
  lemma BatchRoundTrip(sequence: uint64, ops: seq<Op>)
    requires Encodable(ops)
    ensures
      var rep := Rep(sequence, ops);
      && |rep| >= HEADER && Parse(rep) == (ops, Ok)
      && DecodeFixed64(rep[..8]) == sequence && DecodeFixed32(rep[8..12]) == |ops|
  {
    hide EncodeFixed64, EncodeFixed32, DecodeFixed64, DecodeFixed32, ParseOps;
    RepParts(sequence, ops);
    OpsRoundTrip(ops, []);
    assert OpsBytes(ops) + [] == OpsBytes(ops) && ops + [] == ops;
    assert ParseOps([]) == ([], Ok) by { NothingToParse(); }
    Fixed64RoundTrip(sequence);
    Fixed32RoundTrip(|ops|);
  }

  lemma NothingToParse()
    ensures ParseOps([]) == ([], Ok)
  {
  }

  lemma RepParts(sequence: uint64, ops: seq<Op>)
    requires |ops| < TWO_32
    ensures
      var rep := Rep(sequence, ops);
      |rep| >= HEADER && rep[..8] == EncodeFixed64(sequence) && rep[8..12] == EncodeFixed32(|ops|) && rep[HEADER..] == OpsBytes(ops)
  {
    hide EncodeFixed64, EncodeFixed32;
  }

  lemma OpsBytesNext(ops: seq<Op>, op: Op)
    ensures OpsBytes(ops + [op]) == OpsBytes(ops) + OpBytes(op)
  {
    hide OpBytes;
    assert (ops + [op])[..|ops|] == ops;
  }

  lemma {:induction false} OpsBytesAppend(a: seq<Op>, b: seq<Op>)
    ensures OpsBytes(a + b) == OpsBytes(a) + OpsBytes(b)
  {
    hide OpBytes, OpsBytes;
    if b == [] {
      assert a + b == a;
      NoOpsBytes();
    } else {
      var front, op := b[..|b| - 1], b[|b| - 1];
      OpsBytesAppend(a, front);
      assert b == front + [op] && a + b == (a + front) + [op];
      OpsBytesNext(front, op);
      OpsBytesNext(a + front, op);
      assert OpsBytes(a) + OpsBytes(front) + OpBytes(op) == OpsBytes(a) + (OpsBytes(front) + OpBytes(op));
    }
  }

  lemma NoOpsBytes()
    ensures OpsBytes([]) == []
  {
  }

  class WriteBatch {
    var rep: Bytes
    ghost var sequence: uint64
    ghost var ops: seq<Op>

    ghost predicate Valid()
      reads this
    {
      Encodable(ops) && rep == Rep(sequence, ops)
    }

    constructor ()
      ensures Valid() && ops == []
    {
      rep, sequence, ops := Zeros(HEADER), 0, [];
      new;
      assert rep == Rep(0, []);
    }

    /** Empties the batch. */
    method Clear()
      modifies this
      ensures Valid() && ops == [] && sequence == 0
    {
      rep := Zeros(HEADER);
      sequence, ops := 0, [];
      assert rep == Rep(0, []);
    }

    /** Takes over the bytes of a batch written before. */
    method SetContents(contents: Bytes, ghost sequence: uint64, ghost ops: seq<Op>)
      requires Encodable(ops) && contents == Rep(sequence, ops)
      modifies this
      ensures Valid() && this.sequence == sequence && this.ops == ops
    {
      rep := contents;
      this.sequence, this.ops := sequence, ops;
    }

    method Sequence() returns (s: uint64)
      requires Valid()
      ensures s == sequence
    {
      BatchRoundTrip(sequence, ops);
      s := DecodeFixed64(rep[..8]);
    }

    method Count() returns (n: nat)
      requires Valid()
      ensures n == |ops|
    {
      BatchRoundTrip(sequence, ops);
      n := DecodeFixed32(rep[8..12]);
    }

    method SetCount(n: uint32)
      requires |rep| >= HEADER
      modifies this`rep
      ensures rep == old(rep)[..8] + EncodeFixed32(n) + old(rep)[12..]
    {
      rep := rep[..8] + EncodeFixed32(n) + rep[12..];
    }

    method SetSequence(s: uint64)
      requires Valid()
      modifies this
      ensures Valid() && ops == old(ops) && sequence == s && |rep| == old(|rep|)
    {
      hide EncodeFixed64, EncodeFixed32;
      RepParts(sequence, ops);
      rep := EncodeFixed64(s) + rep[8..];
      sequence := s;
      RepParts(s, ops);
      assert rep == Rep(s, ops);
    }

    /** The bytes of the longer batch: the count grows, the operations are appended. */
    lemma Longer(more: seq<Op>)
      requires Valid() && Encodable(ops + more)
      ensures |rep| >= HEADER
      ensures rep[..8] + EncodeFixed32(|ops + more|) + rep[12..] + OpsBytes(more) == Rep(sequence, ops + more)
    {
      hide EncodeFixed64, EncodeFixed32;
      RepParts(sequence, ops);
      OpsBytesAppend(ops, more);
    }

    method Put(key: Bytes, value: Bytes)
      requires Valid() && Op.Put(key, value).Encodable() && |ops| + 1 < TWO_32
      modifies this
      ensures Valid() && ops == old(ops) + [Op.Put(key, value)] && sequence == old(sequence)
    {
      hide EncodeFixed32, LengthPrefixed, Rep, OpsBytes, OpBytes;
      ghost var op := Op.Put(key, value);
      Longer([op]);
      OneOp(op);
      var n := Count();
      SetCount(n + 1);
      ghost var counted := rep;
      rep := rep + [TYPE_VALUE];
      rep := rep + LengthPrefixed(key);
      rep := rep + LengthPrefixed(value);
      OpParts(op, counted);
      ops := ops + [op];
    }

    method Delete(key: Bytes)
      requires Valid() && Op.Delete(key).Encodable() && |ops| + 1 < TWO_32
      modifies this
      ensures Valid() && ops == old(ops) + [Op.Delete(key)] && sequence == old(sequence)
    {
      hide EncodeFixed32, LengthPrefixed, Rep, OpsBytes, OpBytes;
      ghost var op := Op.Delete(key);
      Longer([op]);
      OneOp(op);
      var n := Count();
      SetCount(n + 1);
      ghost var counted := rep;
      rep := rep + [TYPE_DELETION];
      rep := rep + LengthPrefixed(key);
      OpParts(op, counted);
      ops := ops + [op];
    }

    method Append(src: WriteBatch)
      requires Valid() && src.Valid() && src != this && |ops| + |src.ops| < TWO_32
      modifies this
      ensures Valid() && ops == old(ops) + src.ops && sequence == old(sequence)
    {
      hide EncodeFixed64, EncodeFixed32, Rep, OpsBytes;
      RepParts(src.sequence, src.ops);
      Longer(src.ops);
      var n := Count();
      var m := src.Count();
      SetCount(n + m);
      rep := rep + src.rep[HEADER..];
      ops := ops + src.ops;
    }

    /** Iterate: hands the operations on one after another until the end or the first bad
        one.  A malformed batch is only noticed when it is reached. */
    method Iterate() returns (handled: seq<Op>, status: Status)
      ensures (handled, status) == Parse(rep)
    {
      hide ParseOp, DecodeFixed32;
      handled := [];
      if |rep| < HEADER {
        return [], Corruption("malformed WriteBatch (too small)");
      }
      var input := rep[HEADER..];
      ghost var all := ParseOps(input);
      assert [] + all.0 == all.0;
      while input != []
        invariant all == (handled + ParseOps(input).0, ParseOps(input).1)
        decreases |input|
      {
        var (s, op) := ParseOp(input);
        if op.None? {
          assert handled + [] == handled;
          return handled, s;
        }
        assert handled + ([op.value.0] + ParseOps(op.value.1).0) == (handled + [op.value.0]) + ParseOps(op.value.1).0;
        handled := handled + [op.value.0];
        input := op.value.1;
      }
      assert handled + [] == handled;
      status := if |handled| != DecodeFixed32(rep[8..12]) then Corruption("WriteBatch has wrong count") else Ok;
    }

    /** InsertInto: the i-th operation gets the batch's sequence number plus i. */
    method InsertInto() returns (added: seq<(nat, Op)>, status: Status)
      requires Valid()
      ensures status == Ok && |added| == |ops|
      ensures forall i :: 0 <= i < |added| ==> added[i] == (sequence + i, ops[i])
    {
      hide DecodeFixed64, DecodeFixed32, Parse, Rep;
      BatchRoundTrip(sequence, ops);
      var seqno: nat := DecodeFixed64(rep[..8]);
      var handled;
      handled, status := Iterate();
      assert handled == ops && status == Ok;
      added := [];
      for i := 0 to |handled|
        invariant |added| == i && seqno == sequence + i
        invariant forall j :: 0 <= j < i ==> added[j] == (sequence + j, ops[j])
      {
        added := added + [(seqno, handled[i])];
        seqno := seqno + 1;
      }
    }
  }

  lemma OpParts(op: Op, front: Bytes)
    ensures op.Put? ==> front + [TYPE_VALUE] + LengthPrefixed(op.key) + LengthPrefixed(op.value) == front + OpBytes(op)
    ensures op.Delete? ==> front + [TYPE_DELETION] + LengthPrefixed(op.key) == front + OpBytes(op)
  {
    hide LengthPrefixed;
  }

  lemma OneOp(op: Op)
    ensures OpsBytes([op]) == OpBytes(op)
  {
    hide OpBytes;
    assert [op][..0] == [];
    assert [] + OpBytes(op) == OpBytes(op);
  }
}

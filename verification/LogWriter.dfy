/** Appending records to the log. */
module LogWriter {
  import opened Coding
  import opened Crc32c
  import opened LogFormat

  lemma AddFragment(fs: seq<Physical>, p: Physical)
    ensures Payload(fs + [p]) == Payload(fs) + p.payload
    ensures Payload([]) == []
  {
    assert (fs + [p])[..|fs|] == fs;
  }

  lemma AddPhysical(crc: Crc, ps: seq<Physical>, p: Physical)
    requires Fits(ps) && Start(ps) % BLOCK_SIZE + HEADER_SIZE + |p.payload| <= BLOCK_SIZE
    ensures Fits(ps + [p]) && End(ps + [p]) == Start(ps) + HEADER_SIZE + |p.payload| && |p.payload| < 0x1_0000
    ensures FileOf(crc, ps + [p]) == FileOf(crc, ps) + Zeros(Padding(End(ps))) + Raw(crc, p)
  {
    hide Padding, Raw, Zeros;
    assert (ps + [p])[..|ps|] == ps;
  }

  lemma AddGroup(groups: seq<seq<Physical>>, fs: seq<Physical>)
    ensures Flatten(groups + [fs]) == Flatten(groups) + fs
  {
    assert (groups + [fs])[..|groups|] == groups;
  }

  /** What is left of the record after one more fragment. */
  lemma NextFragment(before: seq<Physical>, fs: seq<Physical>, p: Physical, left: Bytes, length: nat, record: Bytes)
    requires length <= |left| && p.payload == left[..length] && Payload(fs) + left == record
    ensures before + (fs + [p]) == before + fs + [p] && fs + [p] != []
    ensures Payload(fs + [p]) + left[length..] == record
  {
    hide Payload;
    AddFragment(fs, p);
    assert left == left[..length] + left[length..];
    assert Payload(fs) + left[..length] + left[length..] == Payload(fs) + (left[..length] + left[length..]);
  }

  /** The kind of a fragment cut at the front of what is left of a record. */
  function KindOf(begin: bool, end: bool): byte {
    if begin && end then FULL_TYPE else if begin then FIRST_TYPE else if end then LAST_TYPE else MIDDLE_TYPE
  }

  class Writer {
    const crc: Crc
    var dest: Bytes
    var blockOffset: nat
    ghost var groups: seq<seq<Physical>>
    ghost var records: seq<Bytes>

    ghost predicate Valid()
      reads this
    {
      LogOf(crc, dest, groups, records) && blockOffset <= BLOCK_SIZE && blockOffset % BLOCK_SIZE == |dest| % BLOCK_SIZE
    }

    constructor (crc: Crc)
      ensures Valid() && this.crc == crc && dest == [] && records == []
    {
      this.crc, dest, blockOffset, groups, records := crc, [], 0, [], [];
    }

    /** Goes on with a file written before, at its length. */
    constructor Reopen(crc: Crc, dest: Bytes, ghost groups: seq<seq<Physical>>, ghost records: seq<Bytes>)
      requires LogOf(crc, dest, groups, records)
      ensures Valid() && this.crc == crc && this.dest == dest && this.records == records
    {
      this.crc, this.dest, blockOffset := crc, dest, |dest| % BLOCK_SIZE;
      this.groups, this.records := groups, records;
    }

    method EmitPhysicalRecord(kind: byte, payload: Bytes)
      requires blockOffset + HEADER_SIZE + |payload| <= BLOCK_SIZE
      modifies this`dest, this`blockOffset
      ensures |payload| < 0x1_0000 && dest == old(dest) + Raw(crc, Physical(kind, payload))
      ensures blockOffset == old(blockOffset) + HEADER_SIZE + |payload|
    {
      hide Mask;
      var header := EncodeFixed32(Mask(crc([kind] + payload))) + [|payload| % 256, |payload| / 256, kind];
      dest := dest + header;
      dest := dest + payload;
      blockOffset := blockOffset + HEADER_SIZE + |payload|;
    }

    /** One fragment: as much of what is left as fits in the block, after a trailer of
        zeros when not even a header fits. */
    method EmitFragment(left: Bytes, begin: bool, ghost ps: seq<Physical>) returns (length: nat)
      requires Fits(ps) && dest == FileOf(crc, ps)
      requires blockOffset <= BLOCK_SIZE && blockOffset % BLOCK_SIZE == |dest| % BLOCK_SIZE
      modifies this`dest, this`blockOffset
      ensures length <= |left|
      ensures
        var p := Physical(KindOf(begin, length == |left|), left[..length]);
        Fits(ps + [p]) && dest == FileOf(crc, ps + [p])
      ensures old(dest) <= dest && blockOffset <= BLOCK_SIZE && blockOffset % BLOCK_SIZE == |dest| % BLOCK_SIZE
      ensures left != [] && length == 0 ==> old(blockOffset) < blockOffset
    {
      hide FileOf, Fits, End, Raw, Padding, Zeros;
      var leftover := BLOCK_SIZE - blockOffset;
      PaddingIs(|dest|, blockOffset);
      if leftover < HEADER_SIZE {
        dest := dest + Zeros(leftover);
        blockOffset := 0;
      } else {
        NoZeros();
        assert dest + Zeros(0) == dest;
      }
      var avail := BLOCK_SIZE - blockOffset - HEADER_SIZE;
      length := if |left| < avail then |left| else avail;
      ghost var p := Physical(KindOf(begin, length == |left|), left[..length]);
      AddPhysical(crc, ps, p);
      SameRemainder(blockOffset, |dest|, HEADER_SIZE + length);
      EmitPhysicalRecord(KindOf(begin, length == |left|), left[..length]);
    }

    /** Cuts the record into fragments, one per block it reaches; an empty record still
        gets one. */
    method AddRecord(record: Bytes)
      requires Valid()
      modifies this
      ensures Valid() && records == old(records) + [record] && old(dest) <= dest
      ensures |groups| > 0 && groups[..|groups| - 1] == old(groups)
    {
      hide FileOf, Fits, End, Flatten, Raw, Payload, IsFragments, Padding, Zeros, Kinds, KindOf;
      var left := record;
      var begin := true;
      ghost var before, fs: seq<Physical> := Flatten(groups), [];
      assert before + fs == before;
      AddFragment([], Physical(0, []));
      StartKinds();
      var more := true;
      while more
        invariant Fits(before + fs) && dest == FileOf(crc, before + fs) && old(dest) <= dest
        invariant groups == old(groups) && records == old(records)
        invariant blockOffset <= BLOCK_SIZE && blockOffset % BLOCK_SIZE == |dest| % BLOCK_SIZE
        invariant Payload(fs) + left == record && begin == (fs == [])
        invariant more ==> begin || left != []
        invariant Kinds(fs, !more) && (!more ==> fs != [] && left == [])
        decreases more, |left|, BLOCK_SIZE - blockOffset
      {
        ghost var ps := before + fs;
        var length := EmitFragment(left, begin, ps);
        ghost var p := Physical(KindOf(begin, length == |left|), left[..length]);
        NextFragment(before, fs, p, left, length, record);
        MoreKinds(fs, p, length == |left|);
        fs := fs + [p];
        left := left[length..];
        begin := false;
        more := |left| > 0;
      }
      FinishKinds(fs, record);
      AddGroup(groups, fs);
      groups := groups + [fs];
      records := records + [record];
    }
  }

  lemma NoZeros()
    ensures Zeros(0) == []
  {
  }

  /** Where the next header goes, seen from the offset kept inside the block. */
  lemma PaddingIs(length: nat, blockOffset: nat)
    requires blockOffset <= BLOCK_SIZE && blockOffset % BLOCK_SIZE == length % BLOCK_SIZE
    ensures Padding(length) == if BLOCK_SIZE - blockOffset < HEADER_SIZE then BLOCK_SIZE - blockOffset else 0
    ensures (length + Padding(length)) % BLOCK_SIZE == if BLOCK_SIZE - blockOffset < HEADER_SIZE then 0 else blockOffset
  {
  }

  lemma SameRemainder(a: nat, b: nat, n: nat)
    requires a % BLOCK_SIZE == b % BLOCK_SIZE
    ensures (a + n) % BLOCK_SIZE == (b + n) % BLOCK_SIZE
  {
  }

  /** Fragments so far: first, middle, ...; the last one only when done. */
  predicate Kinds(fs: seq<Physical>, done: bool) {
    forall k :: 0 <= k < |fs| ==> fs[k].kind == KindOf(k == 0, done && k == |fs| - 1)
  }

  lemma StartKinds()
    ensures Kinds([], false)
  {
  }

  lemma MoreKinds(fs: seq<Physical>, p: Physical, end: bool)
    requires Kinds(fs, false) && p.kind == KindOf(fs == [], end)
    ensures Kinds(fs + [p], end)
  {
  }

  lemma FinishKinds(fs: seq<Physical>, record: Bytes)
    requires fs != [] && Kinds(fs, true) && Payload(fs) == record
    ensures IsFragments(fs, record)
  {
  }
}

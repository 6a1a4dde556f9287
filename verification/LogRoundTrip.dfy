/** Reading what was written: every record of a complete log, and of a log cut off at any
    byte exactly the records that are whole, with nothing reported as corruption. */
module LogRoundTrip {
  import opened Options
  import opened Coding
  import opened Crc32c
  import opened LogFormat
  import opened LogReader

  /** The reader is about to read physical record i of the log cut off at n bytes: its
      buffer holds the rest of one block, or nothing. */
  ghost predicate AtRecord(crc: Crc, ps: seq<Physical>, n: nat, i: nat, st: State)
    requires Fits(ps) && n <= End(ps)
  {
    && i <= |ps|
    && |st.buffer| <= st.filePos <= n
    && st.buffer == FileOf(crc, ps)[st.filePos - |st.buffer|..st.filePos]
    && st.filePos - |st.buffer| == End(ps[..i])
    && InBlock(n, st)
  }

  /** The buffer does not go past its block, and ends there or at the end of the file. */
  predicate InBlock(n: nat, st: State)
    requires |st.buffer| <= st.filePos
  {
    var pos := st.filePos - |st.buffer|;
    && (|st.buffer| > 0 ==> st.filePos <= (pos / BLOCK_SIZE + 1) * BLOCK_SIZE)
    && (if st.eof then st.filePos == n else st.filePos % BLOCK_SIZE == 0)
  }

  lemma RawHeader(crc: Crc, p: Physical)
    requires |p.payload| < 0x1_0000
    ensures
      var raw := Raw(crc, p);
      && raw[..4] == EncodeFixed32(Mask(crc([p.kind] + p.payload)))
      && raw[4] == |p.payload| % 256 && raw[5] == |p.payload| / 256 && raw[6] == p.kind
      && raw[6..] == [p.kind] + p.payload && raw[HEADER_SIZE..] == p.payload
  {
    var head, tail := EncodeFixed32(Mask(crc([p.kind] + p.payload))), [|p.payload| % 256, |p.payload| / 256, p.kind] + p.payload;
    assert Raw(crc, p) == head + tail;
    assert tail[2..] == [p.kind] + p.payload;
  }

  /** Parsing a buffer that starts with a whole physical record. */
  lemma ParseWhole(crc: Crc, checksum: bool, st: State, p: Physical)
    requires |p.payload| < 0x1_0000 && |st.buffer| >= HEADER_SIZE + |p.payload|
    requires st.buffer[..HEADER_SIZE + |p.payload|] == Raw(crc, p)
    requires p.kind != ZERO_TYPE
    ensures ParseHeader(crc, checksum, st) == (st.(buffer := st.buffer[HEADER_SIZE + |p.payload|..]), Fragment(p))
  {
    hide Raw, Mask, Unmask, EncodeFixed32, DecodeFixed32;
    RawHeader(crc, p);
    var raw, b := Raw(crc, p), st.buffer;
    var masked := Mask(crc([p.kind] + p.payload));
    assert b[4] == raw[4] && b[5] == raw[5] && b[6] == raw[6];
    assert b[..4] == raw[..4];
    assert b[6..HEADER_SIZE + |p.payload|] == raw[6..];
    assert b[HEADER_SIZE..HEADER_SIZE + |p.payload|] == raw[HEADER_SIZE..];
    Fixed32RoundTrip(masked);
    UnmaskMask(crc([p.kind] + p.payload));
  }

  /** A header whose record does not end in the buffer, at the end of the file. */
  lemma ParseCutOff(crc: Crc, checksum: bool, st: State, p: Physical)
    requires |p.payload| < 0x1_0000 && HEADER_SIZE <= |st.buffer| < HEADER_SIZE + |p.payload| && st.eof
    requires st.buffer == Raw(crc, p)[..|st.buffer|]
    ensures ParseHeader(crc, checksum, st).1 == Eof
  {
    hide Raw, Mask, Unmask, EncodeFixed32, DecodeFixed32;
    RawHeader(crc, p);
    assert st.buffer[4] == Raw(crc, p)[4] && st.buffer[5] == Raw(crc, p)[5];
  }

  /** Every fragment a writer emits has a kind of its own. */
  ghost predicate NoZeroKinds(ps: seq<Physical>) {
    forall i :: 0 <= i < |ps| ==> ps[i].kind != ZERO_TYPE
  }

  /** A buffer that begins where physical record i begins and holds a header. */
  lemma ParseAtStart(crc: Crc, checksum: bool, ps: seq<Physical>, n: nat, i: nat, st: State)
    requires Fits(ps) && NoZeroKinds(ps) && n <= End(ps) && i <= |ps|
    requires HEADER_SIZE <= |st.buffer| <= st.filePos <= n
    requires st.buffer == FileOf(crc, ps)[st.filePos - |st.buffer|..st.filePos]
    requires st.filePos - |st.buffer| == Start(ps[..i]) && InBlock(n, st)
    ensures
      var (st', r) := ParseHeader(crc, checksum, st);
      if i < |ps| && End(ps[..i + 1]) <= n then r == Fragment(ps[i]) && AtRecord(crc, ps, n, i + 1, st') else r == Eof
  {
    hide FileOf, Raw, ParseHeader, Fits, End, Padding;
    var pos := st.filePos - |st.buffer|;
    assert i < |ps| by {
      assert ps[..|ps|] == ps;
    }
    RecordFits(ps, i);
    RecordAt(crc, ps, i);
    var p, file := ps[i], FileOf(crc, ps);
    var size := HEADER_SIZE + |p.payload|;
    RecordInBuffer(pos, size, n, st);
    if pos + size <= n {
      assert st.buffer[..size] == file[pos..pos + size];
      ParseWhole(crc, checksum, st, p);
      AfterRecord(crc, ps, n, i, st, size);
    } else {
      assert st.buffer == file[pos..pos + size][..|st.buffer|];
      ParseCutOff(crc, checksum, st, p);
    }
  }

  lemma RecordInBuffer(pos: nat, size: nat, n: nat, st: State)
    requires 0 < |st.buffer| <= st.filePos <= n && pos == st.filePos - |st.buffer| && InBlock(n, st)
    requires pos % BLOCK_SIZE + size <= BLOCK_SIZE
    ensures if pos + size <= n then size <= |st.buffer| else |st.buffer| < size && st.eof
  {
  }

  lemma AfterRecord(crc: Crc, ps: seq<Physical>, n: nat, i: nat, st: State, size: nat)
    requires Fits(ps) && n <= End(ps) && i < |ps| && 0 < size <= |st.buffer| <= st.filePos <= n
    requires st.buffer == FileOf(crc, ps)[st.filePos - |st.buffer|..st.filePos] && InBlock(n, st)
    requires st.filePos - |st.buffer| + size == End(ps[..i + 1])
    ensures AtRecord(crc, ps, n, i + 1, st.(buffer := st.buffer[size..]))
  {
    hide FileOf, Fits, End;
  }

  /** One physical record further, or the end: a record that is not whole is the end. */
  lemma PhysicalStep(crc: Crc, checksum: bool, ps: seq<Physical>, n: nat, i: nat, st: State)
    requires Fits(ps) && NoZeroKinds(ps) && n <= End(ps) && AtRecord(crc, ps, n, i, st)
    ensures
      var (st', r) := NextPhysical(crc, checksum, FileOf(crc, ps)[..n], st);
      if i < |ps| && End(ps[..i + 1]) <= n then r == Fragment(ps[i]) && AtRecord(crc, ps, n, i + 1, st') else r == Eof
  {
    hide FileOf, ParseHeader, Fits, End, Start, Refill, InBlock, NoZeroKinds;
    var file := FileOf(crc, ps)[..n];
    assert st.filePos <= n by { AtRecordBounds(crc, ps, n, i, st); }
    var s := Refill(file, st);
    RefillAtStart(crc, ps, n, i, st);
    hide AtRecord;
    if |s.buffer| >= HEADER_SIZE {
      ParseAtStart(crc, checksum, ps, n, i, s);
    } else if i < |ps| {
      RecordFits(ps, i);
    }
  }

  /** After a refill the buffer begins where the next physical record begins; with less
      than a header in it, the file ends there. */
  lemma RefillAtStart(crc: Crc, ps: seq<Physical>, n: nat, i: nat, st: State)
    requires Fits(ps) && n <= End(ps) && AtRecord(crc, ps, n, i, st)
    ensures
      var s := Refill(FileOf(crc, ps)[..n], st);
      && |s.buffer| <= s.filePos <= n
      && s.buffer == FileOf(crc, ps)[s.filePos - |s.buffer|..s.filePos] && InBlock(n, s)
      && (|s.buffer| >= HEADER_SIZE ==> s.filePos - |s.buffer| == Start(ps[..i]))
      && (|s.buffer| < HEADER_SIZE ==> n < Start(ps[..i]) + HEADER_SIZE)
  {
    hide FileOf, Fits, End;
    var file := FileOf(crc, ps);
    var end := End(ps[..i]);
    if |st.buffer| < HEADER_SIZE && !st.eof {
      var chunk := file[..n][st.filePos..Min(st.filePos + BLOCK_SIZE, n)];
      assert chunk == file[st.filePos..st.filePos + |chunk|];
      TrailerEnds(end, n, st);
    } else {
      NoTrailer(end, n, st);
    }
  }

  lemma TrailerEnds(end: nat, n: nat, st: State)
    requires |st.buffer| < HEADER_SIZE && |st.buffer| <= st.filePos && !st.eof && st.filePos - |st.buffer| == end && InBlock(n, st)
    ensures end + Padding(end) == st.filePos
  {
  }

  lemma NoTrailer(end: nat, n: nat, st: State)
    requires |st.buffer| <= st.filePos && st.filePos - |st.buffer| == end && InBlock(n, st)
    ensures |st.buffer| >= HEADER_SIZE ==> Padding(end) == 0
  {
  }

  // ----- whole records -----

  /** Where the j-th record begins among all physical records. */
  function Offset(groups: seq<seq<Physical>>, j: nat): nat
    requires j <= |groups|
  {
    |Flatten(groups[..j])|
  }

  lemma {:induction false} WrittenKinds(groups: seq<seq<Physical>>, records: seq<Bytes>)
    requires |groups| == |records| && forall j :: 0 <= j < |groups| ==> IsFragments(groups[j], records[j])
    ensures NoZeroKinds(Flatten(groups))
  {
    hide Payload;
    if groups != [] {
      WrittenKinds(groups[..|groups| - 1], records[..|groups| - 1]);
      var last := groups[|groups| - 1];
      assert IsFragments(last, records[|groups| - 1]);
      forall k | 0 <= k < |last| ensures last[k].kind != ZERO_TYPE {
        assert KindFits(last, k);
      }
    }
  }

  lemma PayloadNext(fs: seq<Physical>, t: nat)
    requires t < |fs|
    ensures Payload(fs[..t + 1]) == Payload(fs[..t]) + fs[t].payload && Payload(fs[..0]) == [] && Payload(fs[..|fs|]) == Payload(fs)
  {
    assert fs[..t + 1][..t] == fs[..t];
    assert fs[..|fs|] == fs;
  }

  /** From the t-th fragment of the j-th record on: the record, if it is whole. */
  lemma {:induction false} ReadOne(crc: Crc, checksum: bool, file: Bytes, groups: seq<seq<Physical>>, records: seq<Bytes>, n: nat,
      j: nat, t: nat, st: State, reports: nat)
    requires LogOf(crc, file, groups, records) && NoZeroKinds(Flatten(groups)) && n <= |file| && j < |groups| && t < |groups[j]|
    requires AtRecord(crc, Flatten(groups), n, Offset(groups, j) + t, st)
    ensures st.filePos <= |file[..n]|
    ensures
      var r := NextRecord(crc, checksum, file[..n], st, Partial(Payload(groups[j][..t]), t > 0, reports));
      && r.2 == reports
      && (End(Flatten(groups[..j + 1])) > n ==> r.1 == None)
      && (End(Flatten(groups[..j + 1])) <= n ==> r.1 == Some(records[j]) && AtRecord(crc, Flatten(groups), n, Offset(groups, j + 1), r.0))
    decreases |groups[j]| - t
  {
    hide FileOf, Fits, Flatten, Payload, AtRecord, NextPhysical, NextRecord, NoZeroKinds, End;
    var ps, i, fs := Flatten(groups), Offset(groups, j) + t, groups[j];
    FlattenAt(groups, j, t);
    PayloadNext(fs, t);
    assert KindFits(fs, t);
    AtRecordBounds(crc, ps, n, i, st);
    PhysicalStep(crc, checksum, ps, n, i, st);
    OneStep(crc, checksum, file[..n], st, Partial(Payload(fs[..t]), t > 0, reports));
    GroupEnd(groups, j, t);
    if t == |fs| - 1 {
      assert fs[..t + 1] == fs;
    } else if End(ps[..i + 1]) <= n {
      var st' := NextPhysical(crc, checksum, file[..n], st).0;
      assert [] + fs[t].payload == fs[t].payload;
      assert Assemble(Fragment(fs[t]), Partial(Payload(fs[..t]), t > 0, reports)) == Continue(Partial(Payload(fs[..t + 1]), true, reports));
      ReadOne(crc, checksum, file, groups, records, n, j, t + 1, st', reports);
    }
  }

  lemma AtRecordBounds(crc: Crc, ps: seq<Physical>, n: nat, i: nat, st: State)
    requires Fits(ps) && n <= End(ps) && AtRecord(crc, ps, n, i, st)
    ensures st.filePos <= n
  {
  }

  /** A record is whole exactly when its last fragment is; earlier fragments end before. */
  lemma GroupEnd(groups: seq<seq<Physical>>, j: nat, t: nat)
    requires Fits(Flatten(groups)) && j < |groups| && t < |groups[j]|
    ensures
      var ps, i := Flatten(groups), Offset(groups, j) + t;
      && i + 1 <= |ps| && Offset(groups, j + 1) == Offset(groups, j) + |groups[j]|
      && End(ps[..i + 1]) <= End(Flatten(groups[..j + 1]))
      && (t == |groups[j]| - 1 ==> End(ps[..i + 1]) == End(Flatten(groups[..j + 1])))
  {
    hide Flatten, Padding, Fits, End;
    FlattenAt(groups, j, t);
    FlattenPrefix(groups, j + 1);
    var ps, i, k := Flatten(groups), Offset(groups, j) + t, Offset(groups, j + 1);
    FitsPrefix(ps, k);
    FitsPrefix(ps[..k], i + 1);
    assert ps[..k][..i + 1] == ps[..i + 1];
  }

  /** How many records are whole in the first n bytes. */
  function Whole(groups: seq<seq<Physical>>, n: nat): (m: nat)
    ensures m <= |groups|
  {
    if groups == [] then 0
    else if End(Flatten(groups)) <= n then |groups|
    else Whole(groups[..|groups| - 1], n)
  }

  lemma {:induction false} WholeExactly(groups: seq<seq<Physical>>, n: nat, j: nat)
    requires Fits(Flatten(groups)) && j <= |groups|
    ensures End(Flatten(groups[..j])) <= n <==> j <= Whole(groups, n)
    decreases |groups|
  {
    hide Padding, Fits;
    FlattenPrefix(groups, j);
    FitsPrefix(Flatten(groups), Offset(groups, j));
    if groups == [] || End(Flatten(groups)) <= n {
    } else if j == |groups| {
      assert groups[..j] == groups;
    } else {
      var front := groups[..|groups| - 1];
      FlattenPrefix(groups, |front|);
      FitsPrefix(Flatten(groups), |Flatten(front)|);
      WholeExactly(front, n, j);
      assert front[..j] == groups[..j];
    }
  }

  /** A loop over ReadRecord from the j-th record on. */
  lemma {:induction false} ReadRest(crc: Crc, checksum: bool, file: Bytes, groups: seq<seq<Physical>>, records: seq<Bytes>, n: nat, j: nat, st: State)
    requires LogOf(crc, file, groups, records) && NoZeroKinds(Flatten(groups)) && n <= |file|
    requires j <= Whole(groups, n) && AtRecord(crc, Flatten(groups), n, Offset(groups, j), st)
    ensures st.filePos <= |file[..n]|
    ensures AllRecords(crc, checksum, file[..n], st) == (records[j..Whole(groups, n)], 0)
    decreases |groups| - j
  {
    hide FileOf, Fits, Flatten, Payload, NextPhysical, NextRecord, NoZeroKinds, End, Whole, IsFragments, AtRecord;
    AtRecordBounds(crc, Flatten(groups), n, Offset(groups, j), st);
    var m := Whole(groups, n);
    OneMore(crc, checksum, file, groups, records, n, j, st);
    if j < m {
      ReadRest(crc, checksum, file, groups, records, n, j + 1, NextRecord(crc, checksum, file[..n], st, Partial([], false, 0)).0);
      assert records[j..m] == [records[j]] + records[j + 1..m];
    } else {
      assert records[j..m] == [];
    }
  }

  lemma Fragments(fs: seq<Physical>, record: Bytes)
    requires IsFragments(fs, record)
    ensures |fs| > 0 && Payload(fs[..0]) == []
  {
  }

  lemma NothingMore(crc: Crc, checksum: bool, file: Bytes, groups: seq<seq<Physical>>, records: seq<Bytes>, n: nat, st: State)
    requires LogOf(crc, file, groups, records) && NoZeroKinds(Flatten(groups)) && n <= |file|
    requires AtRecord(crc, Flatten(groups), n, Offset(groups, |groups|), st) && st.filePos <= n
    ensures
      var (st', r, reports) := NextRecord(crc, checksum, file[..n], st, Partial([], false, 0));
      r == None && reports == 0
  {
    hide FileOf, Fits, AtRecord, NextPhysical, NextRecord, NoZeroKinds, End;
    assert groups[..|groups|] == groups;
    PhysicalStep(crc, checksum, Flatten(groups), n, |Flatten(groups)|, st);
    OneStep(crc, checksum, file[..n], st, Partial([], false, 0));
  }

  lemma StartsAtRecord(crc: Crc, ps: seq<Physical>, n: nat)
    requires Fits(ps) && n <= End(ps)
    ensures AtRecord(crc, ps, n, 0, State(0, [], false))
  {
    hide FileOf, Fits, End;
    assert ps[..0] == [];
    EndOfNothing();
    assert FileOf(crc, ps)[0..0] == [];
  }

  lemma EndOfNothing()
    ensures End([]) == 0
  {
  }

  /** The theorem: a log cut off after any number of bytes reads back as exactly the
      records wholly inside, without a corruption report. */
  lemma ReadsBackWhole(crc: Crc, checksum: bool, file: Bytes, groups: seq<seq<Physical>>, records: seq<Bytes>, n: nat)
    requires LogOf(crc, file, groups, records) && n <= |file|
    ensures AllRecords(crc, checksum, file[..n], State(0, [], false)) == (records[..Whole(groups, n)], 0)
    ensures forall j :: 0 <= j <= |records| ==> (j <= Whole(groups, n) <==> End(Flatten(groups[..j])) <= n)
  {
    hide FileOf, Fits, Flatten, Payload, NoZeroKinds, End, Whole, IsFragments, AtRecord, AllRecords;
    WrittenKinds(groups, records);
    StartsAtRecord(crc, Flatten(groups), n);
    assert Offset(groups, 0) == 0 by { NoOffset(groups); }
    ReadRest(crc, checksum, file, groups, records, n, 0, State(0, [], false));
    forall j | 0 <= j <= |records| ensures j <= Whole(groups, n) <==> End(Flatten(groups[..j])) <= n {
      WholeExactly(groups, n, j);
    }
  }

  lemma NoOffset(groups: seq<seq<Physical>>)
    ensures Offset(groups, 0) == 0
  {
  }

  /** The whole file gives back all records. */
  lemma ReadsBackAll(crc: Crc, checksum: bool, file: Bytes, groups: seq<seq<Physical>>, records: seq<Bytes>)
    requires LogOf(crc, file, groups, records)
    ensures AllRecords(crc, checksum, file, State(0, [], false)) == (records, 0)
  {
    hide FileOf, Fits, Flatten, Payload, End, Whole, IsFragments, AllRecords;
    ReadsBackWhole(crc, checksum, file, groups, records, |file|);
    assert file[..|file|] == file && groups[..|records|] == groups && records[..|records|] == records;
  }

  /** What the next call of ReadRecord gives. */
  lemma OneMore(crc: Crc, checksum: bool, file: Bytes, groups: seq<seq<Physical>>, records: seq<Bytes>, n: nat, j: nat, st: State)
    requires LogOf(crc, file, groups, records) && NoZeroKinds(Flatten(groups)) && n <= |file|
    requires j <= Whole(groups, n) && AtRecord(crc, Flatten(groups), n, Offset(groups, j), st)
    ensures st.filePos <= |file[..n]|
    ensures
      var r := NextRecord(crc, checksum, file[..n], st, Partial([], false, 0));
      && r.2 == 0
      && (j == Whole(groups, n) ==> r.1 == None)
      && (j < Whole(groups, n) ==> r.1 == Some(records[j]) && AtRecord(crc, Flatten(groups), n, Offset(groups, j + 1), r.0))
  {
    hide FileOf, Fits, Flatten, Payload, NextPhysical, NextRecord, NoZeroKinds, End, Whole, IsFragments, AtRecord;
    AtRecordBounds(crc, Flatten(groups), n, Offset(groups, j), st);
    if j < |groups| {
      Fragments(groups[j], records[j]);
      assert Offset(groups, j) + 0 == Offset(groups, j);
      ReadOne(crc, checksum, file, groups, records, n, j, 0, st, 0);
      WholeExactly(groups, n, j + 1);
    } else {
      NothingMore(crc, checksum, file, groups, records, n, st);
    }
  }

  // ----- the reader on a log that was cut off -----

  /** A log a writer left, of which the first n bytes are there. */
  datatype CutLog = CutLog(file: Bytes, groups: seq<seq<Physical>>, records: seq<Bytes>, n: nat)
  {
    ghost predicate Ok(crc: Crc) {
      LogOf(crc, file, groups, records) && n <= |file|
    }

    /** How many of its records are there as a whole. */
    function Count(): (m: nat)
      ensures m <= |groups|
    {
      Whole(groups, n)
    }
  }

  /** The reader has read j records of the log and reported nothing. */
  ghost predicate Reading(reader: Reader, l: CutLog, j: nat)
    reads reader
  {
    && reader.Valid() && reader.reports == 0
    && l.Ok(reader.crc) && NoZeroKinds(Flatten(l.groups)) && reader.file == l.file[..l.n]
    && j <= l.Count()
    && AtRecord(reader.crc, Flatten(l.groups), l.n, Offset(l.groups, j), reader.Where())
  }

  lemma StartsReading(reader: Reader, l: CutLog)
    requires reader.Valid() && reader.Where() == State(0, [], false) && reader.reports == 0
    requires l.Ok(reader.crc) && reader.file == l.file[..l.n]
    ensures Reading(reader, l, 0)
  {
    hide FileOf, Fits, Flatten, Payload, NoZeroKinds, End, Whole, IsFragments, AtRecord;
    WrittenKinds(l.groups, l.records);
    StartsAtRecord(reader.crc, Flatten(l.groups), l.n);
    NoOffset(l.groups);
  }

  /** The next record, while one is there as a whole. */
  method ReadNext(reader: Reader, ghost l: CutLog, ghost j: nat) returns (record: Option<Bytes>)
    requires Reading(reader, l, j)
    modifies reader
    ensures reader.reports == 0 && j <= l.Count() <= |l.records|
    ensures record == if j < l.Count() then Some(l.records[j]) else None
    ensures record.Some? ==> Reading(reader, l, j + 1)
  {
    hide FileOf, Fits, Flatten, Payload, NoZeroKinds, End, Whole, IsFragments, AtRecord, NextRecord;
    OneMore(reader.crc, reader.checksum, l.file, l.groups, l.records, l.n, j, reader.Where());
    record := reader.ReadRecord();
  }

  /** Replaying a log, as recovery does: the loop over ReadRecord on a file cut off after n
      bytes. */
  method ReadLog(reader: Reader, ghost l: CutLog) returns (read: seq<Bytes>)
    requires reader.Valid() && reader.Where() == State(0, [], false) && reader.reports == 0
    requires l.Ok(reader.crc) && reader.file == l.file[..l.n]
    modifies reader
    ensures l.Count() <= |l.records| && read == l.records[..l.Count()] && reader.reports == 0
  {
    hide Whole, LogOf, Reading;
    StartsReading(reader, l);
    CountBound(reader.crc, l);
    read := [];
    ghost var j := 0;
    var more := true;
    while more
      invariant reader.reports == 0 && j <= l.Count() && read == l.records[..j]
      invariant more ==> Reading(reader, l, j)
      invariant !more ==> j == l.Count()
      decreases more, l.Count() - j
    {
      var record := ReadNext(reader, l, j);
      if record.Some? {
        read := read + [record.value];
        j := j + 1;
      } else {
        more := false;
      }
    }
  }

  lemma CountBound(crc: Crc, l: CutLog)
    requires l.Ok(crc)
    ensures l.Count() <= |l.records|
  {
    hide FileOf, Fits, Flatten, Whole, IsFragments;
  }
}

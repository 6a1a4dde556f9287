/** What a reader that verifies checksums returns from any file, damaged or not: records whose
    every fragment lies there byte for byte as a writer writes it. */
module LogIntact {
  import opened Coding
  import opened Crc32c
  import opened LogFormat
  import opened LogReader

  lemma MaskUnmask(masked: uint32)
    ensures Mask(Unmask(masked)) == masked
  {
    var rot: int := (masked - MASK_DELTA) % TWO_32;
    var lo, hi := rot / 0x2_0000, rot % 0x2_0000;
    assert 0 <= lo < 0x8000 && 0 <= hi < 0x2_0000 && rot == lo * 0x2_0000 + hi;
    SplitUnmasked(hi, lo);
    assert (rot + MASK_DELTA) % TWO_32 == masked;
  }

  lemma SplitUnmasked(hi: nat, lo: nat)
    requires lo < 0x8000
    ensures (lo + hi * 0x8000) / 0x8000 == hi && (lo + hi * 0x8000) % 0x8000 == lo
  {
  }

  lemma BytesOf(b0: byte, b1: byte, b2: byte, b3: byte)
    ensures EncodeFixed32(DecodeFixed32([b0, b1, b2, b3])) == [b0, b1, b2, b3]
  {
    var x0: int, x1: int, x2: int, x3: int := b0, b1, b2, b3;
    var n := x0 + 0x100 * x1 + 0x1_0000 * x2 + 0x100_0000 * x3;
    assert n / 0x100 == x1 + 0x100 * x2 + 0x1_0000 * x3;
    assert n / 0x1_0000 == x2 + 0x100 * x3;
    assert n / 0x100_0000 == x3;
  }

  lemma EncodeDecodeFixed32(bs: Bytes)
    requires |bs| == 4
    ensures EncodeFixed32(DecodeFixed32(bs)) == bs
  {
    hide EncodeFixed32, DecodeFixed32;
    assert bs == [bs[0], bs[1], bs[2], bs[3]];
    BytesOf(bs[0], bs[1], bs[2], bs[3]);
  }

  /** The physical record the bytes at the front of a buffer claim to be. */
  function Claimed(buffer: Bytes): Physical
    requires |buffer| >= HEADER_SIZE && HEADER_SIZE + ClaimedLength(buffer) <= |buffer|
  {
    Physical(buffer[6], buffer[HEADER_SIZE..HEADER_SIZE + ClaimedLength(buffer)])
  }

  function ClaimedLength(buffer: Bytes): (n: nat)
    requires |buffer| >= HEADER_SIZE
    ensures n < 0x1_0000
  {
    var low: int, high: int := buffer[4], buffer[5];
    low + 256 * high
  }

  /** The stored checksum is right exactly when the bytes are what a writer writes. */
  lemma ChecksumIffRaw(crc: Crc, buffer: Bytes)
    requires |buffer| >= HEADER_SIZE && HEADER_SIZE + ClaimedLength(buffer) <= |buffer|
    ensures
      var size := HEADER_SIZE + ClaimedLength(buffer);
      Unmask(DecodeFixed32(buffer[..4])) == crc(buffer[6..size]) <==> buffer[..size] == Raw(crc, Claimed(buffer))
  {
    hide Mask, Unmask, EncodeFixed32, DecodeFixed32;
    var size, p := HEADER_SIZE + ClaimedLength(buffer), Claimed(buffer);
    assert [p.kind] + p.payload == buffer[6..size];
    var masked := DecodeFixed32(buffer[..4]);
    MaskUnmask(masked);
    UnmaskMask(crc(buffer[6..size]));
    EncodeDecodeFixed32(buffer[..4]);
    Fixed32RoundTrip(Mask(crc(buffer[6..size])));
    var raw := Raw(crc, p);
    assert raw[..4] == EncodeFixed32(Mask(crc(buffer[6..size])));
    assert raw[4..] == [|p.payload| % 256, |p.payload| / 256, p.kind] + p.payload;
    assert buffer[4..size] == [buffer[4], buffer[5], buffer[6]] + p.payload;
    assert buffer[..size] == buffer[..4] + buffer[4..size];
    assert raw == raw[..4] + raw[4..];
    if buffer[..size] == raw {
      assert buffer[..4] == buffer[..size][..4] == raw[..4];
    }
  }

  /** A whole physical record is returned if and only if its bytes are what a writer writes;
      other bytes are reported. */
  lemma ReturnedIffIntact(crc: Crc, st: State)
    requires |st.buffer| >= HEADER_SIZE && HEADER_SIZE + ClaimedLength(st.buffer) <= |st.buffer|
    requires ClaimedLength(st.buffer) > 0 || st.buffer[6] != 0
    ensures
      var size := HEADER_SIZE + ClaimedLength(st.buffer);
      ParseHeader(crc, true, st) ==
        if st.buffer[..size] == Raw(crc, Claimed(st.buffer)) then (st.(buffer := st.buffer[size..]), Fragment(Claimed(st.buffer)))
        else (st.(buffer := []), BadRecord(true))
  {
    hide Raw, Unmask, DecodeFixed32;
    ChecksumIffRaw(crc, st.buffer);
  }

  // ----- where fragments lie -----

  ghost predicate LiesAt(crc: Crc, file: Bytes, pos: nat, p: Physical) {
    && |p.payload| < 0x1_0000 && pos + HEADER_SIZE + |p.payload| <= |file|
    && file[pos..pos + HEADER_SIZE + |p.payload|] == Raw(crc, p)
  }

  /** The buffer holds what comes before the place the file has been read to. */
  ghost predicate Buffered(file: Bytes, st: State) {
    |st.buffer| <= st.filePos <= |file| && st.buffer == file[st.filePos - |st.buffer|..st.filePos]
  }

  /** The first byte of the file not yet given out or given up. */
  function At(st: State): int {
    st.filePos - |st.buffer|
  }

  lemma RefillBuffers(file: Bytes, st: State)
    requires Buffered(file, st)
    ensures Buffered(file, Refill(file, st)) && At(st) <= At(Refill(file, st))
  {
  }

  /** The next physical record, if one is returned, lies in the file behind what was read. */
  lemma PhysicalLies(crc: Crc, file: Bytes, st: State)
    requires Buffered(file, st)
    ensures
      var (st', r) := NextPhysical(crc, true, file, st);
      && Buffered(file, st') && At(st) <= At(st')
      && (r.Fragment? ==> |r.p.payload| < 0x1_0000 && At(st) <= At(st') - HEADER_SIZE - |r.p.payload|
                          && LiesAt(crc, file, At(st') - HEADER_SIZE - |r.p.payload|, r.p))
  {
    hide Refill, Raw, ParseHeader;
    RefillBuffers(file, st);
    var s := Refill(file, st);
    if |s.buffer| >= HEADER_SIZE {
      ParsedLies(crc, file, s);
    }
  }

  lemma ParsedLies(crc: Crc, file: Bytes, s: State)
    requires Buffered(file, s) && |s.buffer| >= HEADER_SIZE
    ensures
      var (st', r) := ParseHeader(crc, true, s);
      && Buffered(file, st') && At(s) <= At(st')
      && (r.Fragment? ==> |r.p.payload| < 0x1_0000 && At(s) == At(st') - HEADER_SIZE - |r.p.payload| && LiesAt(crc, file, At(s), r.p))
  {
    hide Raw, Unmask, DecodeFixed32;
    var b := s.buffer;
    if HEADER_SIZE + ClaimedLength(b) <= |b| && !(b[6] == 0 && ClaimedLength(b) == 0) {
      var size := HEADER_SIZE + ClaimedLength(b);
      ReturnedIffIntact(crc, s);
      assert b[..size] == file[At(s)..At(s) + size];
      assert b[size..] == file[At(s) + size..s.filePos];
    }
  }

  // ----- records -----

  /** Fragments that lie one behind another between two places of the file. */
  ghost predicate Lying(crc: Crc, file: Bytes, fs: seq<Physical>, at: seq<nat>, from: int, to: int) {
    && |at| == |fs|
    && (forall i :: 0 <= i < |fs| ==> LiesAt(crc, file, at[i], fs[i]) && from <= at[i] && at[i] + HEADER_SIZE + |fs[i].payload| <= to)
    && (forall i :: 0 <= i < |fs| - 1 ==> at[i] + HEADER_SIZE + |fs[i].payload| <= at[i + 1])
  }

  /** The record is made of fragments a writer would have written, all there. */
  ghost predicate Intact(crc: Crc, file: Bytes, record: Bytes, from: int, to: int) {
    exists fs, at :: IsFragments(fs, record) && Lying(crc, file, fs, at, from, to)
  }

  /** The fragments of a record so far: a first one and then only middle ones. */
  predicate Opened(fs: seq<Physical>) {
    && fs != [] && fs[0].kind == FIRST_TYPE
    && forall i :: 0 < i < |fs| ==> fs[i].kind == MIDDLE_TYPE
  }

  /** The record being put together is made of fragments that lie in the file. */
  ghost predicate PutTogether(crc: Crc, file: Bytes, w: Partial, fs: seq<Physical>, at: seq<nat>, from: int, to: int) {
    w.inFragment ==> Opened(fs) && Payload(fs) == w.scratch && Lying(crc, file, fs, at, from, to)
  }

  lemma MoreLying(crc: Crc, file: Bytes, fs: seq<Physical>, at: seq<nat>, from: int, to: int, p: Physical, pos: nat, to': int)
    requires Lying(crc, file, fs, at, from, to) && LiesAt(crc, file, pos, p) && from <= to <= pos && pos + HEADER_SIZE + |p.payload| <= to'
    ensures Lying(crc, file, fs + [p], at + [pos], from, to')
  {
    hide LiesAt;
    var more, places := fs + [p], at + [pos];
    forall i | 0 <= i < |more|
      ensures LiesAt(crc, file, places[i], more[i]) && from <= places[i] && places[i] + HEADER_SIZE + |more[i].payload| <= to'
    {
    }
  }

  lemma PayloadMore(fs: seq<Physical>, p: Physical)
    ensures Payload(fs + [p]) == Payload(fs) + p.payload && Payload([p]) == p.payload
  {
    assert (fs + [p])[..|fs|] == fs;
    assert [p][..0] == [];
    assert [] + p.payload == p.payload;
  }

  lemma Finished(fs: seq<Physical>, p: Physical)
    requires Opened(fs) && p.kind == LAST_TYPE
    ensures IsFragments(fs + [p], Payload(fs) + p.payload)
  {
    PayloadMore(fs, p);
  }

  lemma OneFragment(crc: Crc, file: Bytes, p: Physical, pos: nat, from: int, to: int)
    requires LiesAt(crc, file, pos, p) && from <= pos && pos + HEADER_SIZE + |p.payload| <= to
    ensures Lying(crc, file, [p], [pos], from, to) && Payload([p]) == p.payload && Lying(crc, file, [], [], from, from)
    ensures p.kind == FULL_TYPE ==> IsFragments([p], p.payload)
  {
    PayloadMore([], p);
  }

  /** Whatever the file: a record returned is intact. */
  lemma {:induction false} RecordIsIntact(crc: Crc, file: Bytes, st: State, w: Partial, fs: seq<Physical>, at: seq<nat>, from: int)
    requires Buffered(file, st) && from <= At(st) && PutTogether(crc, file, w, fs, at, from, At(st))
    ensures
      var r := NextRecord(crc, true, file, st, w);
      Buffered(file, r.0) && At(st) <= At(r.0) && (r.1.Some? ==> Intact(crc, file, r.1.value, from, At(r.0)))
    decreases Remaining(file, st)
  {
    hide NextPhysical, NextRecord, LiesAt, IsFragments, Payload, Lying, Raw, Opened;
    OneStep(crc, true, file, st, w);
    PhysicalLies(crc, file, st);
    var (st', read) := NextPhysical(crc, true, file, st);
    if read.Fragment? {
      var p, pos := read.p, At(st') - HEADER_SIZE - |read.p.payload|;
      OneFragment(crc, file, p, pos, from, At(st'));
      if w.inFragment {
        MoreLying(crc, file, fs, at, from, At(st), p, pos, At(st'));
        PayloadMore(fs, p);
      }
      var (fs', at') := NextParts(w, fs, at, p, pos);
      NextPutTogether(crc, file, w, fs, at, p, pos, from, At(st), At(st'));
      match Assemble(read, w) {
        case Continue(w') => RecordIsIntact(crc, file, st', w', fs', at', from);
        case _ =>
      }
    } else {
      match Assemble(read, w) {
        case Continue(w') => RecordIsIntact(crc, file, st', w', fs, at, from);
        case _ =>
      }
    }
  }

  function NextParts(w: Partial, fs: seq<Physical>, at: seq<nat>, p: Physical, pos: nat): (seq<Physical>, seq<nat>) {
    if p.kind == MIDDLE_TYPE && w.inFragment then (fs + [p], at + [pos]) else ([p], [pos])
  }

  lemma NextPutTogether(crc: Crc, file: Bytes, w: Partial, fs: seq<Physical>, at: seq<nat>, p: Physical, pos: nat, from: int, to: int, to': int)
    requires PutTogether(crc, file, w, fs, at, from, to) && LiesAt(crc, file, pos, p)
    requires from <= to <= pos && pos + HEADER_SIZE + |p.payload| <= to'
    ensures
      var (fs', at') := NextParts(w, fs, at, p, pos);
      match Assemble(Fragment(p), w)
      case Continue(w') => PutTogether(crc, file, w', fs', at', from, to')
      case Done(record, _) => Intact(crc, file, record, from, to')
      case Stop(_) => true
  {
    hide LiesAt, IsFragments, Payload, Lying;
    OneFragment(crc, file, p, pos, from, to');
    if w.inFragment {
      MoreLying(crc, file, fs, at, from, to, p, pos, to');
      PayloadMore(fs, p);
      if p.kind == LAST_TYPE {
        Finished(fs, p);
        assert IsFragments(fs + [p], w.scratch + p.payload) && Lying(crc, file, fs + [p], at + [pos], from, to');
      }
    }
    if p.kind == FULL_TYPE {
      assert IsFragments([p], p.payload) && Lying(crc, file, [p], [pos], from, to');
    }
  }

  /** A loop over ReadRecord on any file: every record it gets is intact. */
  lemma {:induction false} EveryRecordIsIntact(crc: Crc, file: Bytes, st: State, i: nat)
    requires Buffered(file, st) && i < |AllRecords(crc, true, file, st).0|
    ensures exists from, to :: At(st) <= from && Intact(crc, file, AllRecords(crc, true, file, st).0[i], from, to)
    decreases i
  {
    hide NextRecord, Intact, Buffered, PutTogether;
    NothingPutTogether(crc, file, st);
    RecordIsIntact(crc, file, st, Partial([], false, 0), [], [], At(st));
    var (st', r, reports) := NextRecord(crc, true, file, st, Partial([], false, 0));
    if i == 0 {
      assert AllRecords(crc, true, file, st).0[0] == r.value;
    } else {
      EveryRecordIsIntact(crc, file, st', i - 1);
      assert AllRecords(crc, true, file, st).0[i] == AllRecords(crc, true, file, st').0[i - 1];
    }
  }

  lemma NothingPutTogether(crc: Crc, file: Bytes, st: State)
    requires Buffered(file, st)
    ensures PutTogether(crc, file, Partial([], false, 0), [], [], At(st), At(st)) && st.filePos <= |file|
  {
  }
}

/** The pieces of a table file: handles that say where a block lies, the trailer behind every
    block, and the footer. */
module TableFormat {
  import opened Options
  import opened Coding
  import opened Comparators
  import opened Crc32c
  import FilterBlock

  /** What tables are built and read with.  Compression is any pair of functions; a result
      of None stands for data that cannot be compressed, or not enough. */
  datatype TableOptions = TableOptions(
    cmp: Comparator,
    policy: Option<FilterBlock.Policy>,
    policyName: Bytes,
    blockSize: nat,
    restartInterval: nat,
    verifyChecksums: bool,
    crc: Crc,
    compress: Bytes -> Option<Bytes>,
    uncompress: Bytes -> Option<Bytes>)
  {
    ghost predicate Sound() {
      && restartInterval >= 1 && Transitive(cmp.less)
      && forall data :: compress(data).Some? ==> uncompress(compress(data).value) == Some(data)
    }
  }

  const BLOCK_TRAILER_SIZE := 5
  const NO_COMPRESSION := 0
  const SNAPPY_COMPRESSION := 1

  // ----- handles -----

  datatype BlockHandle = BlockHandle(offset: uint64, size: uint64)

  const MAX_ENCODED_LENGTH := 20

  function EncodeHandle(h: BlockHandle): Bytes {
    EncodeVarint(h.offset) + EncodeVarint(h.size)
  }

  function DecodeHandle(input: Bytes): Option<(BlockHandle, Bytes)> {
    var offset := GetVarint64(input);
    if offset.None? then None
    else
      var rest := input[offset.value.size..];
      var size := GetVarint64(rest);
      if size.None? then None else Some((BlockHandle(offset.value.value, size.value.value), rest[size.value.size..]))
  }

  lemma HandleRoundTrip(h: BlockHandle, rest: Bytes)
    ensures DecodeHandle(EncodeHandle(h) + rest) == Some((h, rest))
    ensures |EncodeHandle(h)| <= MAX_ENCODED_LENGTH
  {
    hide EncodeVarint, GetVarint64;
    var a, b := EncodeVarint(h.offset), EncodeVarint(h.size);
    GetVarint64Encoded(h.offset, b + rest);
    GetVarint64Encoded(h.size, rest);
    Varint64Size(h.offset);
    Varint64Size(h.size);
    assert EncodeHandle(h) + rest == a + (b + rest);
    assert (a + (b + rest))[|a|..] == b + rest;
    assert (b + rest)[|b|..] == rest;
  }

  // ----- the footer -----

  const FOOTER_SIZE := 48

  /** The magic number, low half first. */
  const MAGIC_LOW: uint32 := 0x8b80fb57
  const MAGIC_HIGH: uint32 := 0xdb477524

  function Padded(handles: Bytes): (bs: Bytes)
    requires |handles| <= 2 * MAX_ENCODED_LENGTH
    ensures |bs| == 2 * MAX_ENCODED_LENGTH && bs[..|handles|] == handles
  {
    handles + Zeros(2 * MAX_ENCODED_LENGTH - |handles|)
  }

  function EncodeFooter(metaindex: BlockHandle, index: BlockHandle): (bs: Bytes)
    ensures |bs| == FOOTER_SIZE
  {
    HandleRoundTrip(metaindex, []);
    HandleRoundTrip(index, []);
    Padded(EncodeHandle(metaindex) + EncodeHandle(index)) + EncodeFixed32(MAGIC_LOW) + EncodeFixed32(MAGIC_HIGH)
  }

  datatype FooterRead = Footer(metaindex: BlockHandle, index: BlockHandle) | BadFooter(message: string)

  function DecodeFooter(input: Bytes): FooterRead
    requires |input| == FOOTER_SIZE
  {
    if DecodeFixed32(input[40..44]) != MAGIC_LOW || DecodeFixed32(input[44..48]) != MAGIC_HIGH then
      BadFooter("not an sstable (bad magic number)")
    else
      var m := DecodeHandle(input);
      var i := if m.None? then None else DecodeHandle(m.value.1);
      if i.None? then BadFooter("bad block handle") else Footer(m.value.0, i.value.0)
  }

  lemma FooterRoundTrip(metaindex: BlockHandle, index: BlockHandle)
    ensures DecodeFooter(EncodeFooter(metaindex, index)) == Footer(metaindex, index)
  {
    hide EncodeHandle, DecodeHandle, EncodeFixed32, DecodeFixed32, Padded;
    HandleRoundTrip(metaindex, []);
    HandleRoundTrip(index, []);
    var a, b := EncodeHandle(metaindex), EncodeHandle(index);
    var footer, body := EncodeFooter(metaindex, index), Padded(a + b);
    Fixed32RoundTrip(MAGIC_LOW);
    Fixed32RoundTrip(MAGIC_HIGH);
    assert footer[40..44] == EncodeFixed32(MAGIC_LOW) && footer[44..48] == EncodeFixed32(MAGIC_HIGH);
    var tail := footer[|a + b|..];
    assert footer == body[..|a + b|] + tail;
    assert footer == a + (b + tail);
    HandleRoundTrip(metaindex, b + tail);
    HandleRoundTrip(index, tail);
  }

  // ----- blocks in the file -----

  function Trailer(crc: Crc, stored: Bytes, kind: byte): (bs: Bytes)
    ensures |bs| == BLOCK_TRAILER_SIZE
  {
    [kind] + EncodeFixed32(Mask(crc(stored + [kind])))
  }

  /** What a stored block of a kind decodes to. */
  predicate DecodesTo(o: TableOptions, stored: Bytes, kind: byte, contents: Bytes) {
    if kind == NO_COMPRESSION then stored == contents else kind == SNAPPY_COMPRESSION && o.uncompress(stored) == Some(contents)
  }

  ghost predicate StoredAs(file: Bytes, o: TableOptions, h: BlockHandle, stored: Bytes, kind: byte, contents: Bytes) {
    && |stored| == h.size && h.offset + h.size + BLOCK_TRAILER_SIZE <= |file|
    && file[h.offset..h.offset + h.size + BLOCK_TRAILER_SIZE] == stored + Trailer(o.crc, stored, kind)
    && DecodesTo(o, stored, kind, contents)
  }

  /** The contents lie in the file where the handle says. */
  ghost predicate StoredAt(file: Bytes, o: TableOptions, h: BlockHandle, contents: Bytes) {
    exists stored, kind: byte :: StoredAs(file, o, h, stored, kind, contents)
  }

  lemma StillStored(file: Bytes, more: Bytes, o: TableOptions, h: BlockHandle, contents: Bytes)
    requires StoredAt(file, o, h, contents)
    ensures StoredAt(file + more, o, h, contents)
  {
    hide Trailer, DecodesTo;
    var stored, kind: byte :| StoredAs(file, o, h, stored, kind, contents);
    var end := h.offset + h.size + BLOCK_TRAILER_SIZE;
    assert (file + more)[h.offset..end] == file[h.offset..end];
    assert StoredAs(file + more, o, h, stored, kind, contents);
  }

  datatype BlockRead = Contents(data: Bytes) | Corruption(message: string)

  /** Reads a block, checking the checksum when asked to. */
  function ReadBlock(file: Bytes, o: TableOptions, h: BlockHandle): BlockRead {
    var from := if h.offset < |file| then h.offset else |file|;
    var to := if h.offset + h.size + BLOCK_TRAILER_SIZE < |file| then h.offset + h.size + BLOCK_TRAILER_SIZE else |file|;
    var contents := file[from..to];
    var n := h.size;
    if |contents| != n + BLOCK_TRAILER_SIZE then Corruption("truncated block read")
    else if o.verifyChecksums && o.crc(contents[..n + 1]) != Unmask(DecodeFixed32(contents[n + 1..])) then
      Corruption("block checksum mismatch")
    else if contents[n] == NO_COMPRESSION then Contents(contents[..n])
    else if contents[n] == SNAPPY_COMPRESSION then
      var data := o.uncompress(contents[..n]);
      if data.None? then Corruption("corrupted compressed block contents") else Contents(data.value)
    else Corruption("bad block type")
  }

  /** Reading a stored block gives its contents. */
  lemma ReadStored(file: Bytes, o: TableOptions, h: BlockHandle, contents: Bytes)
    requires StoredAt(file, o, h, contents)
    ensures ReadBlock(file, o, h) == Contents(contents)
  {
    hide Mask, Unmask, EncodeFixed32, DecodeFixed32;
    var stored, kind: byte :| StoredAs(file, o, h, stored, kind, contents);
    var all, n := stored + Trailer(o.crc, stored, kind), |stored|;
    var sum := o.crc(stored + [kind]);
    assert all[..n + 1] == stored + [kind] && all[..n] == stored && all[n] == kind;
    assert all[n + 1..] == EncodeFixed32(Mask(sum));
    Fixed32RoundTrip(Mask(sum));
    UnmaskMask(sum);
  }
}

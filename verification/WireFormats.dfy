/** Known bytes of the formats: what each of them looks like for one small value.  With these
    a reader and a writer that agree with each other also agree with the format. */
module WireFormats {
  import opened Options
  import opened Coding
  import Crc32c
  import LogFormat
  import WriteBatches
  import TableFormat
  import BlockFormat
  import VersionEditCodec
  import Comparators
  import opened PbVarint
  import opened PbCommon
  import opened PbEncode

  lemma FixedWidthBytes()
    ensures EncodeFixed32(0x0403_0201) == [1, 2, 3, 4] && EncodeFixed64(0x0807_0605_0403_0201) == [1, 2, 3, 4, 5, 6, 7, 8]
  {
  }

  lemma VarintBytes()
    ensures EncodeVarint(1) == [1] && EncodeVarint(150) == [0x96, 1] && EncodeVarint(300) == [0xAC, 2] && EncodeVarint(86942) == [0x9E, 0xA7, 5]
    ensures LengthPrefixed([97, 98]) == [2, 97, 98]
  {
    assert EncodeVarint(86942 / 128) == [679 % 128 + 128] + EncodeVarint(679 / 128);
  }

  lemma MaskedBytes()
    ensures Crc32c.Mask(0) == 0xa282_ead8 && Crc32c.Mask(1) == 0xa284_ead8 && Crc32c.Mask(0x8000) == 0xa282_ead9
  {
  }

  /** A record of one byte in one fragment. */
  lemma LogRecordBytes(crc: Crc32c.Crc)
    ensures LogFormat.Raw(crc, LogFormat.Physical(LogFormat.FULL_TYPE, [97])) == EncodeFixed32(Crc32c.Mask(crc([1, 97]))) + [1, 0, 1, 97]
    ensures LogFormat.FIRST_TYPE == 2 && LogFormat.MIDDLE_TYPE == 3 && LogFormat.LAST_TYPE == 4 && LogFormat.BLOCK_SIZE == 32768
  {
    hide EncodeFixed32, Crc32c.Mask;
    assert [LogFormat.FULL_TYPE as byte] + [97] == [1, 97];
  }

  /** Sequence number 5, two operations: a put and a delete. */
  lemma BatchBytes()
    ensures WriteBatches.Rep(5, [WriteBatches.Put([97], [120]), WriteBatches.Delete([98])])
      == [5, 0, 0, 0, 0, 0, 0, 0, 2, 0, 0, 0, 1, 1, 97, 1, 120, 0, 1, 98]
  {
    hide WriteBatches.OpsBytes, WriteBatches.OpBytes, EncodeFixed32, EncodeFixed64;
    assert EncodeFixed64(5) == [5, 0, 0, 0, 0, 0, 0, 0] && EncodeFixed32(2) == [2, 0, 0, 0] by { SmallFixed(); }
    TwoOps();
    var ops := [WriteBatches.Put([97], [120]), WriteBatches.Delete([98])];
    assert |ops| == 2;
  }

  lemma SmallFixed()
    ensures EncodeFixed64(5) == [5, 0, 0, 0, 0, 0, 0, 0] && EncodeFixed32(2) == [2, 0, 0, 0]
  {
  }

  lemma TwoOps()
    ensures WriteBatches.OpsBytes([WriteBatches.Put([97], [120]), WriteBatches.Delete([98])]) == [1, 1, 97, 1, 120, 0, 1, 98]
  {
    hide WriteBatches.OpsBytes, WriteBatches.OpBytes;
    var put, delete := WriteBatches.Put([97], [120]), WriteBatches.Delete([98]);
    WriteBatches.OpsBytesNext([put], delete);
    WriteBatches.OneOp(put);
    assert [put] + [delete] == [put, delete];
    OpBytesKnown();
  }

  lemma OpBytesKnown()
    ensures WriteBatches.OpBytes(WriteBatches.Put([97], [120])) == [1, 1, 97, 1, 120]
    ensures WriteBatches.OpBytes(WriteBatches.Delete([98])) == [0, 1, 98]
  {
    assert LengthPrefixed([97]) == [1, 97] && LengthPrefixed([120]) == [1, 120] && LengthPrefixed([98]) == [1, 98];
  }

  /** User key "a", sequence number 5: a put and a deletion. */
  lemma InternalKeyBytes()
    ensures Comparators.WithTag([97], 5 * 256 + 1) == [97, 1, 5, 0, 0, 0, 0, 0, 0]
    ensures Comparators.WithTag([97], 5 * 256) == [97, 0, 5, 0, 0, 0, 0, 0, 0]
  {
  }

  /** Two keys that share a byte, one restart point. */
  ghost function TwoKeys(): BlockFormat.Layout {
    BlockFormat.Layout([BlockFormat.Entry([97, 98], [120]), BlockFormat.Entry([97, 99], [121])], [0, 1], [0])
  }

  lemma TwoKeysGood()
    ensures BlockFormat.Good(TwoKeys())
  {
    var l := TwoKeys();
    assert BlockFormat.SharedOk(l, 0) && BlockFormat.SharedOk(l, 1);
  }

  lemma EntryBytesKnown()
    ensures BlockFormat.EntryBytes(0, BlockFormat.Entry([97, 98], [120])) == [0, 2, 1, 97, 98, 120]
    ensures BlockFormat.EntryBytes(1, BlockFormat.Entry([97, 99], [121])) == [1, 1, 1, 99, 121]
  {
  }

  lemma TwoKeysData()
    ensures
      var l := TwoKeys();
      BlockFormat.Good(l) && BlockFormat.Data(l, 2) == [0, 2, 1, 97, 98, 120, 1, 1, 1, 99, 121]
  {
    hide BlockFormat.EntryBytes, BlockFormat.Data, BlockFormat.Good;
    TwoKeysGood();
    EntryBytesKnown();
    var l := TwoKeys();
    NoData(l);
    BlockFormat.DataNext(l, 0);
    BlockFormat.DataNext(l, 1);
  }

  lemma NoData(l: BlockFormat.Layout)
    requires BlockFormat.Good(l)
    ensures BlockFormat.Data(l, 0) == []
  {
  }

  lemma BlockOfTwo()
    ensures
      var l := TwoKeys();
      && BlockFormat.Good(l) && BlockFormat.Offset(l, |l.entries|) < TWO_32
      && BlockFormat.BlockBytes(l) == [0, 2, 1, 97, 98, 120, 1, 1, 1, 99, 121, 0, 0, 0, 0, 1, 0, 0, 0]
  {
    hide BlockFormat.EntryBytes, BlockFormat.Data, BlockFormat.Good, EncodeFixed32;
    TwoKeysData();
    var l := TwoKeys();
    NoData(l);
    BlockFormat.OffsetsFit(l);
    assert BlockFormat.RestartOffsets(l) == [0];
    OneWord();
    assert EncodeFixed32(1) == [1, 0, 0, 0] by { OneFixed(); }
  }

  lemma OneFixed()
    ensures EncodeFixed32(1) == [1, 0, 0, 0]
  {
  }

  lemma OneWord()
    ensures Fixed32Array([0]) == [0, 0, 0, 0]
  {
    assert [0][..0] == [];
    assert Fixed32Array([]) == [];
  }

  /** Two handles, padded to forty bytes, and the magic number. */
  lemma FooterBytes()
    ensures
      var footer := TableFormat.EncodeFooter(TableFormat.BlockHandle(300, 1), TableFormat.BlockHandle(2, 3));
      footer[..5] == [0xAC, 2, 1, 2, 3] && footer[5..40] == Zeros(35) && footer[40..] == [0x57, 0xfb, 0x80, 0x8b, 0x24, 0x75, 0x47, 0xdb]
  {
    VarintBytes();
    assert TableFormat.EncodeHandle(TableFormat.BlockHandle(300, 1)) == [0xAC, 2, 1];
    assert TableFormat.EncodeHandle(TableFormat.BlockHandle(2, 3)) == [2, 3];
    assert EncodeFixed32(TableFormat.MAGIC_LOW) == [0x57, 0xfb, 0x80, 0x8b];
    assert EncodeFixed32(TableFormat.MAGIC_HIGH) == [0x24, 0x75, 0x47, 0xdb];
  }

  /** The kind of a stored block and its masked checksum. */
  lemma TrailerBytes(crc: Crc32c.Crc)
    ensures TableFormat.Trailer(crc, [97], 1) == [1] + EncodeFixed32(Crc32c.Mask(crc([97, 1])))
  {
    hide EncodeFixed32, Crc32c.Mask;
    assert [97] + [1] == [97, 1];
  }

  /** Each field of a version edit under its number. */
  lemma EditBytes()
    ensures VersionEditCodec.ItemBytes(VersionEditCodec.Comparator([97])) == [1, 1, 97]
    ensures VersionEditCodec.ItemBytes(VersionEditCodec.Number(VersionEditCodec.LogNumber, 5)) == [2, 5]
    ensures VersionEditCodec.ItemBytes(VersionEditCodec.Number(VersionEditCodec.NextFileNumber, 5)) == [3, 5]
    ensures VersionEditCodec.ItemBytes(VersionEditCodec.Number(VersionEditCodec.LastSequence, 5)) == [4, 5]
    ensures VersionEditCodec.ItemBytes(VersionEditCodec.CompactPointer(6, [97])) == [5, 6, 1, 97]
    ensures VersionEditCodec.ItemBytes(VersionEditCodec.DeletedFile(6, 8)) == [6, 6, 8]
    ensures VersionEditCodec.ItemBytes(VersionEditCodec.NewFile(6, VersionEditCodec.FileMetaData(8, 9, [97], [98]))) == [7, 6, 8, 9, 1, 97, 1, 98]
    ensures VersionEditCodec.ItemBytes(VersionEditCodec.Number(VersionEditCodec.PrevLogNumber, 5)) == [9, 5]
  {
    assert LengthPrefixed([97]) == [1, 97] && LengthPrefixed([98]) == [1, 98];
  }

  // ----- Protocol Buffers -----

  function Of(tag: nat, ltype: LType, htype: HType): Field {
    Field(tag, ltype, htype, if ltype.Fixed64? then 8 else if ltype.StringField? then 16 else 4, 8, 0, Desc([]))
  }

  /** Examples of the encoding guide: numbers, a string, a packed array. */
  lemma NumbersKnown()
    ensures TaggedBytes(Of(1, UVarint, Required), IntVal(150)) == Some([0x08, 0x96, 0x01])
    ensures TaggedBytes(Of(1, SVarint, Required), IntVal(-75)) == Some([0x08, 0x95, 0x01])
    ensures TaggedBytes(Of(1, Bool, Required), BoolVal(true)) == Some([0x08, 0x01])
  {
    assert EncodeVarint(150) == [0x96, 1];
    assert EncodeVarint(149) == [0x95, 1];
    assert EncodeVarint(8) == [8];
    assert Zigzag(-75) == 149;
    assert [8] + [0x96, 1] == [0x08, 0x96, 0x01] && [8] + [0x95, 1] == [0x08, 0x95, 0x01] && [8] + [1] == [0x08, 0x01];
  }

  lemma WordsKnown()
    ensures TaggedBytes(Of(1, Fixed32, Required), IntVal(0x0403_0201)) == Some([0x0D, 1, 2, 3, 4])
    ensures TaggedBytes(Of(1, Fixed64, Required), IntVal(0x0807_0605_0403_0201)) == Some([0x09, 1, 2, 3, 4, 5, 6, 7, 8])
  {
    hide EncodeFixed32, EncodeFixed64;
    FixedWidthBytes();
    assert EncodeVarint(0x0D) == [0x0D] && EncodeVarint(9) == [9];
    assert [0x0D] + [1, 2, 3, 4] == [0x0D, 1, 2, 3, 4] && [9] + [1, 2, 3, 4, 5, 6, 7, 8] == [0x09, 1, 2, 3, 4, 5, 6, 7, 8];
  }

  const TESTING: Bytes := [116, 101, 115, 116, 105, 110, 103]

  lemma StringKnown()
    ensures ValueFits(Of(2, StringField, Required), DataVal(TESTING + [0]))
    ensures TaggedBytes(Of(2, StringField, Required), DataVal(TESTING + [0])) == Some([0x12, 7] + TESTING)
  {
    hide CString;
    assert TESTING + [0] == [116, 101, 115, 116, 105, 110, 103, 0];
    assert HasTerminator(TESTING + [0]);
    assert CString(TESTING + [0]) == TESTING by { UpToZero(TESTING); }
    assert EncodeVarint(0x12) == [0x12] && EncodeVarint(7) == [7];
    assert [0x12] + ([7] + TESTING) == [0x12, 7] + TESTING;
  }

  lemma {:induction false} UpToZero(chars: Bytes)
    requires NoZeros(chars)
    ensures CString(chars + [0]) == chars
  {
    if chars == [] {
      assert [] + [0] == [0];
    } else {
      assert (chars + [0])[1..] == chars[1..] + [0];
      UpToZero(chars[1..]);
      assert chars == [chars[0]] + chars[1..];
    }
  }

  lemma PackedKnown()
    ensures ArrayBytes(Of(4, UVarint, Repeated), [IntVal(3), IntVal(270), IntVal(86942)]) == Some([0x22, 6, 3, 0x8E, 2, 0x9E, 0xA7, 5])
  {
    hide EncodeVarint, PackedBytes;
    var f, items := Of(4, UVarint, Repeated), [IntVal(3), IntVal(270), IntVal(86942)];
    assert EncodeVarint(3) == [3] && EncodeVarint(270) == [0x8E, 2] && EncodeVarint(86942) == [0x9E, 0xA7, 5] by { ThreeVarints(); }
    assert EncodeVarint(0x22) == [0x22] && EncodeVarint(6) == [6] by { ThreeVarints(); }
    PackedStep(f, items, 0);
    PackedStep(f, items, 1);
    PackedStep(f, items, 2);
    assert [] + [3] + [0x8E, 2] + [0x9E, 0xA7, 5] == [3, 0x8E, 2, 0x9E, 0xA7, 5];
    assert PackedBytes(f, items, 3) == Some([3, 0x8E, 2, 0x9E, 0xA7, 5]);
    assert [0x22] + ([6] + [3, 0x8E, 2, 0x9E, 0xA7, 5]) == [0x22, 6, 3, 0x8E, 2, 0x9E, 0xA7, 5];
  }

  lemma ThreeVarints()
    ensures EncodeVarint(3) == [3] && EncodeVarint(270) == [0x8E, 2] && EncodeVarint(86942) == [0x9E, 0xA7, 5]
    ensures EncodeVarint(0x22) == [0x22] && EncodeVarint(6) == [6]
  {
    VarintBytes();
  }

  lemma PackedStep(f: Field, items: seq<Value>, n: nat)
    requires n < |items| && forall v :: v in items ==> ValueFits(f, v)
    ensures PackedBytes(f, items, 0) == Some([])
    ensures items[n] in items && PackedBytes(f, items, n + 1) == Append(PackedBytes(f, items, n), ValueBytes(f, items[n]))
  {
    hide ValueBytes, ValueFits;
  }
}

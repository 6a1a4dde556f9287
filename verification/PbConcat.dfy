/** Input one part after another: the second part is decoded into what the first one left. */
module PbConcat {
  import opened Options
  import opened Coding
  import opened PbVarint
  import opened PbCommon
  import opened PbEncode
  import opened PbDecode
  import opened PbRoundTrip
  import opened PbCompat

  // ----- what a decoder takes from the front does not depend on what follows -----

  lemma FirstOf(input: Bytes, more: Bytes)
    requires input != []
    ensures (input + more)[0] == input[0] && (input + more)[1..] == input[1..] + more
  {
  }

  lemma {:induction false} Varint64More(input: Bytes, more: Bytes, limit: nat)
    requires DecodeVarint(input, limit).Some?
    ensures DecodeVarint(input + more, limit) == DecodeVarint(input, limit)
  {
    FirstOf(input, more);
    if input[0] >= 128 {
      Varint64More(input[1..], more, limit - 1);
    }
  }

  lemma Uint64More(input: Bytes, more: Bytes)
    requires DecodeUint64(input).Some?
    ensures DecodeUint64(input + more) == Some((DecodeUint64(input).value.0, DecodeUint64(input).value.1 + more))
  {
    hide DecodeVarint;
    Varint64More(input, more, 10);
    var n := DecodeVarint(input, 10).value.size;
    assert (input + more)[n..] == input[n..] + more;
  }

  lemma {:induction false} From32More(result: uint32, bitpos: nat, input: Bytes, more: Bytes)
    requires bitpos > 0 && bitpos % 7 == 0 && (bitpos < 32 ==> result < Power128(bitpos / 7))
    requires Decode32From(result, bitpos, input).Some?
    ensures Decode32From(result, bitpos, input + more)
      == Some((Decode32From(result, bitpos, input).value.0, Decode32From(result, bitpos, input).value.1 + more))
    decreases |input|
  {
    hide Or32, SignExtension, Power128;
    FirstOf(input, more);
    var b: int := input[0];
    var low := b % 128;
    var result' := if bitpos >= 32 then result else Or32(result, bitpos, low);
    Decode32Unfold(result, bitpos, input);
    Decode32Unfold(result, bitpos, input + more);
    if b >= 128 {
      From32More(result', bitpos + 7, input[1..], more);
    }
  }

  lemma Uint32More(input: Bytes, more: Bytes)
    requires DecodeUint32(input).Some?
    ensures DecodeUint32(input + more) == Some((DecodeUint32(input).value.0, DecodeUint32(input).value.1 + more))
  {
    hide Decode32From;
    FirstOf(input, more);
    if input[0] >= 128 {
      SmallPowers();
      From32More(input[0] - 128, 7, input[1..], more);
    }
  }

  lemma TakeMore(input: Bytes, more: Bytes, n: nat)
    requires Take(input, n).Some?
    ensures Take(input + more, n) == Some((Take(input, n).value.0, Take(input, n).value.1 + more))
  {
    assert (input + more)[..n] == input[..n] && (input + more)[n..] == input[n..] + more;
  }

  lemma PrefixedMore(input: Bytes, more: Bytes)
    requires TakePrefixed(input).Some?
    ensures TakePrefixed(input + more) == Some((TakePrefixed(input).value.0, TakePrefixed(input).value.1 + more))
  {
    hide DecodeUint32, Take;
    Uint32More(input, more);
    var size := DecodeUint32(input).value;
    TakeMore(size.1, more, size.0);
  }

  lemma {:induction false} SkipVarintMore(input: Bytes, more: Bytes)
    requires SkipVarint(input).Some?
    ensures SkipVarint(input + more) == Some(SkipVarint(input).value + more)
  {
    FirstOf(input, more);
    if input[0] >= 128 {
      SkipVarintMore(input[1..], more);
    }
  }

  lemma SkipMore(wireType: nat, input: Bytes, more: Bytes)
    requires SkipField(wireType, input).Some?
    ensures SkipField(wireType, input + more) == Some(SkipField(wireType, input).value + more)
  {
    hide SkipVarint, TakePrefixed;
    if wireType == WT_VARINT {
      SkipVarintMore(input, more);
    } else if wireType == WT_STRING {
      PrefixedMore(input, more);
    } else if wireType == WT_64BIT {
      assert (input + more)[8..] == input[8..] + more;
    } else {
      assert (input + more)[4..] == input[4..] + more;
    }
  }

  lemma TagMore(input: Bytes, more: Bytes)
    requires DecodeTag(input).TagFound?
    ensures var t := DecodeTag(input); DecodeTag(input + more) == TagFound(t.tag, t.wireType, t.rest + more)
  {
    hide DecodeUint32;
    Uint32More(input, more);
  }

  lemma ValueMore(f: Field, input: Bytes, old': Value, more: Bytes)
    requires DecodeValue(f, input, old').Some?
    ensures DecodeValue(f, input + more, old') == Some((DecodeValue(f, input, old').value.0, DecodeValue(f, input, old').value.1 + more))
  {
    hide DecodeUint32, DecodeUint64, Take, TakePrefixed, DecodeMessage, CastSigned, CastUnsigned, Unzigzag, OldSlots,
      InitMessage;
    match f.ltype {
      case Bool => Uint32More(input, more);
      case Varint => Uint64More(input, more);
      case UVarint => Uint64More(input, more);
      case SVarint => Uint64More(input, more);
      case Fixed32 => TakeMore(input, more, 4);
      case Fixed64 => TakeMore(input, more, 8);
      case Submessage => PrefixedMore(input, more);
      case _ => DataMore(f, input, old', more);
    }
  }

  lemma DataMore(f: Field, input: Bytes, old': Value, more: Bytes)
    requires (f.ltype.BytesField? || f.ltype.StringField? || f.ltype.FixedLengthBytes?) && DecodeValue(f, input, old').Some?
    ensures DecodeValue(f, input + more, old') == Some((DecodeValue(f, input, old').value.0, DecodeValue(f, input, old').value.1 + more))
  {
    hide DecodeUint32, Take;
    Uint32More(input, more);
    var size := DecodeUint32(input).value;
    if Take(size.1, size.0).Some? {
      TakeMore(size.1, more, size.0);
    }
  }

  lemma FieldMore(f: Field, wireType: nat, input: Bytes, slot: Slot, more: Bytes)
    requires DecodeField(f, wireType, input, slot).Some?
    ensures DecodeField(f, wireType, input + more, slot)
      == Some((DecodeField(f, wireType, input, slot).value.0, DecodeField(f, wireType, input, slot).value.1 + more))
  {
    hide DecodeValue, TakePrefixed, DecodePacked, InitValue, OldValue;
    if f.htype.Repeated? && wireType == WT_STRING && f.ltype.Packable() {
      PrefixedMore(input, more);
    } else if f.htype.Repeated? || f.htype.Oneof? {
      ValueMore(f, input, InitValue(f), more);
    } else {
      ValueMore(f, input, OldValue(f, slot), more);
    }
  }

  // ----- messages -----

  /** The fields end with the input, not before it at a zero tag. */
  predicate RunsToEnd(d: Desc, input: Bytes, p: Progress)
    requires ProgressOk(d, p)
    decreases |input|
  {
    match DecodeTag(input)
    case TagFound(tag, wireType, rest) =>
      (match FindField(d.fields, p.pos, tag)
       case None =>
         var after := SkipField(wireType, rest);
         after.Some? && RunsToEnd(d, after.value, p)
       case Some(i) =>
         var v := DecodeField(d.fields[i], wireType, rest, p.slots[i]);
         v.Some? && RunsToEnd(d, v.value.1, Progress(StoreSlot(d, p.slots, i, v.value.0), MarkSeen(d, i, p.seen), i)))
    case _ => input == []
  }

  /** Two parts one after another: the fields of the second are decoded into what the first
      left.  So messages written one after another are merged. */
  lemma {:induction false} PartAfterPart(d: Desc, a: Bytes, b: Bytes, p: Progress)
    requires ProgressOk(d, p) && RunsToEnd(d, a, p)
    ensures DecodeFields(d, a, p).Some? && DecodeFields(d, a + b, p) == DecodeFields(d, b, DecodeFields(d, a, p).value)
    decreases |a|
  {
    hide DecodeTag, FindField, SkipField, DecodeField, StoreSlot, MarkSeen, DecodeFields;
    FieldsUnfold(d, a, p);
    var t := DecodeTag(a);
    if t.TagFound? {
      TagMore(a, b);
      FieldsUnfold(d, a + b, p);
      var i := FindField(d.fields, p.pos, t.tag);
      if i.None? {
        SkipMore(t.wireType, t.rest, b);
        PartAfterPart(d, SkipField(t.wireType, t.rest).value, b, p);
      } else {
        FieldMore(d.fields[i.value], t.wireType, t.rest, p.slots[i.value], b);
        var v := DecodeField(d.fields[i.value], t.wireType, t.rest, p.slots[i.value]).value;
        PartAfterPart(d, v.1, b, Progress(StoreSlot(d, p.slots, i.value, v.0), MarkSeen(d, i.value, p.seen), i.value));
      }
    } else {
      assert a + b == b;
      FieldsEnd(d, p);
    }
  }

  /** A submessage is decoded into the one there is, or into the defaults where there is none. */
  lemma SubmessageIsMerged(d: Desc, i: nat, s: Bytes, tail: Bytes, p: Progress)
    requires WellFormed(d) && ProgressOk(d, p) && i < |d.fields| && d.fields[i].ltype.Submessage?
    requires (d.fields[i].htype.Singular? || d.fields[i].htype.Required? || d.fields[i].htype.Optional?) && |s| < TWO_32
    requires p.slots[i].Single? ==> p.slots[i].value.MsgVal? && |p.slots[i].value.slots| == |d.fields[i].sub.fields|
    requires p.slots[i].Maybe? && p.slots[i].opt.Some? ==> p.slots[i].opt.value.MsgVal? && |p.slots[i].opt.value.slots| == |d.fields[i].sub.fields|
    ensures
      var f := d.fields[i];
      var there := match p.slots[i] case Single(v) => v.slots case Maybe(Some(v)) => v.slots case _ => InitMessage(f.sub);
      var m := DecodeMessage(f.sub, s, there);
      DecodeFields(d, Tagged(f.tag, Data(s)) + tail, p) ==
        if m.None? then None
        else DecodeFields(d, tail, Progress(StoreSlot(d, p.slots, i, SlotOf(f, MsgVal(m.value))), MarkSeen(d, i, p.seen), i))
  {
    hide DecodeFields, DecodeTag, FindField, EncodeVarint, LengthPrefixed, TakePrefixed, StoreSlot, MarkSeen,
      DecodeMessage, InitMessage, WellFormed;
    var f := d.fields[i];
    TagInRange(d, i);
    TagIsFound(d, p.pos, i);
    PrefixedRoundTrip(s, tail);
    MoreBytes3(EncodeVarint(8 * f.tag + 2), LengthPrefixed(s), tail);
    MeetsTag(f.tag, 2, LengthPrefixed(s) + tail);
    FieldsUnfold(d, Tagged(f.tag, Data(s)) + tail, p);
  }

  // ----- input that is cut off -----

  lemma CutParts(bytes: Bytes, n: nat)
    requires n < |bytes|
    ensures bytes[..n] + bytes[n..] == bytes && bytes[n..] != [] && bytes + [] == bytes
  {
  }

  lemma {:induction false} CutVarintIsRefused(m: uint32, n: nat)
    requires n < |EncodeVarint(m)|
    ensures DecodeUint32(EncodeVarint(m)[..n]) == None
  {
    hide DecodeUint32, EncodeVarint;
    var bytes := EncodeVarint(m);
    CutParts(bytes, n);
    Decode32Small(m, []);
    if DecodeUint32(bytes[..n]).Some? {
      Uint32More(bytes[..n], bytes[n..]);
    }
  }

  /** No part of a value short of all of it decodes. */
  lemma CutValueIsRefused(f: Field, v: Value, n: nat, old': Value)
    requires ValueFits(f, v) && ValueTerminated(f, v) && !f.ltype.Submessage?
    requires ValueBytes(f, v).Some? && n < |ValueBytes(f, v).value| < TWO_32
    ensures DecodeValue(f, ValueBytes(f, v).value[..n], old') == None
  {
    hide ValueFits, ValueTerminated, ValueBytes, DecodeValue;
    var bytes := ValueBytes(f, v).value;
    CutParts(bytes, n);
    ScalarRoundTrip(f, v, [], old');
    if DecodeValue(f, bytes[..n], old').Some? {
      ValueMore(f, bytes[..n], old', bytes[n..]);
    }
  }

  lemma CutPayloadIsRefused(x: Payload, n: nat)
    requires x.Ok() && n < |x.Bytes()|
    ensures SkipField(x.Kind(), x.Bytes()[..n]) == None
  {
    hide SkipField, Payload.Bytes, Payload.Kind;
    CutParts(x.Bytes(), n);
    SkipsPayload(x, []);
    if SkipField(x.Kind(), x.Bytes()[..n]).Some? {
      SkipMore(x.Kind(), x.Bytes()[..n], x.Bytes()[n..]);
    }
  }

  /** A message that ends in the middle of a field is refused: of a number or string it has ... */
  lemma CutFieldIsRefused(d: Desc, i: nat, v: Value, n: nat, p: Progress)
    requires WellFormed(d) && ProgressOk(d, p) && i < |d.fields| && !d.fields[i].htype.Repeated? && !d.fields[i].ltype.Submessage?
    requires ValueFits(d.fields[i], v) && ValueTerminated(d.fields[i], v)
    requires TaggedBytes(d.fields[i], v).Some? && 0 < n < |TaggedBytes(d.fields[i], v).value| < TWO_32
    ensures DecodeFields(d, TaggedBytes(d.fields[i], v).value[..n], p) == None
  {
    hide WellFormed, ValueFits, ValueTerminated, ValueBytes, DecodeValue, DecodeFields, DecodeUint32, EncodeVarint,
      FindField, InitValue, OldValue;
    var f := d.fields[i];
    var tag, bytes := TagBytes(f, WireType(f.ltype)), ValueBytes(f, v).value;
    var cut := (tag + bytes)[..n];
    FieldsUnfold(d, cut, p);
    TagInRange(d, i);
    if n < |tag| {
      assert cut == tag[..n];
      CutVarintIsRefused(8 * f.tag + WireType(f.ltype), n);
    } else {
      assert cut == tag + bytes[..n - |tag|];
      TagRoundTrip(f, WireType(f.ltype), bytes[..n - |tag|]);
      TagIsFound(d, p.pos, i);
      CutValueIsRefused(f, v, n - |tag|, OldValue(f, p.slots[i]));
      CutValueIsRefused(f, v, n - |tag|, InitValue(f));
    }
  }

  /** ... and of any field it has not. */
  lemma CutUnknownIsRefused(d: Desc, tag: nat, x: Payload, n: nat, p: Progress)
    requires ProgressOk(d, p) && 1 <= tag < MAX_TAG && x.Ok() && forall i :: 0 <= i < |d.fields| ==> d.fields[i].tag != tag
    requires 0 < n < |Tagged(tag, x)|
    ensures DecodeFields(d, Tagged(tag, x)[..n], p) == None
  {
    hide DecodeFields, DecodeUint32, EncodeVarint, FindField, SkipField, Payload.Bytes, Payload.Ok;
    var head := EncodeVarint(8 * tag + x.Kind());
    var cut := Tagged(tag, x)[..n];
    FieldsUnfold(d, cut, p);
    if n < |head| {
      assert cut == head[..n];
      CutVarintIsRefused(8 * tag + x.Kind(), n);
    } else {
      assert cut == head + x.Bytes()[..n - |head|];
      MeetsTag(tag, x.Kind(), x.Bytes()[..n - |head|]);
      NotFound(d.fields, p.pos, tag);
      CutPayloadIsRefused(x, n - |head|);
    }
  }
}

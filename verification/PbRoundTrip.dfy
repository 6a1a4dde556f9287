/** Decoding undoes encoding, for every message of every descriptor tree. */
module PbRoundTrip {
  import opened Options
  import opened Coding
  import opened PbVarint
  import opened PbCommon
  import opened PbEncode
  import opened PbDecode

  // ----- messages whose strings are terminated -----

  predicate ValueTerminated(f: Field, v: Value)
    requires ValueFits(f, v)
    decreases f, 0
  {
    match f.ltype
    case StringField => HasTerminator(v.bytes)
    case Submessage => Terminated(f.sub, v.slots)
    case _ => true
  }

  predicate SlotTerminated(f: Field, s: Slot)
    requires SlotFits(f, s)
    decreases f, 1
  {
    match f.htype
    case Repeated => forall v :: v in s.items ==> ValueTerminated(f, v)
    case Optional => s.opt.Some? ==> ValueTerminated(f, s.opt.value)
    case Oneof(_) => s.opt.Some? ==> ValueTerminated(f, s.opt.value)
    case _ => ValueTerminated(f, s.value)
  }

  /** Every string in the message has its terminator inside its buffer. */
  predicate Terminated(d: Desc, slots: seq<Slot>)
    requires MessageFits(d, slots)
    decreases d
  {
    forall i :: 0 <= i < |slots| ==> SlotTerminated(d.fields[i], slots[i])
  }

  // ----- data -----

  lemma Decode32Small(n: uint32, tail: Bytes)
    ensures DecodeUint32(EncodeVarint(n) + tail) == Some((n, tail))
  {
    Decode32Exactly(n, tail);
  }

  lemma PrefixedRoundTrip(s: Bytes, tail: Bytes)
    requires |s| < TWO_32
    ensures DecodeUint32(LengthPrefixed(s) + tail) == Some((|s|, s + tail))
    ensures Take(s + tail, |s|) == Some((s, tail))
    ensures TakePrefixed(LengthPrefixed(s) + tail) == Some((s, tail))
  {
    hide DecodeUint32;
    Decode32Small(|s|, s + tail);
    assert LengthPrefixed(s) + tail == EncodeVarint(|s|) + (s + tail);
    assert (s + tail)[..|s|] == s && (s + tail)[|s|..] == tail;
  }

  lemma TakeRoundTrip(s: Bytes, tail: Bytes)
    ensures Take(s + tail, |s|) == Some((s, tail))
  {
    assert (s + tail)[..|s|] == s && (s + tail)[|s|..] == tail;
  }

  lemma {:induction false} CStringOf(chars: Bytes)
    requires HasTerminator(chars)
    ensures CString(chars) + [0] == chars
  {
    if chars[0] != 0 {
      assert HasTerminator(chars[1..]) by {
        assert chars[1..][|chars| - 2] == 0;
      }
      CStringOf(chars[1..]);
      assert chars == [chars[0]] + chars[1..];
    } else {
      assert |chars| == 1;
    }
  }

  lemma CastSignedFits(size: nat, i: int)
    requires IntegerSize(size) && FitsSigned(size, i)
    ensures CastSigned(size, i) == i
    ensures size != 8 ==> CastSigned(4, AsUnsigned(i)) == i
    ensures size == 8 ==> AsSigned(AsUnsigned(i)) == i
  {
    hide CastSigned;
    CastFits(size, i);
    if size != 8 {
      CastWrapped(i);
    }
  }

  lemma CastFits(size: nat, i: int)
    requires IntegerSize(size) && FitsSigned(size, i)
    ensures CastSigned(size, i) == i
  {
  }

  lemma CastWrapped(i: int)
    requires -TWO_31 <= i < TWO_31
    ensures CastSigned(4, AsUnsigned(i)) == i
  {
    assert (i + TWO_64) % TWO_32 == i % TWO_32;
  }

  lemma CastUnsignedFits(size: nat, i: int)
    requires IntegerSize(size) && FitsUnsigned(size, i)
    ensures CastUnsigned(size, i) == i
  {
  }

  /** Numbers and data come back, whatever follows and whatever was in memory. */
  lemma ScalarRoundTrip(f: Field, v: Value, tail: Bytes, old': Value)
    requires ValueFits(f, v) && ValueTerminated(f, v) && !f.ltype.Submessage?
    requires ValueBytes(f, v).Some? && |ValueBytes(f, v).value| < TWO_32
    ensures DecodeValue(f, ValueBytes(f, v).value + tail, old') == Some((v, tail))
  {
    hide DecodeUint32, DecodeUint64, EncodeVarint, Zigzag, Unzigzag, AsSigned, AsUnsigned, CastSigned, CastUnsigned,
      LengthPrefixed, EncodeFixed32, EncodeFixed64, DecodeFixed32, DecodeFixed64, CString, HasTerminator, Take;
    match f.ltype {
      case Bool => Decode32Small(if v.b then 1 else 0, tail);
      case Varint =>
        Uint64RoundTrip(AsUnsigned(v.i), tail);
        CastSignedFits(f.dataSize, v.i);
      case UVarint =>
        Uint64RoundTrip(v.i, tail);
        CastUnsignedFits(f.dataSize, v.i);
      case SVarint =>
        Uint64RoundTrip(Zigzag(v.i), tail);
        ZigzagRoundTrip(v.i);
        CastSignedFits(f.dataSize, v.i);
      case Fixed32 =>
        TakeRoundTrip(EncodeFixed32(v.i), tail);
        Fixed32RoundTrip(v.i);
      case Fixed64 =>
        TakeRoundTrip(EncodeFixed64(v.i), tail);
        Fixed64RoundTrip(v.i);
      case BytesField =>
        PrefixedShorter(v.bytes);
        PrefixedRoundTrip(v.bytes, tail);
      case StringField =>
        CStringOf(v.bytes);
        PrefixedShorter(CString(v.bytes));
        PrefixedRoundTrip(CString(v.bytes), tail);
        assert |v.bytes| == |CString(v.bytes)| + 1;
      case FixedLengthBytes =>
        PrefixedShorter(v.bytes);
        PrefixedRoundTrip(v.bytes, tail);
        if v.bytes == [] {
          assert [] + tail == tail;
          assert v.bytes == Zeros(0);
        }
    }
  }

  lemma PrefixedShorter(s: Bytes)
    ensures |s| < |LengthPrefixed(s)|
  {
  }

  /** Nothing encodes to nothing but an empty message. */
  lemma ValueNotEmpty(f: Field, v: Value)
    requires ValueFits(f, v) && ValueBytes(f, v).Some?
    ensures ValueBytes(f, v).value != []
  {
    hide MessageBytes, MessageFits;
  }

  // ----- fields -----

  lemma TagRoundTrip(f: Field, wireType: nat, rest: Bytes)
    requires 1 <= f.tag < MAX_TAG && wireType < 8
    ensures DecodeTag(TagBytes(f, wireType) + rest) == TagFound(f.tag, wireType, rest)
  {
    hide DecodeUint32, EncodeVarint;
    Decode32Small(f.tag * 8 + wireType, rest);
  }

  lemma TagIsFound(d: Desc, pos: nat, i: nat)
    requires WellFormed(d) && pos < |d.fields| && i < |d.fields|
    ensures FindField(d.fields, pos, d.fields[i].tag) == Some(i)
  {
    hide FindField;
    var r := FindField(d.fields, pos, d.fields[i].tag);
  }

  /** The decoder meets the tag of field i: it decodes the field and goes on. */
  lemma MeetsField(d: Desc, i: nat, wireType: nat, rest: Bytes, p: Progress)
    requires WellFormed(d) && ProgressOk(d, p) && i < |d.fields| && wireType < 8
    requires DecodeField(d.fields[i], wireType, rest, p.slots[i]).Some?
    ensures
      var v := DecodeField(d.fields[i], wireType, rest, p.slots[i]).value;
      DecodeFields(d, TagBytes(d.fields[i], wireType) + rest, p)
        == DecodeFields(d, v.1, Progress(StoreSlot(d, p.slots, i, v.0), MarkSeen(d, i, p.seen), i))
  {
    hide DecodeField, DecodeFields, FindField, DecodeTag, TagBytes, StoreSlot, MarkSeen;
    TagRoundTrip(d.fields[i], wireType, rest);
    TagIsFound(d, p.pos, i);
    FieldsUnfold(d, TagBytes(d.fields[i], wireType) + rest, p);
  }

  lemma MoreBytes3(a: Bytes, b: Bytes, c: Bytes)
    ensures (a + b) + c == a + (b + c)
  {
  }

  /** A value of a field, whatever its kind. */
  lemma ValueRoundTrip(f: Field, v: Value, tail: Bytes, old': Value)
    requires ValueFits(f, v) && ValueTerminated(f, v) && (f.ltype.Submessage? ==> WellFormed(f.sub))
    requires ValueBytes(f, v).Some? && |ValueBytes(f, v).value| < TWO_32
    requires f.ltype.Submessage? && !f.htype.Repeated? ==> OldSlots(f, old') == InitMessage(f.sub)
    ensures DecodeValue(f, ValueBytes(f, v).value + tail, old') == Some((v, tail))
    decreases f, 0
  {
    if f.ltype.Submessage? {
      FitsSub(f, v);
      var m := MessageBytes(f.sub, v.slots, |f.sub.fields|).value;
      SubmessageRoundTrip(f, v, m, tail, old');
    } else {
      ScalarRoundTrip(f, v, tail, old');
    }
  }

  lemma SubmessageRoundTrip(f: Field, v: Value, m: Bytes, tail: Bytes, old': Value)
    requires f.ltype.Submessage? && WellFormed(f.sub) && ValueFits(f, v) && ValueTerminated(f, v)
    requires v.MsgVal? && MessageFits(f.sub, v.slots) && |v.slots| == |f.sub.fields|
    requires MessageBytes(f.sub, v.slots, |f.sub.fields|) == Some(m) && |LengthPrefixed(m)| < TWO_32
    requires !f.htype.Repeated? ==> OldSlots(f, old') == InitMessage(f.sub)
    ensures DecodeValue(f, LengthPrefixed(m) + tail, old') == Some((v, tail))
    decreases f.sub, 5
  {
    hide TakePrefixed, LengthPrefixed, MessageFits, MessageBytes, DecodeMessage, InitMessage, OldSlots, Terminated,
      WellFormed;
    PrefixedShorter(m);
    PrefixedRoundTrip(m, tail);
    MessageRoundTrip(f.sub, v.slots);
  }

  /** A packed array, item by item. */
  lemma {:induction false} PackedRoundTrip(f: Field, items: seq<Value>, k: nat, rest: Bytes)
    requires k <= |items| <= f.arraySize && (forall v :: v in items ==> ValueFits(f, v) && ValueTerminated(f, v)) && !f.ltype.Submessage?
    requires PackedBytes(f, items, k).Some? && |PackedBytes(f, items, k).value| < TWO_32
    ensures DecodePacked(f, PackedBytes(f, items, k).value + rest, []) == DecodePacked(f, rest, items[..k])
    decreases k
  {
    hide ValueFits, ValueTerminated, ValueBytes, DecodeValue;
    if k == 0 {
      assert [] + rest == rest;
    } else {
      var one := ValueBytes(f, items[k - 1]).value;
      var before := PackedBytes(f, items, k - 1).value;
      assert items[k - 1] in items;
      MoreBytes3(before, one, rest);
      PackedRoundTrip(f, items, k - 1, one + rest);
      ScalarRoundTrip(f, items[k - 1], rest, InitValue(f));
      ValueNotEmpty(f, items[k - 1]);
      assert items[..k] == items[..k - 1] + [items[k - 1]];
    }
  }

  lemma PackedField(f: Field, items: seq<Value>, tail: Bytes)
    requires 0 < |items| <= f.arraySize && (forall v :: v in items ==> ValueFits(f, v) && ValueTerminated(f, v))
    requires f.ltype.Packable() && f.htype.Repeated?
    requires PackedBytes(f, items, |items|).Some? && |PackedBytes(f, items, |items|).value| < TWO_32
    ensures DecodeField(f, WT_STRING, LengthPrefixed(PackedBytes(f, items, |items|).value) + tail, Many([])) == Some((Many(items), tail))
  {
    hide ValueFits, ValueTerminated, DecodeValue, TakePrefixed, LengthPrefixed, PackedBytes;
    var packed := PackedBytes(f, items, |items|).value;
    PrefixedRoundTrip(packed, tail);
    PackedRoundTrip(f, items, |items|, []);
    assert packed + [] == packed && items[..|items|] == items;
  }

  /** A message under way: the first n fields as they are to be, the rest at defaults. */
  function Mixed(d: Desc, slots: seq<Slot>, n: nat): (r: seq<Slot>)
    requires |slots| == |d.fields| && n <= |slots|
    ensures |r| == |slots|
  {
    seq(|slots|, i requires 0 <= i < |slots| => if i < n then slots[i] else InitSlot(d.fields[i]))
  }

  function SeenAfter(d: Desc, n: nat): set<nat>
    requires n <= |d.fields|
  {
    set k: nat | k < MAX_REQUIRED_FIELDS && IsBefore(d, n, k)
  }

  /** The k-th required field is among the first n fields. */
  predicate IsBefore(d: Desc, n: nat, k: nat)
    requires n <= |d.fields|
  {
    k < CountRequired(d.fields, n)
  }

  /** Storing the next field's value; the other fields of its union are unset anyway. */
  lemma StoreNext(d: Desc, slots: seq<Slot>, n: nat)
    requires MessageFits(d, slots) && n < |slots| && (d.fields[n].htype.Oneof? ==> slots[n] != Maybe(None))
    ensures |slots| == |d.fields| && StoreSlot(d, Mixed(d, slots, n), n, slots[n]) == Mixed(d, slots, n + 1)
  {
    hide SlotFits;
    var r, m := StoreSlot(d, Mixed(d, slots, n), n, slots[n]), Mixed(d, slots, n + 1);
    forall i | 0 <= i < |slots| ensures r[i] == m[i] {
    }
  }

  lemma MarkNext(d: Desc, n: nat)
    requires n < |d.fields|
    ensures MarkSeen(d, n, SeenAfter(d, n)) == SeenAfter(d, n + 1)
  {
  }

  /** A field that leaves no bytes is at its default. */
  lemma SkippedIsDefault(d: Desc, slots: seq<Slot>, n: nat)
    requires MessageFits(d, slots) && n < |slots| && slots[n] == InitSlot(d.fields[n]) && !d.fields[n].htype.Required?
    ensures |slots| == |d.fields| && Mixed(d, slots, n) == Mixed(d, slots, n + 1) && SeenAfter(d, n) == SeenAfter(d, n + 1)
  {
    hide SlotFits;
  }

  /** A field's zero test holds only of its default. */
  lemma DefaultIsInit(f: Field, v: Value)
    requires ValueFits(f, v) && IsDefaultValue(f, v) && ValueTerminated(f, v)
    ensures v == InitValue(f)
    decreases f, 0
  {
    match f.ltype {
      case Submessage =>
        FitsSub(f, v);
        DefaultMessageIsInit(f.sub, v.slots);
      case FixedLengthBytes =>
        assert v.bytes == Zeros(0);
      case StringField =>
        assert v.bytes == [0];
      case _ =>
    }
  }

  lemma DefaultMessageIsInit(d: Desc, slots: seq<Slot>)
    requires MessageFits(d, slots) && IsDefaultMessage(d, slots) && Terminated(d, slots)
    ensures slots == InitMessage(d)
    decreases d, 0
  {
    hide ValueFits, IsDefaultValue, ValueTerminated, InitValue;
    forall i | 0 <= i < |slots| ensures slots[i] == InitSlot(d.fields[i]) {
      assert IsDefaultSlot(d.fields[i], slots[i]) && SlotTerminated(d.fields[i], slots[i]) && SlotFits(d.fields[i], slots[i]);
      if d.fields[i].htype.Singular? {
        DefaultIsInit(d.fields[i], slots[i].value);
      }
    }
  }

  /** A field of one value: its bytes bring the message one field further. */
  lemma SingleRoundTrip(d: Desc, slots: seq<Slot>, n: nat, v: Value, tail: Bytes, pos: nat)
    requires MessageFits(d, slots) && WellFormed(d) && n < |slots| == |d.fields| && pos < |d.fields|
    requires !d.fields[n].htype.Repeated?
    requires slots[n] == match d.fields[n].htype { case Optional => Maybe(Some(v)) case Oneof(_) => Maybe(Some(v)) case _ => Single(v) }
    requires ValueFits(d.fields[n], v) && ValueTerminated(d.fields[n], v)
    requires TaggedBytes(d.fields[n], v).Some? && |TaggedBytes(d.fields[n], v).value| < TWO_32
    ensures DecodeFields(d, TaggedBytes(d.fields[n], v).value + tail, Progress(Mixed(d, slots, n), SeenAfter(d, n), pos))
      == DecodeFields(d, tail, Progress(Mixed(d, slots, n + 1), SeenAfter(d, n + 1), n))
    decreases d.fields[n], 1
  {
    hide MessageFits, WellFormed, ValueFits, ValueTerminated, ValueBytes, DecodeValue, DecodeFields, TagBytes,
      StoreSlot, MarkSeen, Mixed, SeenAfter, InitValue;
    var f, p := d.fields[n], Progress(Mixed(d, slots, n), SeenAfter(d, n), pos);
    FieldReady(d, slots, n);
    MixedAt(d, slots, n);
    var tag, bytes := TagBytes(f, WireType(f.ltype)), ValueBytes(f, v).value;
    InitOldSlots(f);
    ValueRoundTrip(f, v, tail, InitValue(f));
    MoreBytes3(tag, bytes, tail);
    MeetsField(d, n, WireType(f.ltype), bytes + tail, p);
    StoreNext(d, slots, n);
    MarkNext(d, n);
  }

  lemma InitOldSlots(f: Field)
    ensures f.ltype.Submessage? ==> OldSlots(f, InitValue(f)) == InitMessage(f.sub)
  {
  }

  lemma MixedAt(d: Desc, slots: seq<Slot>, n: nat)
    requires n < |slots| == |d.fields|
    ensures Mixed(d, slots, n)[n] == InitSlot(d.fields[n])
  {
  }

  /** An array whose items are tagged one by one. */
  lemma {:induction false} UnpackedRoundTrip(d: Desc, slots: seq<Slot>, n: nat, items: seq<Value>, k: nat, tail: Bytes, pos: nat)
    requires MessageFits(d, slots) && WellFormed(d) && n < |slots| == |d.fields| && pos < |d.fields|
    requires d.fields[n].htype.Repeated? && !d.fields[n].ltype.Packable() && k <= |items| <= d.fields[n].arraySize
    requires forall v :: v in items ==> ValueFits(d.fields[n], v) && ValueTerminated(d.fields[n], v)
    requires UnpackedBytes(d.fields[n], items, k).Some? && |UnpackedBytes(d.fields[n], items, k).value| < TWO_32
    ensures DecodeFields(d, UnpackedBytes(d.fields[n], items, k).value + tail, Progress(Mixed(d, slots, n), SeenAfter(d, n), pos))
      == DecodeFields(d, tail, Progress(Mixed(d, slots, n)[n := Many(items[..k])], SeenAfter(d, n), if k == 0 then pos else n))
    decreases d.fields[n], 2, k
  {
    hide MessageFits, WellFormed, ValueFits, ValueTerminated, ValueBytes, DecodeValue, DecodeFields, TagBytes,
      StoreSlot, MarkSeen, Mixed, SeenAfter, InitValue;
    var f, m := d.fields[n], Mixed(d, slots, n);
    MixedAt(d, slots, n);
    if k == 0 {
      assert [] + tail == tail;
      assert m[n := Many([])] == m && items[..0] == [];
    } else {
      var v := items[k - 1];
      var tag, bytes := TagBytes(f, WireType(f.ltype)), ValueBytes(f, v).value;
      var before := UnpackedBytes(f, items, k - 1).value;
      assert v in items;
      FieldReady(d, slots, n);
      MoreBytes3(before, tag + bytes, tail);
      UnpackedRoundTrip(d, slots, n, items, k - 1, tag + bytes + tail, pos);
      var p := Progress(m[n := Many(items[..k - 1])], SeenAfter(d, n), if k == 1 then pos else n);
      ValueRoundTrip(f, v, tail, InitValue(f));
      MoreBytes3(tag, bytes, tail);
      MeetsField(d, n, WireType(f.ltype), bytes + tail, p);
      StoreItem(d, m, n, items, k, SeenAfter(d, n));
    }
  }

  lemma StoreItem(d: Desc, m: seq<Slot>, n: nat, items: seq<Value>, k: nat, seen: set<nat>)
    requires |m| == |d.fields| && n < |m| && d.fields[n].htype.Repeated? && 0 < k <= |items|
    ensures StoreSlot(d, m[n := Many(items[..k - 1])], n, Many(items[..k - 1] + [items[k - 1]])) == m[n := Many(items[..k])]
    ensures MarkSeen(d, n, seen) == seen
  {
    assert items[..k] == items[..k - 1] + [items[k - 1]];
    var r := StoreSlot(d, m[n := Many(items[..k - 1])], n, Many(items[..k]));
    forall i | 0 <= i < |m| ensures r[i] == m[n := Many(items[..k])][i] {
    }
  }

  lemma ArrayStored(d: Desc, slots: seq<Slot>, n: nat)
    requires MessageFits(d, slots) && n < |slots| && d.fields[n].htype.Repeated?
    ensures |slots| == |d.fields|
    ensures Mixed(d, slots, n)[n := slots[n]] == Mixed(d, slots, n + 1) == StoreSlot(d, Mixed(d, slots, n), n, slots[n])
    ensures SeenAfter(d, n) == SeenAfter(d, n + 1) == MarkSeen(d, n, SeenAfter(d, n))
  {
    hide SlotFits;
    StoreNext(d, slots, n);
    MarkNext(d, n);
    assert Mixed(d, slots, n)[n := slots[n]] == Mixed(d, slots, n + 1);
  }

  lemma ArrayRoundTrip(d: Desc, slots: seq<Slot>, n: nat, items: seq<Value>, tail: Bytes, pos: nat)
    requires MessageFits(d, slots) && WellFormed(d) && n < |slots| == |d.fields| && pos < |d.fields|
    requires d.fields[n].htype.Repeated? && slots[n] == Many(items) && items != []
    requires forall v :: v in items ==> ValueFits(d.fields[n], v) && ValueTerminated(d.fields[n], v)
    requires ArrayBytes(d.fields[n], items).Some? && |ArrayBytes(d.fields[n], items).value| < TWO_32
    ensures DecodeFields(d, ArrayBytes(d.fields[n], items).value + tail, Progress(Mixed(d, slots, n), SeenAfter(d, n), pos))
      == DecodeFields(d, tail, Progress(Mixed(d, slots, n + 1), SeenAfter(d, n + 1), n))
    decreases d.fields[n], 3
  {
    hide MessageFits, WellFormed, ValueFits, ValueTerminated, DecodeFields, DecodeField, TagBytes, LengthPrefixed,
      StoreSlot, MarkSeen, Mixed, SeenAfter, PackedBytes, UnpackedBytes;
    var f, p := d.fields[n], Progress(Mixed(d, slots, n), SeenAfter(d, n), pos);
    FieldReady(d, slots, n);
    MixedAt(d, slots, n);
    ArrayStored(d, slots, n);
    if f.ltype.Packable() {
      var packed := PackedBytes(f, items, |items|).value;
      PrefixedShorter(packed);
      PackedField(f, items, tail);
      MoreBytes3(TagBytes(f, WT_STRING), LengthPrefixed(packed), tail);
      MeetsField(d, n, WT_STRING, LengthPrefixed(packed) + tail, p);
    } else {
      UnpackedRoundTrip(d, slots, n, items, |items|, tail, pos);
      assert items[..|items|] == items;
    }
  }

  /** Where the iterator stands after the first n fields: at the last one that left bytes. */
  function PosAfter(d: Desc, slots: seq<Slot>, n: nat): (pos: nat)
    requires MessageFits(d, slots) && n <= |slots| == |d.fields|
    ensures d.fields != [] ==> pos < |d.fields|
  {
    if n == 0 then 0
    else if SlotBytes(d.fields[n - 1], slots[n - 1]) == Some([]) then PosAfter(d, slots, n - 1)
    else n - 1
  }

  lemma FieldTerminated(d: Desc, slots: seq<Slot>, n: nat)
    requires MessageFits(d, slots) && Terminated(d, slots) && n < |slots|
    ensures |slots| == |d.fields| && SlotFits(d.fields[n], slots[n]) && SlotTerminated(d.fields[n], slots[n])
  {
  }

  lemma TaggedNotEmpty(f: Field, v: Value)
    requires ValueFits(f, v) && TaggedBytes(f, v).Some?
    ensures TaggedBytes(f, v).value != []
  {
    hide ValueBytes, ValueFits;
  }

  /** One field of a message. */
  lemma SlotRoundTrip(d: Desc, slots: seq<Slot>, n: nat, tail: Bytes)
    requires MessageFits(d, slots) && WellFormed(d) && Terminated(d, slots) && n < |slots| == |d.fields|
    requires SlotFits(d.fields[n], slots[n])
    requires SlotBytes(d.fields[n], slots[n]).Some? && |SlotBytes(d.fields[n], slots[n]).value| < TWO_32
    ensures DecodeFields(d, SlotBytes(d.fields[n], slots[n]).value + tail, Progress(Mixed(d, slots, n), SeenAfter(d, n), PosAfter(d, slots, n)))
      == DecodeFields(d, tail, Progress(Mixed(d, slots, n + 1), SeenAfter(d, n + 1), PosAfter(d, slots, n + 1)))
    decreases d.fields[n], 4
  {
    hide MessageFits, WellFormed, Terminated, ValueFits, ValueTerminated, DecodeFields, Mixed, SeenAfter, TaggedBytes,
      ArrayBytes, IsDefaultValue, InitValue;
    var f, slot, pos := d.fields[n], slots[n], PosAfter(d, slots, n);
    FieldTerminated(d, slots, n);
    var v := match slot case Single(v) => v case Maybe(Some(v)) => v case _ => IntVal(0);
    if SlotBytes(f, slot) == Some([]) {
      SkippedSlot(d, slots, n);
      SkippedIsDefault(d, slots, n);
      assert [] + tail == tail;
    } else if f.htype.Repeated? {
      ItemsTerminated(f, slot);
      EmptyArray(f);
      ArrayRoundTrip(d, slots, n, slot.items, tail, pos);
    } else {
      SingleRoundTrip(d, slots, n, v, tail, pos);
    }
  }

  lemma ItemsTerminated(f: Field, slot: Slot)
    requires f.htype.Repeated? && SlotFits(f, slot) && SlotTerminated(f, slot)
    ensures forall v :: v in slot.items ==> ValueFits(f, v) && ValueTerminated(f, v)
  {
  }

  lemma EmptyArray(f: Field)
    ensures ArrayBytes(f, []) == Some([])
  {
  }

  lemma SkippedSlot(d: Desc, slots: seq<Slot>, n: nat)
    requires MessageFits(d, slots) && Terminated(d, slots) && n < |slots| == |d.fields|
    requires SlotFits(d.fields[n], slots[n]) && SlotBytes(d.fields[n], slots[n]) == Some([])
    ensures slots[n] == InitSlot(d.fields[n]) && !d.fields[n].htype.Required?
  {
    hide MessageFits, Terminated, ValueFits, ValueTerminated, IsDefaultValue, InitValue, TaggedBytes, ArrayBytes;
    var f, slot := d.fields[n], slots[n];
    FieldTerminated(d, slots, n);
    match f.htype {
      case Repeated => SkippedArray(f, slot.items);
      case Singular =>
        if IsDefaultValue(f, slot.value) {
          DefaultIsInit(f, slot.value);
        } else {
          TaggedNotEmpty(f, slot.value);
        }
      case Required => TaggedNotEmpty(f, slot.value);
      case _ =>
        if slot.opt.Some? {
          TaggedNotEmpty(f, slot.opt.value);
        }
    }
  }

  lemma SkippedArray(f: Field, items: seq<Value>)
    requires (forall v :: v in items ==> ValueFits(f, v)) && ArrayBytes(f, items) == Some([])
    ensures items == []
  {
    hide ValueFits, TaggedBytes;
    if items != [] && !f.ltype.Packable() {
      TaggedNotEmpty(f, items[|items| - 1]);
    }
  }

  /** The first n fields of a message. */
  lemma {:induction false} FieldsRoundTrip(d: Desc, slots: seq<Slot>, n: nat, tail: Bytes)
    requires MessageFits(d, slots) && WellFormed(d) && Terminated(d, slots) && n <= |slots| == |d.fields|
    requires MessageBytes(d, slots, n).Some? && |MessageBytes(d, slots, n).value| < TWO_32
    ensures DecodeFields(d, MessageBytes(d, slots, n).value + tail, Progress(InitMessage(d), {}, 0))
      == DecodeFields(d, tail, Progress(Mixed(d, slots, n), SeenAfter(d, n), PosAfter(d, slots, n)))
    decreases d, 3, n
  {
    hide MessageFits, WellFormed, Terminated, SlotFits, SlotBytes, DecodeFields, Mixed, SeenAfter, PosAfter;
    if n == 0 {
      assert [] + tail == tail;
      NothingMixed(d, slots);
    } else {
      FieldReady(d, slots, n - 1);
      var before, one := MessageBytes(d, slots, n - 1).value, SlotBytes(d.fields[n - 1], slots[n - 1]).value;
      MoreBytes3(before, one, tail);
      FieldsRoundTrip(d, slots, n - 1, one + tail);
      SlotRoundTrip(d, slots, n - 1, tail);
    }
  }

  lemma NothingMixed(d: Desc, slots: seq<Slot>)
    requires MessageFits(d, slots) && |slots| == |d.fields|
    ensures Mixed(d, slots, 0) == InitMessage(d) && SeenAfter(d, 0) == {} && PosAfter(d, slots, 0) == 0
  {
  }

  lemma AllMixed(d: Desc, slots: seq<Slot>)
    requires |slots| == |d.fields|
    ensures Mixed(d, slots, |slots|) == slots && AllSeen(d, SeenAfter(d, |slots|))
  {
  }

  /** A whole message: what is encoded decodes to the same message. */
  lemma MessageRoundTrip(d: Desc, slots: seq<Slot>)
    requires MessageFits(d, slots) && WellFormed(d) && Terminated(d, slots) && |slots| == |d.fields|
    requires MessageBytes(d, slots, |d.fields|).Some? && |MessageBytes(d, slots, |d.fields|).value| < TWO_32
    ensures DecodeMessage(d, MessageBytes(d, slots, |d.fields|).value, InitMessage(d)) == Some(slots)
    decreases d, 4
  {
    hide MessageFits, WellFormed, Terminated, MessageBytes, DecodeFields, Mixed, SeenAfter, PosAfter, AllSeen,
      InitMessage;
    var n := |d.fields|;
    FieldsRoundTrip(d, slots, n, []);
    var bytes := MessageBytes(d, slots, n).value;
    assert bytes + [] == bytes;
    AllMixed(d, slots);
    FieldsEnd(d, Progress(Mixed(d, slots, n), SeenAfter(d, n), PosAfter(d, slots, n)));
  }

  /** The theorem: pb_decode of what pb_encode wrote gives the same message back. */
  lemma DecodeUndoesEncode(d: Desc, slots: seq<Slot>)
    requires MessageFits(d, slots) && WellFormed(d) && Terminated(d, slots)
    requires Encoded(d, slots).Some? && |Encoded(d, slots).value| < TWO_32
    ensures Decoded(d, Encoded(d, slots).value) == Some(slots)
  {
    hide WellFormed, Terminated, MessageBytes, DecodeMessage;
    FitsLength(d, slots);
    MessageRoundTrip(d, slots);
  }

  /** A string without its terminator is written out whole and then refused. */
  lemma UnterminatedStringIsRefused(f: Field, v: Value, tail: Bytes, old': Value)
    requires f.ltype.StringField? && ValueFits(f, v) && !HasTerminator(v.bytes) && |v.bytes| < TWO_32
    ensures ValueBytes(f, v) == Some(LengthPrefixed(v.bytes))
    ensures DecodeValue(f, LengthPrefixed(v.bytes) + tail, old') == None
  {
    hide DecodeUint32;
    NoTerminator(v.bytes);
    PrefixedRoundTrip(v.bytes, tail);
  }

  lemma {:induction false} NoTerminator(chars: Bytes)
    requires NoZeros(chars)
    ensures CString(chars) == chars
  {
    if chars != [] {
      NoTerminator(chars[1..]);
      assert chars == [chars[0]] + chars[1..];
    }
  }
}
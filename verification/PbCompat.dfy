/** What a decoder makes of input its own encoder would not write: unknown fields, repeated
    fields, missing required fields, values out of range. */
module PbCompat {
  import opened Options
  import opened Coding
  import opened PbVarint
  import opened PbCommon
  import opened PbEncode
  import opened PbDecode
  import opened PbRoundTrip

  // ----- unknown fields -----

  /** What may follow a tag on the wire. */
  datatype Payload = Number(n: nat) | Long(l: uint64) | Data(s: Bytes) | Word(w: uint32)
  {
    predicate Ok() {
      Data? ==> |s| < TWO_32
    }

    /** The last three bits of the tag. */
    function Kind(): nat {
      match this
      case Number(_) => 0
      case Long(_) => 1
      case Data(_) => 2
      case Word(_) => 5
    }

    function Bytes(): Bytes {
      match this
      case Number(n) => EncodeVarint(n)
      case Long(l) => EncodeFixed64(l)
      case Data(s) => LengthPrefixed(s)
      case Word(w) => EncodeFixed32(w)
    }
  }

  /** A field number and its payload. */
  function Tagged(tag: nat, x: Payload): Bytes {
    EncodeVarint(8 * tag + x.Kind()) + x.Bytes()
  }

  lemma {:induction false} SkipsVarint(n: nat, tail: Bytes)
    ensures SkipVarint(EncodeVarint(n) + tail) == Some(tail)
  {
    if n < 128 {
      assert ([n] + tail)[1..] == tail;
    } else {
      var rest := EncodeVarint(n / 128) + tail;
      assert EncodeVarint(n) + tail == [n % 128 + 128] + rest;
      assert ([n % 128 + 128] + rest)[1..] == rest;
      SkipsVarint(n / 128, tail);
    }
  }

  lemma SkipsPayload(x: Payload, tail: Bytes)
    requires x.Ok()
    ensures SkipField(x.Kind(), x.Bytes() + tail) == Some(tail)
  {
    hide EncodeVarint, SkipVarint, LengthPrefixed, TakePrefixed, EncodeFixed32, EncodeFixed64;
    match x {
      case Number(n) => SkipsVarint(n, tail);
      case Data(s) => PrefixedRoundTrip(s, tail);
      case _ => assert (x.Bytes() + tail)[|x.Bytes()|..] == tail;
    }
  }

  lemma MeetsTag(tag: nat, kind: nat, rest: Bytes)
    requires 1 <= tag < MAX_TAG && kind < 8
    ensures DecodeTag(EncodeVarint(8 * tag + kind) + rest) == TagFound(tag, kind, rest)
  {
    hide DecodeUint32, EncodeVarint;
    Decode32Small(8 * tag + kind, rest);
  }

  lemma NotFound(fields: seq<Field>, pos: nat, tag: nat)
    requires (fields == [] || pos < |fields|) && forall i :: 0 <= i < |fields| ==> fields[i].tag != tag
    ensures FindField(fields, pos, tag) == None
  {
    hide FindField;
    var r := FindField(fields, pos, tag);
  }

  /** A field the descriptor does not have is passed over, whatever it holds. */
  lemma UnknownFieldIsSkipped(d: Desc, tag: nat, x: Payload, tail: Bytes, p: Progress)
    requires ProgressOk(d, p) && 1 <= tag < MAX_TAG && x.Ok() && forall i :: 0 <= i < |d.fields| ==> d.fields[i].tag != tag
    ensures DecodeFields(d, Tagged(tag, x) + tail, p) == DecodeFields(d, tail, p)
  {
    hide DecodeFields, DecodeTag, FindField, SkipField, EncodeVarint, Payload.Bytes;
    var input := Tagged(tag, x) + tail;
    MoreBytes3(EncodeVarint(8 * tag + x.Kind()), x.Bytes(), tail);
    MeetsTag(tag, x.Kind(), x.Bytes() + tail);
    NotFound(d.fields, p.pos, tag);
    SkipsPayload(x, tail);
    FieldsUnfold(d, input, p);
  }

  /** The wire types 3, 4, 6 and 7 are no known way to end an unknown field. */
  lemma UnknownKindIsRefused(d: Desc, tag: nat, kind: nat, rest: Bytes, p: Progress)
    requires ProgressOk(d, p) && 1 <= tag < MAX_TAG && kind in {3, 4, 6, 7} && forall i :: 0 <= i < |d.fields| ==> d.fields[i].tag != tag
    ensures DecodeFields(d, EncodeVarint(8 * tag + kind) + rest, p) == None
  {
    hide DecodeFields, DecodeTag, FindField, EncodeVarint;
    MeetsTag(tag, kind, rest);
    NotFound(d.fields, p.pos, tag);
    FieldsUnfold(d, EncodeVarint(8 * tag + kind) + rest, p);
  }

  // ----- a message written with one more field -----

  lemma {:induction false} UnknownFieldsAreSkipped(d: Desc, tag: nat, xs: seq<Payload>, tail: Bytes, p: Progress)
    requires ProgressOk(d, p) && 1 <= tag < MAX_TAG && (forall x :: x in xs ==> x.Ok()) && forall i :: 0 <= i < |d.fields| ==> d.fields[i].tag != tag
    ensures DecodeFields(d, AllTagged(tag, xs) + tail, p) == DecodeFields(d, tail, p)
  {
    hide DecodeFields, Tagged, Payload.Ok;
    if xs == [] {
      assert [] + tail == tail;
    } else {
      var x := xs[|xs| - 1];
      assert x in xs;
      MoreBytes3(AllTagged(tag, xs[..|xs| - 1]), Tagged(tag, x), tail);
      UnknownFieldsAreSkipped(d, tag, xs[..|xs| - 1], Tagged(tag, x) + tail, p);
      UnknownFieldIsSkipped(d, tag, x, tail, p);
    }
  }

  function AllTagged(tag: nat, xs: seq<Payload>): Bytes {
    if xs == [] then [] else AllTagged(tag, xs[..|xs| - 1]) + Tagged(tag, xs[|xs| - 1])
  }

  /** What the encoder writes for a value is one payload. */
  lemma ValueIsPayload(f: Field, v: Value) returns (x: Payload)
    requires ValueFits(f, v) && ValueBytes(f, v).Some? && |ValueBytes(f, v).value| < TWO_32
    ensures x.Ok() && TaggedBytes(f, v) == Some(Tagged(f.tag, x))
  {
    hide EncodeVarint, LengthPrefixed, EncodeFixed32, EncodeFixed64, MessageFits, MessageBytes, Zigzag, AsUnsigned,
      CString, HasTerminator;
    match f.ltype {
      case Bool => x := Number(if v.b then 1 else 0);
      case Varint => x := Number(AsUnsigned(v.i));
      case UVarint => x := Number(v.i);
      case SVarint => x := Number(Zigzag(v.i));
      case Fixed32 => x := Word(v.i);
      case Fixed64 => x := Long(v.i);
      case BytesField =>
        x := Data(v.bytes);
        PrefixedShorter(v.bytes);
      case StringField =>
        x := Data(CString(v.bytes));
        PrefixedShorter(CString(v.bytes));
      case FixedLengthBytes =>
        x := Data(v.bytes);
        PrefixedShorter(v.bytes);
      case Submessage =>
        FitsSub(f, v);
        var m := MessageBytes(f.sub, v.slots, |f.sub.fields|).value;
        x := Data(m);
        PrefixedShorter(m);
    }
  }

  lemma {:induction false} UnpackedArePayloads(f: Field, items: seq<Value>, k: nat) returns (xs: seq<Payload>)
    requires k <= |items| && (forall v :: v in items ==> ValueFits(f, v))
    requires UnpackedBytes(f, items, k).Some? && |UnpackedBytes(f, items, k).value| < TWO_32
    ensures (forall x :: x in xs ==> x.Ok()) && UnpackedBytes(f, items, k) == Some(AllTagged(f.tag, xs))
  {
    hide ValueFits, ValueBytes, Tagged, Payload.Ok;
    if k == 0 {
      xs := [];
    } else {
      assert items[k - 1] in items;
      var before := UnpackedArePayloads(f, items, k - 1);
      var x := ValueIsPayload(f, items[k - 1]);
      xs := before + [x];
      assert xs[..|xs| - 1] == before;
    }
  }

  lemma OnePayload(tag: nat, x: Payload)
    ensures AllTagged(tag, [x]) == Tagged(tag, x) && AllTagged(tag, []) == []
  {
    assert [x][..0] == [];
    assert [] + Tagged(tag, x) == Tagged(tag, x);
  }

  /** What the encoder writes for a field is a list of payloads under its number. */
  lemma SlotIsPayloads(f: Field, slot: Slot) returns (xs: seq<Payload>)
    requires SlotFits(f, slot) && SlotBytes(f, slot).Some? && |SlotBytes(f, slot).value| < TWO_32
    ensures (forall x :: x in xs ==> x.Ok()) && SlotBytes(f, slot) == Some(AllTagged(f.tag, xs))
  {
    hide ValueFits, ValueBytes, PackedBytes, UnpackedBytes, AllTagged, Tagged, IsDefaultValue, LengthPrefixed,
      Payload.Ok;
    if SlotBytes(f, slot) == Some([]) {
      OnePayload(f.tag, Number(0));
      xs := [];
    } else if f.htype.Repeated? {
      if f.ltype.Packable() {
        var x := PackedIsPayload(f, slot.items);
        OnePayload(f.tag, x);
        xs := [x];
      } else {
        xs := UnpackedArePayloads(f, slot.items, |slot.items|);
      }
    } else {
      var v := match slot case Single(v) => v case Maybe(Some(v)) => v case _ => IntVal(0);
      var x := ValueIsPayload(f, v);
      OnePayload(f.tag, x);
      xs := [x];
    }
  }

  lemma PackedIsPayload(f: Field, items: seq<Value>) returns (x: Payload)
    requires f.ltype.Packable() && items != [] && forall v :: v in items ==> ValueFits(f, v)
    requires ArrayBytes(f, items).Some? && |ArrayBytes(f, items).value| < TWO_32
    ensures x.Ok() && ArrayBytes(f, items) == Some(Tagged(f.tag, x))
  {
    hide ValueFits, PackedBytes, LengthPrefixed, EncodeVarint;
    x := Data(PackedBytes(f, items, |items|).value);
    PrefixedShorter(x.s);
  }

  /** The list without its r-th element. */
  function Without<T>(s: seq<T>, r: nat): (t: seq<T>)
    requires r < |s|
    ensures |t| == |s| - 1
    ensures forall i :: 0 <= i < r ==> t[i] == s[i]
    ensures forall i :: r <= i < |t| ==> t[i] == s[i + 1]
  {
    s[..r] + s[r + 1..]
  }

  lemma WithoutFits(d: Desc, slots: seq<Slot>, r: nat)
    requires MessageFits(d, slots) && WellFormed(d) && r < |d.fields|
    ensures |slots| == |d.fields| && MessageFits(Desc(Without(d.fields, r)), Without(slots, r)) && WellFormed(Desc(Without(d.fields, r)))
    ensures forall i :: 0 <= i < |d.fields| - 1 ==> Without(d.fields, r)[i].tag != d.fields[r].tag
  {
    hide SlotFits, WellFormed;
    FitsLength(d, slots);
    var d', slots' := Desc(Without(d.fields, r)), Without(slots, r);
    forall i | 0 <= i < |slots'| ensures SlotFits(d'.fields[i], slots'[i]) {
    }
    WithoutWellFormed(d, r);
  }

  lemma WithoutWellFormed(d: Desc, r: nat)
    requires WellFormed(d) && r < |d.fields|
    ensures WellFormed(Desc(Without(d.fields, r)))
    ensures forall i :: 0 <= i < |d.fields| - 1 ==> Without(d.fields, r)[i].tag != d.fields[r].tag
  {
  }

  lemma WithoutTerminated(d: Desc, slots: seq<Slot>, r: nat)
    requires MessageFits(d, slots) && r < |d.fields| && |slots| == |d.fields| && MessageFits(Desc(Without(d.fields, r)), Without(slots, r))
    requires Terminated(d, slots)
    ensures Terminated(Desc(Without(d.fields, r)), Without(slots, r))
  {
    hide MessageFits, SlotTerminated, SlotFits;
    var d', slots' := Desc(Without(d.fields, r)), Without(slots, r);
    forall i | 0 <= i < |slots'| ensures SlotFits(d'.fields[i], slots'[i]) && SlotTerminated(d'.fields[i], slots'[i]) {
      FitsAt(d', slots', i);
      FitsAt(d, slots, if i < r then i else i + 1);
    }
  }

  lemma FitsAt(d: Desc, slots: seq<Slot>, i: nat)
    requires MessageFits(d, slots) && i < |slots|
    ensures |slots| == |d.fields| && SlotFits(d.fields[i], slots[i])
  {
  }

  /** The bytes of the fields before the r-th are the same without it. */
  lemma {:induction false} SameFront(d: Desc, slots: seq<Slot>, r: nat, n: nat)
    requires MessageFits(d, slots) && |slots| == |d.fields| && n <= r < |slots| && MessageFits(Desc(Without(d.fields, r)), Without(slots, r))
    ensures MessageBytes(Desc(Without(d.fields, r)), Without(slots, r), n) == MessageBytes(d, slots, n)
  {
    hide MessageFits, SlotBytes, SlotFits;
    if n > 0 {
      SameFront(d, slots, r, n - 1);
      FitsAt(d, slots, n - 1);
    }
  }

  /** So are the bytes of the fields behind it. */
  lemma {:induction false} SameBack(d: Desc, slots: seq<Slot>, r: nat, n: nat) returns (back: Encoding)
    requires MessageFits(d, slots) && |slots| == |d.fields| && r < |slots| && r <= n < |slots|
    requires MessageFits(Desc(Without(d.fields, r)), Without(slots, r))
    ensures MessageBytes(d, slots, n + 1) == Append(MessageBytes(d, slots, r + 1), back)
    ensures MessageBytes(Desc(Without(d.fields, r)), Without(slots, r), n) == Append(MessageBytes(d, slots, r), back)
  {
    hide MessageFits, SlotBytes, SlotFits, MessageBytes;
    if n == r {
      back := Some([]);
      SameFront(d, slots, r, r);
      NothingAppended(MessageBytes(d, slots, r));
      NothingAppended(MessageBytes(d, slots, r + 1));
    } else {
      var before := SameBack(d, slots, r, n - 1);
      FitsAt(d, slots, n);
      var one := SlotBytes(d.fields[n], slots[n]);
      back := Append(before, one);
      MessageStep(d, slots, n);
      MessageStep(Desc(Without(d.fields, r)), Without(slots, r), n - 1);
      AppendedTwice(MessageBytes(d, slots, r + 1), before, one);
      AppendedTwice(MessageBytes(d, slots, r), before, one);
    }
  }

  lemma MessageStep(d: Desc, slots: seq<Slot>, n: nat)
    requires MessageFits(d, slots) && n < |slots| == |d.fields|
    ensures SlotFits(d.fields[n], slots[n]) && MessageBytes(d, slots, n + 1) == Append(MessageBytes(d, slots, n), SlotBytes(d.fields[n], slots[n]))
  {
    FitsAt(d, slots, n);
    hide MessageFits, SlotFits, SlotBytes;
  }

  lemma NothingAppended(a: Encoding)
    ensures Append(a, Some([])) == a
  {
    assert a.Some? ==> a.value + [] == a.value;
  }

  lemma AppendedTwice(a: Encoding, b: Encoding, c: Encoding)
    ensures Append(Append(a, b), c) == Append(a, Append(b, c))
  {
    if a.Some? && b.Some? && c.Some? {
      MoreBytes3(a.value, b.value, c.value);
    }
  }

  /** A message written with one more field than the decoder knows decodes to the message
      without that field. */
  lemma NewFieldIsIgnored(d: Desc, slots: seq<Slot>, r: nat)
    requires MessageFits(d, slots) && WellFormed(d) && Terminated(d, slots) && r < |d.fields|
    requires Encoded(d, slots).Some? && |Encoded(d, slots).value| < TWO_32
    ensures |slots| == |d.fields| && Decoded(Desc(Without(d.fields, r)), Encoded(d, slots).value) == Some(Without(slots, r))
  {
    hide MessageFits, WellFormed, Terminated, MessageBytes, DecodeFields, SlotBytes, SlotFits, AllTagged, Mixed,
      SeenAfter, PosAfter, AllSeen, InitMessage, Payload.Ok, Without, DecodeMessage;
    WithoutFits(d, slots, r);
    WithoutTerminated(d, slots, r);
    FitsLength(d, slots);
    var d', slots' := Desc(Without(d.fields, r)), Without(slots, r);
    SameFront(d, slots, r, r);
    MessageStep(d, slots, r);
    var back := SameBack(d, slots, r, |slots| - 1);
    var front, one := MessageBytes(d, slots, r).value, SlotBytes(d.fields[r], slots[r]).value;
    assert MessageBytes(d, slots, |slots|) == Some(front + one + back.value);
    assert MessageBytes(d', slots', |slots'|) == Some(front + back.value);
    var xs := SlotIsPayloads(d.fields[r], slots[r]);
    MoreBytes3(front, one, back.value);
    FieldsRoundTrip(d', slots', r, one + back.value);
    FieldsRoundTrip(d', slots', r, back.value);
    TagInRange(d, r);
    UnknownFieldsAreSkipped(d', d.fields[r].tag, xs, back.value, Progress(Mixed(d', slots', r), SeenAfter(d', r), PosAfter(d', slots', r)));
    SameFieldsSameMessage(d', front + one + back.value, front + back.value);
    DecodeUndoesEncode(d', slots');
  }

  lemma TagInRange(d: Desc, r: nat)
    requires WellFormed(d) && r < |d.fields|
    ensures 1 <= d.fields[r].tag < MAX_TAG
  {
  }

  lemma SameFieldsSameMessage(d: Desc, a: Bytes, b: Bytes)
    requires DecodeFields(d, a, Progress(InitMessage(d), {}, 0)) == DecodeFields(d, b, Progress(InitMessage(d), {}, 0))
    ensures Decoded(d, a) == Decoded(d, b)
  {
    hide DecodeFields;
  }

  // ----- fields that come more than once -----

  function SlotOf(f: Field, v: Value): Slot {
    match f.htype
    case Optional => Maybe(Some(v))
    case Oneof(_) => Maybe(Some(v))
    case _ => Single(v)
  }

  /** A number or string is stored whatever the field held before. */
  lemma FieldIsStored(d: Desc, i: nat, v: Value, tail: Bytes, p: Progress)
    requires WellFormed(d) && ProgressOk(d, p) && i < |d.fields| && !d.fields[i].htype.Repeated? && !d.fields[i].ltype.Submessage?
    requires ValueFits(d.fields[i], v) && ValueTerminated(d.fields[i], v)
    requires TaggedBytes(d.fields[i], v).Some? && |TaggedBytes(d.fields[i], v).value| < TWO_32
    ensures DecodeFields(d, TaggedBytes(d.fields[i], v).value + tail, p)
      == DecodeFields(d, tail, Progress(StoreSlot(d, p.slots, i, SlotOf(d.fields[i], v)), MarkSeen(d, i, p.seen), i))
  {
    hide WellFormed, ValueFits, ValueTerminated, ValueBytes, DecodeValue, DecodeFields, TagBytes, StoreSlot, MarkSeen,
      InitValue;
    var f := d.fields[i];
    var tag, bytes := TagBytes(f, WireType(f.ltype)), ValueBytes(f, v).value;
    ScalarRoundTrip(f, v, tail, OldValue(f, p.slots[i]));
    ScalarRoundTrip(f, v, tail, InitValue(f));
    MoreBytes3(tag, bytes, tail);
    MeetsField(d, i, WireType(f.ltype), bytes + tail, p);
  }

  /** Of two values for one field, or for two members of a union, the last one counts. */
  lemma LastOneWins(d: Desc, i: nat, v: Value, j: nat, w: Value, tail: Bytes, p: Progress)
    requires WellFormed(d) && ProgressOk(d, p) && i < |d.fields| && j < |d.fields| && (i == j || SameGroup(d.fields[i], d.fields[j]))
    requires !d.fields[i].htype.Repeated? && !d.fields[i].ltype.Submessage? && !d.fields[j].ltype.Submessage?
    requires ValueFits(d.fields[i], v) && ValueTerminated(d.fields[i], v) && ValueFits(d.fields[j], w) && ValueTerminated(d.fields[j], w)
    requires TaggedBytes(d.fields[i], v).Some? && |TaggedBytes(d.fields[i], v).value| < TWO_32
    requires TaggedBytes(d.fields[j], w).Some? && |TaggedBytes(d.fields[j], w).value| < TWO_32
    ensures DecodeFields(d, TaggedBytes(d.fields[i], v).value + (TaggedBytes(d.fields[j], w).value + tail), p)
      == DecodeFields(d, TaggedBytes(d.fields[j], w).value + tail, p)
  {
    hide WellFormed, ValueFits, ValueTerminated, TaggedBytes, DecodeFields, StoreSlot, MarkSeen;
    var q := Progress(StoreSlot(d, p.slots, i, SlotOf(d.fields[i], v)), MarkSeen(d, i, p.seen), i);
    FieldIsStored(d, i, v, TaggedBytes(d.fields[j], w).value + tail, p);
    FieldIsStored(d, j, w, tail, q);
    FieldIsStored(d, j, w, tail, p);
    StoredTwice(d, p.slots, i, SlotOf(d.fields[i], v), j, SlotOf(d.fields[j], w));
    MarkedTwice(d, i, j, p.seen);
  }

  lemma StoredTwice(d: Desc, slots: seq<Slot>, i: nat, a: Slot, j: nat, b: Slot)
    requires |slots| == |d.fields| && i < |slots| && j < |slots| && (i == j || SameGroup(d.fields[i], d.fields[j]))
    ensures StoreSlot(d, StoreSlot(d, slots, i, a), j, b) == StoreSlot(d, slots, j, b)
  {
  }

  lemma MarkedTwice(d: Desc, i: nat, j: nat, seen: set<nat>)
    requires i < |d.fields| && j < |d.fields| && (i == j || SameGroup(d.fields[i], d.fields[j]))
    ensures MarkSeen(d, j, MarkSeen(d, i, seen)) == MarkSeen(d, j, seen)
  {
  }

  // ----- arrays, packed or not -----

  lemma {:induction false} PackedAfter(f: Field, items: seq<Value>, more: seq<Value>, k: nat, rest: Bytes)
    requires k <= |more| && |items| + |more| <= f.arraySize && !f.ltype.Submessage?
    requires (forall v :: v in more ==> ValueFits(f, v) && ValueTerminated(f, v))
    requires PackedBytes(f, more, k).Some? && |PackedBytes(f, more, k).value| < TWO_32
    ensures DecodePacked(f, PackedBytes(f, more, k).value + rest, items) == DecodePacked(f, rest, items + more[..k])
    decreases k
  {
    hide ValueFits, ValueTerminated, ValueBytes, DecodeValue;
    if k == 0 {
      assert [] + rest == rest && items + more[..0] == items;
    } else {
      var one := ValueBytes(f, more[k - 1]).value;
      var before := PackedBytes(f, more, k - 1).value;
      assert more[k - 1] in more;
      MoreBytes3(before, one, rest);
      PackedAfter(f, items, more, k - 1, one + rest);
      ScalarRoundTrip(f, more[k - 1], rest, InitValue(f));
      ValueNotEmpty(f, more[k - 1]);
      assert items + more[..k] == items + more[..k - 1] + [more[k - 1]];
    }
  }

  /** An array's slot changed, nothing else. */
  function WithItems(p: Progress, i: nat, items: seq<Value>, seen: set<nat>, pos: nat): Progress
    requires i < |p.slots|
  {
    Progress(p.slots[i := Many(items)], seen, pos)
  }

  lemma ArraySlotStored(d: Desc, slots: seq<Slot>, i: nat, s: Slot, seen: set<nat>)
    requires |slots| == |d.fields| && i < |slots| && d.fields[i].htype.Repeated?
    ensures StoreSlot(d, slots, i, s) == slots[i := s] && MarkSeen(d, i, seen) == seen
  {
  }

  /** A packed array is appended to the items there are. */
  lemma PackedIsAppended(d: Desc, i: nat, items: seq<Value>, more: seq<Value>, tail: Bytes, p: Progress)
    requires WellFormed(d) && ProgressOk(d, p) && i < |d.fields| && d.fields[i].htype.Repeated? && d.fields[i].ltype.Packable()
    requires p.slots[i] == Many(items) && more != [] && |items| + |more| <= d.fields[i].arraySize
    requires forall v :: v in more ==> ValueFits(d.fields[i], v) && ValueTerminated(d.fields[i], v)
    requires PackedBytes(d.fields[i], more, |more|).Some? && |PackedBytes(d.fields[i], more, |more|).value| < TWO_32
    ensures DecodeFields(d, Tagged(d.fields[i].tag, Data(PackedBytes(d.fields[i], more, |more|).value)) + tail, p)
      == DecodeFields(d, tail, WithItems(p, i, items + more, p.seen, i))
  {
    hide WellFormed, ValueFits, ValueTerminated, DecodeValue, DecodeFields, EncodeVarint, LengthPrefixed,
      TakePrefixed, PackedBytes, DecodePacked, StoreSlot, MarkSeen;
    var f := d.fields[i];
    var packed := PackedBytes(f, more, |more|).value;
    PrefixedRoundTrip(packed, tail);
    PackedAfter(f, items, more, |more|, []);
    assert packed + [] == packed && more[..|more|] == more;
    PackedEnds(f, items + more);
    MoreBytes3(EncodeVarint(8 * f.tag + 2), LengthPrefixed(packed), tail);
    MeetsField(d, i, WT_STRING, LengthPrefixed(packed) + tail, p);
    ArraySlotStored(d, p.slots, i, Many(items + more), p.seen);
  }

  lemma PackedEnds(f: Field, items: seq<Value>)
    ensures DecodePacked(f, [], items) == Some(items)
  {
  }

  /** An item with its own tag is appended too, also where the encoder would pack. */
  lemma ItemIsAppended(d: Desc, i: nat, items: seq<Value>, v: Value, tail: Bytes, p: Progress)
    requires WellFormed(d) && ProgressOk(d, p) && i < |d.fields| && d.fields[i].htype.Repeated? && !d.fields[i].ltype.Submessage?
    requires p.slots[i] == Many(items) && |items| < d.fields[i].arraySize
    requires ValueFits(d.fields[i], v) && ValueTerminated(d.fields[i], v)
    requires TaggedBytes(d.fields[i], v).Some? && |TaggedBytes(d.fields[i], v).value| < TWO_32
    ensures DecodeFields(d, TaggedBytes(d.fields[i], v).value + tail, p) == DecodeFields(d, tail, WithItems(p, i, items + [v], p.seen, i))
  {
    hide WellFormed, ValueFits, ValueTerminated, ValueBytes, DecodeValue, DecodeFields, TagBytes, StoreSlot, MarkSeen,
      InitValue;
    var f := d.fields[i];
    var tag, bytes := TagBytes(f, WireType(f.ltype)), ValueBytes(f, v).value;
    ScalarRoundTrip(f, v, tail, InitValue(f));
    MoreBytes3(tag, bytes, tail);
    MeetsField(d, i, WireType(f.ltype), bytes + tail, p);
    ArraySlotStored(d, p.slots, i, Many(items + [v]), p.seen);
  }

  /** An item for which the array has no room is refused, with its own tag or packed. */
  lemma FullArrayRefuses(d: Desc, i: nat, kind: nat, rest: Bytes, s: Bytes, tail: Bytes, p: Progress)
    requires WellFormed(d) && ProgressOk(d, p) && i < |d.fields| && d.fields[i].htype.Repeated?
    requires |OldItems(p.slots[i])| >= d.fields[i].arraySize && kind < 8 && s != [] && |s| < TWO_32
    ensures kind != 2 || !d.fields[i].ltype.Packable() ==> DecodeFields(d, EncodeVarint(8 * d.fields[i].tag + kind) + rest, p) == None
    ensures d.fields[i].ltype.Packable() ==> DecodeFields(d, Tagged(d.fields[i].tag, Data(s)) + tail, p) == None
  {
    hide WellFormed, DecodeFields, DecodeTag, FindField, EncodeVarint, LengthPrefixed, TakePrefixed, OldItems;
    TagInRange(d, i);
    TagIsFound(d, p.pos, i);
    MeetsTag(d.fields[i].tag, kind, rest);
    FieldsUnfold(d, EncodeVarint(8 * d.fields[i].tag + kind) + rest, p);
    PrefixedRoundTrip(s, tail);
    MoreBytes3(EncodeVarint(8 * d.fields[i].tag + 2), LengthPrefixed(s), tail);
    MeetsTag(d.fields[i].tag, 2, LengthPrefixed(s) + tail);
    FieldsUnfold(d, Tagged(d.fields[i].tag, Data(s)) + tail, p);
  }

  // ----- required fields -----

  /** The walk over the input comes to field i. */
  predicate Occurs(d: Desc, input: Bytes, p: Progress, i: nat)
    requires ProgressOk(d, p)
    decreases |input|
  {
    match DecodeTag(input)
    case TagFound(tag, wireType, rest) =>
      (match FindField(d.fields, p.pos, tag)
       case None =>
         var after := SkipField(wireType, rest);
         after.Some? && Occurs(d, after.value, p, i)
       case Some(j) =>
         || j == i
         || (var v := DecodeField(d.fields[j], wireType, rest, p.slots[j]);
             v.Some? && Occurs(d, v.value.1, Progress(StoreSlot(d, p.slots, j, v.value.0), p.seen, j), i)))
    case _ => false
  }

  /** Which fields are met does not depend on which were seen. */
  lemma {:induction false} OccursAnyway(d: Desc, input: Bytes, p: Progress, seen: set<nat>, i: nat)
    requires ProgressOk(d, p)
    ensures Occurs(d, input, p, i) == Occurs(d, input, p.(seen := seen), i)
    decreases |input|
  {
    hide DecodeTag, FindField, SkipField, DecodeField, StoreSlot;
    var t := DecodeTag(input);
    if t.TagFound? {
      var j := FindField(d.fields, p.pos, t.tag);
      if j.None? {
        var after := SkipField(t.wireType, t.rest);
        if after.Some? {
          OccursAnyway(d, after.value, p, seen, i);
        }
      } else {
        var v := DecodeField(d.fields[j.value], t.wireType, t.rest, p.slots[j.value]);
        if v.Some? {
          OccursAnyway(d, v.value.1, Progress(StoreSlot(d, p.slots, j.value, v.value.0), p.seen, j.value), seen, i);
        }
      }
    }
  }

  /** Field i is required and among the first 64 required ones. */
  predicate Tracked(d: Desc, i: nat) {
    i < |d.fields| && d.fields[i].htype.Required? && CountRequired(d.fields, i) < 64
  }

  lemma {:induction false} RequiredNumbers(fields: seq<Field>, i: nat, j: nat)
    requires i < j <= |fields| && fields[i].htype.Required?
    ensures CountRequired(fields, i) < CountRequired(fields, j)
  {
    if i + 1 < j {
      RequiredNumbers(fields, i, j - 1);
    }
  }

  lemma MarkedAlone(d: Desc, j: nat, seen: set<nat>, i: nat)
    requires j < |d.fields| && Tracked(d, i)
    ensures CountRequired(d.fields, i) in MarkSeen(d, j, seen) <==> CountRequired(d.fields, i) in seen || j == i
  {
    if d.fields[j].htype.Required? {
      if i < j {
        RequiredNumbers(d.fields, i, j);
      } else if j < i {
        RequiredNumbers(d.fields, j, i);
      }
    }
  }

  /** A tracked field is seen when it was seen before or the input has it. */
  lemma {:induction false} SeenIfOccurs(d: Desc, input: Bytes, p: Progress, i: nat)
    requires ProgressOk(d, p) && Tracked(d, i) && DecodeFields(d, input, p).Some?
    ensures CountRequired(d.fields, i) in DecodeFields(d, input, p).value.seen <==> CountRequired(d.fields, i) in p.seen || Occurs(d, input, p, i)
    decreases |input|
  {
    hide DecodeTag, FindField, SkipField, DecodeField, StoreSlot, MarkSeen, DecodeFields, Tracked;
    FieldsUnfold(d, input, p);
    var t := DecodeTag(input);
    if t.TagFound? {
      var found := FindField(d.fields, p.pos, t.tag);
      if found.None? {
        SeenIfOccurs(d, SkipField(t.wireType, t.rest).value, p, i);
      } else {
        var j := found.value;
        var v := DecodeField(d.fields[j], t.wireType, t.rest, p.slots[j]).value;
        var q := Progress(StoreSlot(d, p.slots, j, v.0), MarkSeen(d, j, p.seen), j);
        SeenIfOccurs(d, v.1, q, i);
        OccursAnyway(d, v.1, q, p.seen, i);
        MarkedAlone(d, j, p.seen, i);
      }
    }
  }

  lemma {:induction false} NumberedField(fields: seq<Field>, n: nat, k: nat) returns (i: nat)
    requires n <= |fields| && k < CountRequired(fields, n)
    ensures i < n && fields[i].htype.Required? && CountRequired(fields, i) == k
  {
    if fields[n - 1].htype.Required? && CountRequired(fields, n - 1) == k {
      i := n - 1;
    } else {
      i := NumberedField(fields, n - 1, k);
    }
  }

  lemma AllSeenIff(d: Desc, seen: set<nat>)
    ensures AllSeen(d, seen) <==> forall i :: Tracked(d, i) ==> CountRequired(d.fields, i) in seen
  {
    if AllSeen(d, seen) {
      forall i | Tracked(d, i) ensures CountRequired(d.fields, i) in seen {
        RequiredNumbers(d.fields, i, |d.fields|);
      }
    }
    if forall i :: Tracked(d, i) ==> CountRequired(d.fields, i) in seen {
      forall k: nat | k < CountRequired(d.fields, |d.fields|) && k < MAX_REQUIRED_FIELDS ensures k in seen {
        var i := NumberedField(d.fields, |d.fields|, k);
        assert Tracked(d, i);
      }
    }
  }

  /** Any input whose fields decode is accepted if and only if it has every required field,
      of the first 64 of them. */
  lemma AcceptedIffComplete(d: Desc, input: Bytes)
    ensures
      var start := Progress(InitMessage(d), {}, 0);
      Decoded(d, input).Some? <==> DecodeFields(d, input, start).Some? && forall i :: Tracked(d, i) ==> Occurs(d, input, start, i)
  {
    hide DecodeFields, AllSeen, Occurs, InitMessage;
    var start := Progress(InitMessage(d), {}, 0);
    if DecodeFields(d, input, start).Some? {
      AllSeenIff(d, DecodeFields(d, input, start).value.seen);
      forall i | Tracked(d, i)
        ensures CountRequired(d.fields, i) in DecodeFields(d, input, start).value.seen <==> Occurs(d, input, start, i)
      {
        SeenIfOccurs(d, input, start, i);
      }
    }
  }

  // ----- values out of range -----

  /** The low 32 bits as a signed number. */
  function LowSigned(n: uint64): int {
    var low: int := n % TWO_32;
    if low >= 0x8000_0000 then low - TWO_32 else low
  }

  /** A varint is taken when its value fits the field's size, and refused otherwise; a signed
      field of less than 64 bits looks at the low 32 bits only. */
  lemma NumberInRange(f: Field, n: uint64, tail: Bytes, old': Value)
    requires IntegerSize(f.dataSize)
    ensures f.ltype.UVarint? ==>
      DecodeValue(f, EncodeVarint(n) + tail, old') == if FitsUnsigned(f.dataSize, n) then Some((IntVal(n), tail)) else None
    ensures f.ltype.SVarint? ==>
      DecodeValue(f, EncodeVarint(n) + tail, old') == if FitsSigned(f.dataSize, Unzigzag(n)) then Some((IntVal(Unzigzag(n)), tail)) else None
    ensures f.ltype.Varint? ==>
      var value := if f.dataSize == 8 then AsSigned(n) else LowSigned(n);
      DecodeValue(f, EncodeVarint(n) + tail, old') == if FitsSigned(f.dataSize, value) then Some((IntVal(value), tail)) else None
  {
    hide DecodeUint32, DecodeUint64, EncodeVarint, Unzigzag, AsSigned, CastSigned, CastUnsigned;
    Uint64RoundTrip(n, tail);
    UnsignedFitsIff(f.dataSize, n);
    SignedFitsIff(f.dataSize, Unzigzag(n));
    SignedFitsIff(f.dataSize, AsSigned(n));
    SignedFitsIff(f.dataSize, LowSigned(n));
    LowIsCast(n);
  }

  lemma LowIsCast(n: uint64)
    ensures CastSigned(4, n) == LowSigned(n)
  {
  }

  lemma UnsignedFitsIff(size: nat, n: uint64)
    requires IntegerSize(size)
    ensures CastUnsigned(size, n) == n <==> FitsUnsigned(size, n)
  {
  }

  lemma SignedFitsIff(size: nat, i: int)
    requires IntegerSize(size) && -TWO_63 <= i < TWO_63
    ensures CastSigned(size, i) == i <==> FitsSigned(size, i)
  {
  }

  /** Data is taken when the field's buffer holds it, with the room a bytes array or a string
      needs besides, and refused otherwise. */
  lemma DataInRange(f: Field, s: Bytes, tail: Bytes, old': Value)
    requires |s| < TWO_32
    ensures f.ltype.BytesField? ==> DecodeValue(f, LengthPrefixed(s) + tail, old') == if |s| + 4 <= f.dataSize then Some((DataVal(s), tail)) else None
    ensures f.ltype.StringField? ==>
      DecodeValue(f, LengthPrefixed(s) + tail, old') == if |s| + 1 <= f.dataSize then Some((DataVal(s + [0]), tail)) else None
    ensures f.ltype.FixedLengthBytes? ==>
      DecodeValue(f, LengthPrefixed(s) + tail, old')
        == if s == [] then Some((DataVal(Zeros(f.dataSize)), tail)) else if |s| == f.dataSize then Some((DataVal(s), tail)) else None
  {
    hide DecodeUint32, LengthPrefixed, Take;
    PrefixedRoundTrip(s, tail);
    assert s == [] ==> s + tail == tail;
  }

  // ----- fields that leave no bytes -----

  /** A field that can be left out when it is at its default: required ones cannot, nor can
      byte strings of a fixed length above 0 and messages that hold such a field. */
  predicate Skippable(f: Field)
    decreases f, 1
  {
    match f.htype
    case Required => false
    case Singular => SkippableValue(f)
    case _ => true
  }

  predicate SkippableValue(f: Field)
    decreases f, 0
  {
    match f.ltype
    case FixedLengthBytes => f.dataSize == 0
    case Submessage => forall i :: 0 <= i < |f.sub.fields| ==> Skippable(f.sub.fields[i])
    case _ => true
  }

  /** The zero test passes exactly the start value of a field that can be left out. */
  lemma DefaultValueIff(f: Field, v: Value)
    requires ValueFits(f, v) && ValueTerminated(f, v)
    ensures IsDefaultValue(f, v) <==> v == InitValue(f) && SkippableValue(f)
    decreases f, 0
  {
    match f.ltype {
      case Submessage => DefaultMessageIff(f, v.slots);
      case FixedLengthBytes =>
        assert f.dataSize == 0 ==> v.bytes == Zeros(0);
      case StringField =>
        assert v.bytes[0] == 0 ==> v.bytes == [0];
      case _ =>
    }
  }

  lemma DefaultMessageIff(f: Field, slots: seq<Slot>)
    requires f.ltype.Submessage? && MessageFits(f.sub, slots) && Terminated(f.sub, slots)
    ensures IsDefaultMessage(f.sub, slots) <==> slots == InitMessage(f.sub) && SkippableValue(f)
    decreases f.sub, 0
  {
    hide ValueFits, IsDefaultValue, ValueTerminated, InitValue, SkippableValue, IsDefaultSlot, Skippable;
    var d := f.sub;
    forall i | 0 <= i < |slots|
      ensures SlotFits(d.fields[i], slots[i]) && (IsDefaultSlot(d.fields[i], slots[i]) <==> slots[i] == InitSlot(d.fields[i]) && Skippable(d.fields[i]))
    {
      FieldTerminated(d, slots, i);
      DefaultSlotIff(d.fields[i], slots[i]);
    }
    SkippableSub(f);
    assert slots == InitMessage(d) <==> forall i :: 0 <= i < |slots| ==> slots[i] == InitSlot(d.fields[i]);
  }

  lemma SkippableSub(f: Field)
    requires f.ltype.Submessage?
    ensures SkippableValue(f) <==> forall i :: 0 <= i < |f.sub.fields| ==> Skippable(f.sub.fields[i])
  {
    hide Skippable;
  }

  lemma DefaultSlotIff(f: Field, s: Slot)
    requires SlotFits(f, s) && SlotTerminated(f, s)
    ensures IsDefaultSlot(f, s) <==> s == InitSlot(f) && Skippable(f)
    decreases f, 1
  {
    hide ValueFits, IsDefaultValue, ValueTerminated, InitValue, SkippableValue;
    if f.htype.Singular? {
      DefaultValueIff(f, s.value);
    }
  }

  /** A field leaves no bytes if and only if it can be left out and is at its default. */
  lemma LeftOutIff(f: Field, s: Slot)
    requires SlotFits(f, s) && SlotTerminated(f, s)
    ensures SlotBytes(f, s) == Some([]) <==> s == InitSlot(f) && Skippable(f)
  {
    hide ValueFits, IsDefaultValue, ValueTerminated, InitValue, SkippableValue, TaggedBytes, ArrayBytes;
    match f.htype {
      case Singular =>
        DefaultValueIff(f, s.value);
        WrittenIsNotEmpty(f, s.value);
      case Required => WrittenIsNotEmpty(f, s.value);
      case Repeated =>
        EmptyArray(f);
        if ArrayBytes(f, s.items) == Some([]) {
          SkippedArray(f, s.items);
        }
      case _ =>
        if s.opt.Some? {
          WrittenIsNotEmpty(f, s.opt.value);
        }
    }
  }

  lemma WrittenIsNotEmpty(f: Field, v: Value)
    requires ValueFits(f, v)
    ensures TaggedBytes(f, v) != Some([])
  {
    hide ValueFits, TaggedBytes;
    if TaggedBytes(f, v).Some? {
      TaggedNotEmpty(f, v);
    }
  }
}

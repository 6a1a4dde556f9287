/** Exactly which messages survive encoding and decoding: those whose strings are terminated. */
module PbTerminated {
  import opened Options
  import opened Coding
  import opened PbVarint
  import opened PbCommon
  import opened PbEncode
  import opened PbDecode
  import opened PbRoundTrip

  // ----- every string the decoder leaves ends in a zero -----

  predicate ValueClosed(f: Field, v: Value)
    decreases f, 0
  {
    match f.ltype
    case StringField => v.DataVal? && v.bytes != [] && v.bytes[|v.bytes| - 1] == 0
    case Submessage => v.MsgVal? && Closed(f.sub, v.slots)
    case _ => true
  }

  predicate SlotClosed(f: Field, s: Slot)
    decreases f, 1
  {
    match s
    case Single(v) => ValueClosed(f, v)
    case Maybe(opt) => opt.Some? ==> ValueClosed(f, opt.value)
    case Many(items) => forall v :: v in items ==> ValueClosed(f, v)
  }

  predicate Closed(d: Desc, slots: seq<Slot>)
    decreases d
  {
    |slots| == |d.fields| && forall i :: 0 <= i < |slots| ==> SlotClosed(d.fields[i], slots[i])
  }

  lemma InitIsClosed(f: Field)
    ensures ValueClosed(f, InitValue(f)) && SlotClosed(f, InitSlot(f))
    decreases f
  {
    if f.ltype.Submessage? {
      InitMessageIsClosed(f.sub);
    }
  }

  lemma InitMessageIsClosed(d: Desc)
    ensures Closed(d, InitMessage(d))
    decreases d
  {
    forall i | 0 <= i < |d.fields| ensures SlotClosed(d.fields[i], InitSlot(d.fields[i])) {
      InitIsClosed(d.fields[i]);
    }
  }

  lemma ValueStaysClosed(f: Field, input: Bytes, old': Value)
    requires ValueClosed(f, old') && DecodeValue(f, input, old').Some?
    ensures ValueClosed(f, DecodeValue(f, input, old').value.0)
    decreases f, 0
  {
    hide DecodeUint32, DecodeUint64, TakePrefixed, DecodeMessage, CastSigned, CastUnsigned, Unzigzag;
    if f.ltype.Submessage? {
      var part := TakePrefixed(input);
      var slots := if f.htype.Repeated? then InitMessage(f.sub) else OldSlots(f, old');
      InitMessageIsClosed(f.sub);
      MessageStaysClosed(f.sub, part.value.0, slots);
    }
  }

  lemma PackedStaysClosed(f: Field, input: Bytes, items: seq<Value>)
    requires (forall v :: v in items ==> ValueClosed(f, v)) && DecodePacked(f, input, items).Some?
    ensures forall v :: v in DecodePacked(f, input, items).value ==> ValueClosed(f, v)
    decreases f, 1, |input|, f.arraySize - |items|
  {
    hide DecodeValue, ValueClosed;
    if input != [] {
      InitIsClosed(f);
      ValueStaysClosed(f, input, InitValue(f));
      var v := DecodeValue(f, input, InitValue(f)).value;
      PackedStaysClosed(f, v.1, items + [v.0]);
    }
  }

  lemma FieldStaysClosed(f: Field, wireType: nat, input: Bytes, slot: Slot)
    requires SlotClosed(f, slot) && DecodeField(f, wireType, input, slot).Some?
    ensures SlotClosed(f, DecodeField(f, wireType, input, slot).value.0)
    decreases f, 2
  {
    hide DecodeValue, DecodePacked, TakePrefixed, ValueClosed;
    InitIsClosed(f);
    if f.htype.Repeated? && wireType == WT_STRING && f.ltype.Packable() {
      PackedStaysClosed(f, TakePrefixed(input).value.0, OldItems(slot));
    } else if f.htype.Repeated? || f.htype.Oneof? {
      ValueStaysClosed(f, input, InitValue(f));
    } else {
      ValueStaysClosed(f, input, OldValue(f, slot));
    }
  }

  lemma FieldsStayClosed(d: Desc, input: Bytes, p: Progress)
    requires ProgressOk(d, p) && Closed(d, p.slots) && DecodeFields(d, input, p).Some?
    ensures Closed(d, DecodeFields(d, input, p).value.slots)
    decreases d, 3, |input|
  {
    hide DecodeField, DecodeTag, SkipField, FindField, MarkSeen, SlotClosed, DecodeFields;
    FieldsUnfold(d, input, p);
    var t := DecodeTag(input);
    if t.TagFound? {
      var i := FindField(d.fields, p.pos, t.tag);
      if i.None? {
        FieldsStayClosed(d, SkipField(t.wireType, t.rest).value, p);
      } else {
        FieldStaysClosed(d.fields[i.value], t.wireType, t.rest, p.slots[i.value]);
        var v := DecodeField(d.fields[i.value], t.wireType, t.rest, p.slots[i.value]).value;
        StoreStaysClosed(d, p.slots, i.value, v.0);
        FieldsStayClosed(d, v.1, Progress(StoreSlot(d, p.slots, i.value, v.0), MarkSeen(d, i.value, p.seen), i.value));
      }
    }
  }

  lemma StoreStaysClosed(d: Desc, slots: seq<Slot>, i: nat, s: Slot)
    requires Closed(d, slots) && i < |slots| && SlotClosed(d.fields[i], s)
    ensures Closed(d, StoreSlot(d, slots, i, s))
  {
  }

  lemma MessageStaysClosed(d: Desc, input: Bytes, slots: seq<Slot>)
    requires |slots| == |d.fields| && Closed(d, slots) && DecodeMessage(d, input, slots).Some?
    ensures Closed(d, DecodeMessage(d, input, slots).value)
    decreases d, 4
  {
    hide DecodeFields, Closed;
    FieldsStayClosed(d, input, Progress(slots, {}, 0));
  }

  // ----- a message that fits memory and is closed is terminated -----

  lemma ClosedValueIsTerminated(f: Field, v: Value)
    requires ValueFits(f, v) && ValueClosed(f, v)
    ensures ValueTerminated(f, v)
    decreases f, 0
  {
    if f.ltype.Submessage? {
      ClosedIsTerminated(f.sub, v.slots);
    }
  }

  lemma ClosedIsTerminated(d: Desc, slots: seq<Slot>)
    requires MessageFits(d, slots) && Closed(d, slots)
    ensures Terminated(d, slots)
    decreases d
  {
    hide ValueFits, ValueClosed, ValueTerminated;
    forall i | 0 <= i < |slots| ensures SlotTerminated(d.fields[i], slots[i]) {
      var f, s := d.fields[i], slots[i];
      assert SlotFits(f, s) && SlotClosed(f, s);
      forall v | (s.Single? && v == s.value) || (s.Maybe? && s.opt == Some(v)) || (s.Many? && v in s.items) ensures ValueTerminated(f, v) {
        ClosedValueIsTerminated(f, v);
      }
    }
  }

  /** A message comes back from encoding and decoding exactly when all its strings, at every
      depth, are terminated. */
  lemma RoundTripIffTerminated(d: Desc, slots: seq<Slot>)
    requires MessageFits(d, slots) && WellFormed(d)
    requires Encoded(d, slots).Some? && |Encoded(d, slots).value| < TWO_32
    ensures Decoded(d, Encoded(d, slots).value) == Some(slots) <==> Terminated(d, slots)
  {
    hide MessageFits, WellFormed, Terminated, Closed, Encoded, DecodeMessage;
    if Terminated(d, slots) {
      DecodeUndoesEncode(d, slots);
    }
    if Decoded(d, Encoded(d, slots).value) == Some(slots) {
      InitMessageIsClosed(d);
      MessageStaysClosed(d, Encoded(d, slots).value, InitMessage(d));
      ClosedIsTerminated(d, slots);
    }
  }
}

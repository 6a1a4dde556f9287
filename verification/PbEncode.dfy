/** The encoder: what a message encodes to, and the stream methods that write it.  A stream
    either writes to a buffer of limited size or only counts bytes; submessages and packed
    arrays are first run through a counting stream to learn their length. */
module PbEncode {
  import opened Options
  import opened Coding
  import opened PbVarint
  import opened PbCommon

  // ----- what a message encodes to -----

  const WT_VARINT := 0
  const WT_64BIT := 1
  const WT_STRING := 2
  const WT_32BIT := 5

  function WireType(l: LType): nat {
    match l
    case Bool => WT_VARINT
    case Varint => WT_VARINT
    case UVarint => WT_VARINT
    case SVarint => WT_VARINT
    case Fixed32 => WT_32BIT
    case Fixed64 => WT_64BIT
    case _ => WT_STRING
  }

  /** None stands for an encoding error. */
  type Encoding = Option<Bytes>

  function Append(a: Encoding, b: Encoding): Encoding {
    if a.None? || b.None? then None else Some(a.value + b.value)
  }

  function TagBytes(f: Field, wireType: nat): Bytes {
    EncodeVarint(f.tag * 8 + wireType)
  }

  /** The string in a character buffer: what comes before the terminator. */
  function CString(chars: Bytes): Bytes {
    if chars == [] || chars[0] == 0 then [] else [chars[0]] + CString(chars[1..])
  }

  function ValueBytes(f: Field, v: Value): Encoding
    requires ValueFits(f, v)
    decreases f, 0
  {
    match f.ltype
    case Bool => Some(EncodeVarint(if v.b then 1 else 0))
    case Varint => if IntegerSize(f.dataSize) then Some(EncodeVarint(AsUnsigned(v.i))) else None
    case UVarint => if IntegerSize(f.dataSize) then Some(EncodeVarint(v.i)) else None
    case SVarint => if IntegerSize(f.dataSize) then Some(EncodeVarint(Zigzag(v.i))) else None
    case Fixed32 => Some(EncodeFixed32(v.i))
    case Fixed64 => Some(EncodeFixed64(v.i))
    case BytesField => if |v.bytes| + BYTES_OFFSET > f.dataSize then None else Some(LengthPrefixed(v.bytes))
    case StringField => Some(LengthPrefixed(CString(v.bytes)))
    case FixedLengthBytes => Some(LengthPrefixed(v.bytes))
    case Submessage =>
      var m := MessageBytes(f.sub, v.slots, |f.sub.fields|);
      if m.None? then None else Some(LengthPrefixed(m.value))
  }

  function TaggedBytes(f: Field, v: Value): Encoding
    requires ValueFits(f, v)
    decreases f, 1
  {
    Append(Some(TagBytes(f, WireType(f.ltype))), ValueBytes(f, v))
  }

  /** The first n items of a packed array, without tag and length. */
  function PackedBytes(f: Field, items: seq<Value>, n: nat): Encoding
    requires n <= |items| && forall v :: v in items ==> ValueFits(f, v)
    decreases f, 2, n
  {
    if n == 0 then Some([]) else Append(PackedBytes(f, items, n - 1), ValueBytes(f, items[n - 1]))
  }

  /** The first n items of an array that is not packed, each with its tag. */
  function UnpackedBytes(f: Field, items: seq<Value>, n: nat): Encoding
    requires n <= |items| && forall v :: v in items ==> ValueFits(f, v)
    decreases f, 2, n
  {
    if n == 0 then Some([]) else Append(UnpackedBytes(f, items, n - 1), TaggedBytes(f, items[n - 1]))
  }

  function ArrayBytes(f: Field, items: seq<Value>): Encoding
    requires forall v :: v in items ==> ValueFits(f, v)
    decreases f, 3
  {
    if items == [] then Some([])
    else if |items| > f.arraySize then None
    else if f.ltype.Packable() then
      var packed := PackedBytes(f, items, |items|);
      if packed.None? then None else Some(TagBytes(f, WT_STRING) + LengthPrefixed(packed.value))
    else UnpackedBytes(f, items, |items|)
  }

  /** The zero test for fields without a has-flag. */
  predicate IsDefaultValue(f: Field, v: Value)
    requires ValueFits(f, v)
    decreases f, 0
  {
    match f.ltype
    case Bool => !v.b
    case BytesField => v.bytes == []
    case StringField => v.bytes == [] || v.bytes[0] == 0
    case FixedLengthBytes => f.dataSize == 0
    case Submessage => IsDefaultMessage(f.sub, v.slots)
    case _ => v.i == 0
  }

  predicate IsDefaultSlot(f: Field, s: Slot)
    requires SlotFits(f, s)
    decreases f, 1
  {
    match f.htype
    case Required => false
    case Repeated => s.items == []
    case Oneof(_) => s.opt.None?
    case Optional => s.opt.None?
    case Singular => IsDefaultValue(f, s.value)
  }

  predicate IsDefaultMessage(d: Desc, slots: seq<Slot>)
    requires MessageFits(d, slots)
    decreases d
  {
    forall i :: 0 <= i < |slots| ==> IsDefaultSlot(d.fields[i], slots[i])
  }

  function SlotBytes(f: Field, s: Slot): Encoding
    requires SlotFits(f, s)
    decreases f, 4
  {
    match f.htype
    case Required => TaggedBytes(f, s.value)
    case Optional => if s.opt.Some? then TaggedBytes(f, s.opt.value) else Some([])
    case Oneof(_) => if s.opt.Some? then TaggedBytes(f, s.opt.value) else Some([])
    case Singular => if IsDefaultValue(f, s.value) then Some([]) else TaggedBytes(f, s.value)
    case Repeated => ArrayBytes(f, s.items)
  }

  /** The first n fields of a message. */
  function MessageBytes(d: Desc, slots: seq<Slot>, n: nat): Encoding
    requires MessageFits(d, slots) && n <= |slots|
    decreases d, 5, n
  {
    if n == 0 then Some([]) else Append(MessageBytes(d, slots, n - 1), SlotBytes(d.fields[n - 1], slots[n - 1]))
  }

  function Encoded(d: Desc, slots: seq<Slot>): Encoding
    requires MessageFits(d, slots)
  {
    MessageBytes(d, slots, |d.fields|)
  }

  // ----- streams -----

  const SIZE_CHANGED := "submsg size changed"

  class OStream {
    const sizing: bool
    const maxSize: nat
    var buf: Bytes
    var bytesWritten: nat
    var errmsg: string

    ghost predicate Ok()
      reads this
    {
      (!sizing ==> bytesWritten <= maxSize) && errmsg != SIZE_CHANGED
    }

    /** PB_OSTREAM_SIZING: counts, keeps nothing, is never full. */
    constructor Sizing()
      ensures Ok() && sizing && buf == [] && bytesWritten == 0
    {
      sizing, maxSize, buf, bytesWritten, errmsg := true, 0, [], 0, "";
    }

    /** A writing stream that may take so many bytes, after those already in the buffer. */
    constructor Writing(buf: Bytes, maxSize: nat)
      ensures Ok() && !sizing && this.buf == buf && this.maxSize == maxSize && bytesWritten == 0
    {
      sizing, this.maxSize, this.buf, bytesWritten, errmsg := false, maxSize, buf, 0, "";
    }

    /** pb_write: all of the bytes, or an error when they do not fit. */
    method Write(bytes: Bytes) returns (ok: bool)
      requires Ok()
      modifies this
      ensures Wrote(this, old(buf), old(bytesWritten), Some(bytes), ok)
    {
      if |bytes| > 0 && !sizing {
        if bytesWritten + |bytes| > maxSize {
          errmsg := "stream full";
          return false;
        }
        buf := buf + bytes;
      }
      assert bytes == [] ==> buf + bytes == buf;
      bytesWritten := bytesWritten + |bytes|;
      ok := true;
    }

    /** pb_write without data, on a counting stream. */
    method Count(n: nat)
      requires Ok() && sizing
      modifies this`bytesWritten
      ensures Ok() && bytesWritten == old(bytesWritten) + n
    {
      bytesWritten := bytesWritten + n;
    }
  }

  /** What writing an encoding does: it succeeds exactly when the encoding exists and fits,
      and then the stream is that many bytes further and the buffer holds them. */
  ghost predicate Wrote(s: OStream, buf0: Bytes, written0: nat, e: Encoding, ok: bool)
    reads s
  {
    s.Ok() && WroteTo(s.sizing, s.maxSize, s.buf, s.bytesWritten, buf0, written0, e, ok)
  }

  predicate WroteTo(sizing: bool, maxSize: nat, buf: Bytes, written: nat, buf0: Bytes, written0: nat, e: Encoding, ok: bool) {
    && (ok <==> e.Some? && (sizing || written0 + |e.value| <= maxSize))
    && (ok ==> written == written0 + |e.value| && buf == if sizing then buf0 else buf0 + e.value)
  }

  /** One write after another. */
  lemma WroteNext(sizing: bool, maxSize: nat, buf: Bytes, written: nat, buf1: Bytes, written1: nat, buf0: Bytes, written0: nat,
      e: Encoding, next: Encoding, ok: bool)
    requires WroteTo(sizing, maxSize, buf1, written1, buf0, written0, e, true)
    requires WroteTo(sizing, maxSize, buf, written, buf1, written1, next, ok)
    ensures WroteTo(sizing, maxSize, buf, written, buf0, written0, Append(e, next), ok)
  {
    if ok && !sizing {
      Appended(buf0, e.value, next.value);
    }
  }

  /** A write that failed early fails as a whole. */
  lemma WroteNot(sizing: bool, maxSize: nat, buf: Bytes, written: nat, buf0: Bytes, written0: nat, part: Encoding, all: Encoding)
    requires WroteTo(sizing, maxSize, buf, written, buf0, written0, part, false)
    requires all.Some? ==> part.Some? && |part.value| <= |all.value|
    ensures WroteTo(sizing, maxSize, buf, written, buf0, written0, all, false)
  {
  }

  // ----- single values -----

  /** The bytes of a number with the continuation bit set on every one. */
  function Continued(n: nat): Bytes {
    if n == 0 then [] else [n % 128 + 128] + Continued(n / 128)
  }

  lemma {:induction false} ContinuedIsVarint(n: nat)
    requires n > 0
    ensures
      var c := Continued(n);
      c != [] && c[|c| - 1] >= 128 && EncodeVarint(n) == c[..|c| - 1] + [c[|c| - 1] - 128]
  {
    var c := Continued(n);
    if n >= 128 {
      ContinuedIsVarint(n / 128);
      var rest := Continued(n / 128);
      assert c == [n % 128 + 128] + rest;
      assert c[..|c| - 1] == [n % 128 + 128] + rest[..|rest| - 1];
    } else {
      assert Continued(n / 128) == [];
    }
  }

  /** The continued bytes with the last continuation bit cleared. */
  lemma LastCleared(buffer: Bytes, value: nat)
    requires value > 0 && buffer == Continued(value)
    ensures buffer != [] && buffer[|buffer| - 1] >= 128
    ensures buffer[|buffer| - 1 := buffer[|buffer| - 1] - 128] == EncodeVarint(value)
    ensures value < TWO_64 ==> |buffer| <= 10
  {
    hide EncodeVarint, Continued;
    ContinuedIsVarint(value);
    if value < TWO_64 {
      Varint64Size(value);
    }
  }

  lemma OneByte(value: nat)
    requires value <= 0x7F
    ensures EncodeVarint(value) == [value]
  {
  }

  /** A 64-bit number takes at most ten bytes, the size of the encoder's buffer. */
  method EncodeVarintTo(s: OStream, value: nat) returns (ok: bool)
    requires s.Ok()
    modifies s
    ensures Wrote(s, old(s.buf), old(s.bytesWritten), Some(EncodeVarint(value)), ok)
  {
    hide EncodeVarint, WroteTo;
    if value <= 0x7F {
      OneByte(value);
      ok := s.Write([value]);
      return;
    }
    var buffer: Bytes := [];
    var left := value;
    while left != 0
      invariant unchanged(s) && buffer + Continued(left) == Continued(value)
    {
      Appended(buffer, [left % 128 + 128], Continued(left / 128));
      buffer := buffer + [left % 128 + 128];
      left := left / 128;
    }
    assert buffer + Continued(0) == buffer;
    LastCleared(buffer, value);
    var last := |buffer| - 1;
    assert value < TWO_64 ==> |buffer| <= 10;
    buffer := buffer[last := buffer[last] - 128];
    ok := s.Write(buffer);
  }

  method EncodeTag(s: OStream, f: Field, wireType: nat) returns (ok: bool)
    requires s.Ok() && f.tag < MAX_TAG && wireType < 8
    modifies s
    ensures Wrote(s, old(s.buf), old(s.bytesWritten), Some(TagBytes(f, wireType)), ok)
  {
    ok := EncodeVarintTo(s, f.tag * 8 + wireType);
  }

  method EncodeString(s: OStream, bytes: Bytes) returns (ok: bool)
    requires s.Ok()
    modifies s
    ensures Wrote(s, old(s.buf), old(s.bytesWritten), Some(LengthPrefixed(bytes)), ok)
  {
    ok := EncodeVarintTo(s, |bytes|);
    if ok {
      ok := s.Write(bytes);
      Appended(old(s.buf), EncodeVarint(|bytes|), bytes);
    }
  }

  lemma Appended(a: Bytes, b: Bytes, c: Bytes)
    ensures a + b + c == a + (b + c)
  {
  }

  lemma CStringStep(chars: Bytes, size: nat)
    requires size <= |chars|
    ensures CString(chars[size..])
      == if size < |chars| && chars[size] != 0 then [chars[size]] + CString(chars[size + 1..]) else []
  {
    if size < |chars| {
      assert chars[size..][1..] == chars[size + 1..];
    }
  }

  /** The length of a string: up to its terminator or the end of its buffer. */
  method StringLength(chars: Bytes, maxSize: nat) returns (size: nat)
    requires |chars| <= maxSize
    ensures size <= |chars| && chars[..size] == CString(chars)
  {
    hide CString;
    size := 0;
    assert chars[..0] + CString(chars[0..]) == CString(chars) by {
      assert chars[0..] == chars;
      assert [] + CString(chars) == CString(chars);
    }
    CStringStep(chars, 0);
    while size < |chars| && chars[size] != 0
      invariant size <= |chars|
      invariant chars[..size] + CString(chars[size..]) == CString(chars)
    {
      CStringStep(chars, size);
      assert chars[..size + 1] == chars[..size] + [chars[size]];
      Appended(chars[..size], [chars[size]], CString(chars[size + 1..]));
      size := size + 1;
    }
    CStringStep(chars, size);
    assert chars[..size] + [] == chars[..size];
  }

  // ----- fields and messages -----

  lemma FitsSub(f: Field, v: Value)
    requires ValueFits(f, v) && f.ltype.Submessage?
    ensures v.MsgVal? && MessageFits(f.sub, v.slots) && |v.slots| == |f.sub.fields|
  {
  }

  method EncodeValue(s: OStream, f: Field, v: Value) returns (ok: bool)
    requires s.Ok() && ValueFits(f, v) && (f.ltype.Submessage? ==> WellFormed(f.sub))
    modifies s
    ensures Wrote(s, old(s.buf), old(s.bytesWritten), ValueBytes(f, v), ok)
    decreases f, 0
  {
    hide EncodeFixed32, EncodeFixed64, EncodeVarint, LengthPrefixed, CString, MessageFits, WellFormed, MessageBytes;
    match f.ltype {
      case Bool =>
        ok := EncodeVarintTo(s, if v.b then 1 else 0);
      case Varint =>
        if !IntegerSize(f.dataSize) {
          s.errmsg := "invalid data_size";
          return false;
        }
        ok := EncodeVarintTo(s, AsUnsigned(v.i));
      case UVarint =>
        if !IntegerSize(f.dataSize) {
          s.errmsg := "invalid data_size";
          return false;
        }
        ok := EncodeVarintTo(s, v.i);
      case SVarint =>
        if !IntegerSize(f.dataSize) {
          s.errmsg := "invalid data_size";
          return false;
        }
        ok := EncodeVarintTo(s, Zigzag(v.i));
      case Fixed32 =>
        ok := s.Write(EncodeFixed32(v.i));
      case Fixed64 =>
        ok := s.Write(EncodeFixed64(v.i));
      case BytesField =>
        if |v.bytes| + BYTES_OFFSET > f.dataSize {
          s.errmsg := "bytes size exceeded";
          return false;
        }
        ok := EncodeString(s, v.bytes);
      case StringField =>
        var size := StringLength(v.bytes, f.dataSize);
        ok := EncodeString(s, v.bytes[..size]);
      case FixedLengthBytes =>
        ok := EncodeString(s, v.bytes);
      case Submessage =>
        FitsSub(f, v);
        ok := EncodeSubmessage(s, f.sub, v.slots);
    }
  }

  /** The encoding of a submessage field, from that of the message. */
  function SubmessageBytes(d: Desc, slots: seq<Slot>): Encoding
    requires MessageFits(d, slots)
  {
    var m := MessageBytes(d, slots, |d.fields|);
    if m.None? then None else Some(LengthPrefixed(m.value))
  }

  /** Sizes the message on a counting stream, writes the size, then encodes it again on a
      stream that may take exactly that much.  The second pass never differs. */
  method EncodeSubmessage(s: OStream, d: Desc, slots: seq<Slot>) returns (ok: bool)
    requires s.Ok() && MessageFits(d, slots) && WellFormed(d) && |slots| == |d.fields|
    modifies s
    ensures Wrote(s, old(s.buf), old(s.bytesWritten), SubmessageBytes(d, slots), ok)
    decreases d, 6
  {
    hide EncodeVarint, MessageFits, WellFormed, MessageBytes;
    var sizing := new OStream.Sizing();
    ok := EncodeMessage(sizing, d, slots);
    if !ok {
      s.errmsg := sizing.errmsg;
      return false;
    }
    var size := sizing.bytesWritten;
    ok := EncodeVarintTo(s, size);
    if !ok {
      return false;
    }
    if s.sizing {
      s.Count(size);
      return true;
    }
    if s.bytesWritten + size > s.maxSize {
      s.errmsg := "stream full";
      return false;
    }
    var sub := new OStream.Writing(s.buf, size);
    var status := EncodeMessage(sub, d, slots);
    s.bytesWritten := s.bytesWritten + sub.bytesWritten;
    s.buf := sub.buf;
    s.errmsg := if sub.bytesWritten != size then SIZE_CHANGED else sub.errmsg;
    ok := status && sub.bytesWritten == size;
    Appended(old(s.buf), EncodeVarint(size), MessageBytes(d, slots, |d.fields|).value);
  }

  method EncodeTagged(s: OStream, f: Field, v: Value) returns (ok: bool)
    requires s.Ok() && ValueFits(f, v) && f.tag < MAX_TAG && (f.ltype.Submessage? ==> WellFormed(f.sub))
    modifies s
    ensures Wrote(s, old(s.buf), old(s.bytesWritten), TaggedBytes(f, v), ok)
    decreases f, 1
  {
    hide ValueBytes, WellFormed, ValueFits, TagBytes;
    ok := EncodeTag(s, f, WireType(f.ltype));
    if ok {
      ok := EncodeValue(s, f, v);
      if ok {
        Appended(old(s.buf), TagBytes(f, WireType(f.ltype)), ValueBytes(f, v).value);
      }
    }
  }

  lemma PackedStep(f: Field, items: seq<Value>)
    requires forall v :: v in items ==> ValueFits(f, v)
    ensures PackedBytes(f, items, 0) == Some([])
    ensures forall i: nat {:trigger PackedBytes(f, items, i)} :: 0 < i <= |items| ==>
      PackedBytes(f, items, i) == Append(PackedBytes(f, items, i - 1), ValueBytes(f, items[i - 1]))
  {
    hide ValueBytes, ValueFits;
  }

  /** Items one after another, without tags. */
  method EncodePacked(s: OStream, f: Field, items: seq<Value>) returns (ok: bool)
    requires s.Ok() && (forall v :: v in items ==> ValueFits(f, v)) && (f.ltype.Submessage? ==> WellFormed(f.sub))
    modifies s
    ensures Wrote(s, old(s.buf), old(s.bytesWritten), PackedBytes(f, items, |items|), ok)
    decreases f, 2
  {
    hide ValueBytes, WellFormed, ValueFits, PackedBytes;
    PackedStep(f, items);
    ok := true;
    var i := 0;
    assert old(s.buf) + [] == old(s.buf);
    while i < |items| && ok
      invariant i <= |items| && Wrote(s, old(s.buf), old(s.bytesWritten), PackedBytes(f, items, i), ok)
    {
      ghost var before := PackedBytes(f, items, i);
      ok := EncodeValue(s, f, items[i]);
      if ok {
        Appended(old(s.buf), before.value, ValueBytes(f, items[i]).value);
      }
      i := i + 1;
    }
    if !ok {
      PackedGrows(f, items, i);
    }
  }

  /** An array that cannot be encoded, or not within some size, cannot when longer. */
  lemma {:induction false} PackedGrows(f: Field, items: seq<Value>, i: nat)
    requires i <= |items| && forall v :: v in items ==> ValueFits(f, v)
    ensures
      var part, all := PackedBytes(f, items, i), PackedBytes(f, items, |items|);
      all.Some? ==> part.Some? && |part.value| <= |all.value|
    decreases |items| - i
  {
    hide ValueBytes, ValueFits;
    if i < |items| {
      PackedGrows(f, items, i + 1);
    }
  }

  method EncodeMessage(s: OStream, d: Desc, slots: seq<Slot>) returns (ok: bool)
    requires s.Ok() && MessageFits(d, slots) && WellFormed(d) && |slots| == |d.fields|
    modifies s
    ensures Wrote(s, old(s.buf), old(s.bytesWritten), MessageBytes(d, slots, |d.fields|), ok)
    decreases d, 5
  {
    hide SlotBytes, SlotFits, ValueFits, MessageFits, WellFormed, MessageBytes, WroteTo;
    var iter := new FieldIter(d);
    var more := iter.Begin();
    NoneWritten(s.sizing, s.maxSize, s.buf, s.bytesWritten, d, slots);
    ghost var n := 0;
    ok := true;
    while more
      invariant iter.Valid() && iter.desc == d && fresh(iter) && n <= |slots|
      invariant more ==> n < |slots| && iter.pos == n
      invariant !more ==> n == |slots|
      invariant ok && Wrote(s, old(s.buf), old(s.bytesWritten), MessageBytes(d, slots, n), true)
      decreases |slots| - n
    {
      ghost var buf1, written1 := s.buf, s.bytesWritten;
      FieldReady(d, slots, n);
      NextField(d, slots, n);
      ok := EncodeField(s, d.fields[iter.pos], slots[iter.pos]);
      WroteNext(s.sizing, s.maxSize, s.buf, s.bytesWritten, buf1, written1, old(s.buf), old(s.bytesWritten),
                MessageBytes(d, slots, n), SlotBytes(d.fields[n], slots[n]), ok);
      if !ok {
        MessageGrows(d, slots, n + 1);
        WroteNot(s.sizing, s.maxSize, s.buf, s.bytesWritten, old(s.buf), old(s.bytesWritten),
                 MessageBytes(d, slots, n + 1), MessageBytes(d, slots, |d.fields|));
        return false;
      }
      more := iter.Next();
      n := n + 1;
    }
  }

  lemma NoneWritten(sizing: bool, maxSize: nat, buf: Bytes, written: nat, d: Desc, slots: seq<Slot>)
    requires MessageFits(d, slots) && (sizing || written <= maxSize)
    ensures WroteTo(sizing, maxSize, buf, written, buf, written, MessageBytes(d, slots, 0), true)
  {
    assert buf + [] == buf;
  }

  lemma NextField(d: Desc, slots: seq<Slot>, n: nat)
    requires MessageFits(d, slots) && n < |slots|
    ensures |slots| == |d.fields| && SlotFits(d.fields[n], slots[n])
    ensures MessageBytes(d, slots, n + 1) == Append(MessageBytes(d, slots, n), SlotBytes(d.fields[n], slots[n]))
  {
    hide SlotBytes, SlotFits;
  }

  lemma FieldReady(d: Desc, slots: seq<Slot>, n: nat)
    requires MessageFits(d, slots) && WellFormed(d) && n < |slots|
    ensures |slots| == |d.fields| && SlotFits(d.fields[n], slots[n])
    ensures d.fields[n].tag < MAX_TAG && (d.fields[n].ltype.Submessage? ==> WellFormed(d.fields[n].sub))
  {
  }

  lemma {:induction false} MessageGrows(d: Desc, slots: seq<Slot>, n: nat)
    requires MessageFits(d, slots) && n <= |slots|
    ensures
      var part, all := MessageBytes(d, slots, n), MessageBytes(d, slots, |slots|);
      all.Some? ==> part.Some? && |part.value| <= |all.value|
    decreases |slots| - n
  {
    hide SlotBytes, SlotFits;
    if n < |slots| {
      MessageGrows(d, slots, n + 1);
    }
  }

  method EncodeField(s: OStream, f: Field, slot: Slot) returns (ok: bool)
    requires s.Ok() && SlotFits(f, slot) && f.tag < MAX_TAG && (f.ltype.Submessage? ==> WellFormed(f.sub))
    modifies s
    ensures Wrote(s, old(s.buf), old(s.bytesWritten), SlotBytes(f, slot), ok)
    decreases f, 4
  {
    hide TaggedBytes, ArrayBytes, WellFormed, ValueFits, IsDefaultValue;
    assert old(s.buf) + [] == old(s.buf);
    match f.htype {
      case Required =>
        ok := EncodeTagged(s, f, slot.value);
      case Optional =>
        if slot.opt.Some? {
          ok := EncodeTagged(s, f, slot.opt.value);
        } else {
          ok := true;
        }
      case Singular =>
        if IsDefaultValue(f, slot.value) {
          ok := true;
        } else {
          ok := EncodeTagged(s, f, slot.value);
        }
      case Oneof(_) =>
        if slot.opt.Some? {
          ok := EncodeTagged(s, f, slot.opt.value);
        } else {
          ok := true;
        }
      case Repeated =>
        ok := EncodeArray(s, f, slot.items);
    }
  }

  /** Fixed-width items have a known length. */
  lemma {:induction false} FixedLength(f: Field, items: seq<Value>, n: nat)
    requires n <= |items| && (forall v :: v in items ==> ValueFits(f, v)) && (f.ltype.Fixed32? || f.ltype.Fixed64?)
    ensures PackedBytes(f, items, n).Some? && |PackedBytes(f, items, n).value| == n * if f.ltype.Fixed32? then 4 else 8
  {
    if n > 0 {
      FixedLength(f, items, n - 1);
    }
  }

  method EncodeArray(s: OStream, f: Field, items: seq<Value>) returns (ok: bool)
    requires s.Ok() && f.tag < MAX_TAG && (f.ltype.Submessage? ==> WellFormed(f.sub))
    requires forall v :: v in items ==> ValueFits(f, v)
    modifies s
    ensures Wrote(s, old(s.buf), old(s.bytesWritten), ArrayBytes(f, items), ok)
    decreases f, 3
  {
    hide PackedBytes, UnpackedBytes, WellFormed, ValueFits, EncodeVarint, TagBytes;
    assert old(s.buf) + [] == old(s.buf);
    if |items| == 0 {
      return true;
    }
    if |items| > f.arraySize {
      s.errmsg := "array max size exceeded";
      return false;
    }
    if f.ltype.Packable() {
      ok := EncodePackedArray(s, f, items);
    } else {
      ok := EncodeUnpacked(s, f, items);
    }
  }

  function PackedArrayBytes(f: Field, items: seq<Value>): Encoding
    requires forall v :: v in items ==> ValueFits(f, v)
  {
    var packed := PackedBytes(f, items, |items|);
    if packed.None? then None else Some(TagBytes(f, WT_STRING) + LengthPrefixed(packed.value))
  }

  method EncodePackedArray(s: OStream, f: Field, items: seq<Value>) returns (ok: bool)
    requires s.Ok() && f.tag < MAX_TAG && f.ltype.Packable()
    requires forall v :: v in items ==> ValueFits(f, v)
    modifies s
    ensures Wrote(s, old(s.buf), old(s.bytesWritten), PackedArrayBytes(f, items), ok)
    decreases f, 3, 0
  {
    hide PackedBytes, ValueFits, EncodeVarint, TagBytes;
    ghost var packed := PackedBytes(f, items, |items|);
    ok := EncodeTag(s, f, WT_STRING);
    if !ok {
      return false;
    }
    var size;
    if f.ltype.Fixed32? {
      FixedLength(f, items, |items|);
      size := 4 * |items|;
    } else if f.ltype.Fixed64? {
      FixedLength(f, items, |items|);
      size := 8 * |items|;
    } else {
      var sizing := new OStream.Sizing();
      ok := EncodePacked(sizing, f, items);
      if !ok {
        return false;
      }
      size := sizing.bytesWritten;
    }
    ok := EncodeVarintTo(s, size);
    if !ok {
      return false;
    }
    ghost var front := TagBytes(f, WT_STRING) + EncodeVarint(size);
    assert packed.Some? && size == |packed.value|;
    assert TagBytes(f, WT_STRING) + LengthPrefixed(packed.value) == front + packed.value;
    Appended(old(s.buf), TagBytes(f, WT_STRING), EncodeVarint(size));
    if s.sizing {
      s.Count(size);
      return true;
    }
    ok := EncodePacked(s, f, items);
    Appended(old(s.buf), front, packed.value);
  }

  /** Items one after another, each with its tag. */
  method EncodeUnpacked(s: OStream, f: Field, items: seq<Value>) returns (ok: bool)
    requires s.Ok() && f.tag < MAX_TAG && (f.ltype.Submessage? ==> WellFormed(f.sub))
    requires forall v :: v in items ==> ValueFits(f, v)
    modifies s
    ensures Wrote(s, old(s.buf), old(s.bytesWritten), UnpackedBytes(f, items, |items|), ok)
    decreases f, 2
  {
    hide TaggedBytes, WellFormed, ValueFits, WroteTo, UnpackedBytes;
    NoneUnpacked(s.sizing, s.maxSize, s.buf, s.bytesWritten, f, items);
    ok := true;
    var i := 0;
    while i < |items| && ok
      invariant i <= |items| && Wrote(s, old(s.buf), old(s.bytesWritten), UnpackedBytes(f, items, i), ok)
    {
      ghost var buf1, written1 := s.buf, s.bytesWritten;
      ok := EncodeTagged(s, f, items[i]);
      UnpackedNext(f, items, i);
      WroteNext(s.sizing, s.maxSize, s.buf, s.bytesWritten, buf1, written1, old(s.buf), old(s.bytesWritten),
                UnpackedBytes(f, items, i), TaggedBytes(f, items[i]), ok);
      i := i + 1;
    }
    if !ok {
      UnpackedGrows(f, items, i);
      WroteNot(s.sizing, s.maxSize, s.buf, s.bytesWritten, old(s.buf), old(s.bytesWritten),
               UnpackedBytes(f, items, i), UnpackedBytes(f, items, |items|));
    }
  }

  lemma NoneUnpacked(sizing: bool, maxSize: nat, buf: Bytes, written: nat, f: Field, items: seq<Value>)
    requires (forall v :: v in items ==> ValueFits(f, v)) && (sizing || written <= maxSize)
    ensures WroteTo(sizing, maxSize, buf, written, buf, written, UnpackedBytes(f, items, 0), true)
  {
    hide ValueFits;
    assert buf + [] == buf;
  }

  lemma UnpackedNext(f: Field, items: seq<Value>, i: nat)
    requires i < |items| && forall v :: v in items ==> ValueFits(f, v)
    ensures UnpackedBytes(f, items, i + 1) == Append(UnpackedBytes(f, items, i), TaggedBytes(f, items[i]))
  {
    hide ValueFits, TaggedBytes;
  }

  lemma {:induction false} UnpackedGrows(f: Field, items: seq<Value>, i: nat)
    requires i <= |items| && forall v :: v in items ==> ValueFits(f, v)
    ensures
      var part, all := UnpackedBytes(f, items, i), UnpackedBytes(f, items, |items|);
      all.Some? ==> part.Some? && |part.value| <= |all.value|
    decreases |items| - i
  {
    hide TaggedBytes, ValueFits;
    if i < |items| {
      UnpackedGrows(f, items, i + 1);
    }
  }

  // ----- the entry points -----

  /** pb_get_encoded_size: the counting pass finds exactly the length of the encoding. */
  method GetEncodedSize(d: Desc, slots: seq<Slot>) returns (size: Option<nat>)
    requires MessageFits(d, slots) && WellFormed(d)
    ensures size == var e := Encoded(d, slots); if e.Some? then Some(|e.value|) else None
  {
    FitsLength(d, slots);
    var stream := new OStream.Sizing();
    var ok := EncodeMessage(stream, d, slots);
    size := if ok then Some(stream.bytesWritten) else None;
  }

  lemma FitsLength(d: Desc, slots: seq<Slot>)
    requires MessageFits(d, slots)
    ensures |slots| == |d.fields|
  {
  }

  /** pb_encode into a buffer: it succeeds exactly when the counted size fits, and then
      the buffer holds the encoding. */
  method EncodeToBuffer(d: Desc, slots: seq<Slot>, bufSize: nat) returns (ok: bool, bytes: Bytes)
    requires MessageFits(d, slots) && WellFormed(d)
    ensures ok <==> Encoded(d, slots).Some? && |Encoded(d, slots).value| <= bufSize
    ensures ok ==> bytes == Encoded(d, slots).value
  {
    FitsLength(d, slots);
    var stream := new OStream.Writing([], bufSize);
    ok := EncodeMessage(stream, d, slots);
    bytes := stream.buf;
    if ok {
      assert [] + Encoded(d, slots).value == Encoded(d, slots).value;
    }
  }
}

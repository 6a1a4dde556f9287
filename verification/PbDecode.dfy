/** The decoder: what any input decodes to, and the stream methods that read it into a
    message. */
module PbDecode {
  import opened Options
  import opened Coding
  import opened DivMod
  import opened PbVarint
  import opened PbCommon
  import opened PbEncode
  import opened Bits

  // ----- what an input decodes to -----

  /** None stands for a decoding error; otherwise the result and the input left. */
  type Decoding<T> = Option<(T, Bytes)>

  function Take(input: Bytes, n: nat): (r: Decoding<Bytes>)
    ensures r.Some? ==> |r.value.1| + n == |input| && |r.value.0| == n
  {
    if |input| < n then None else Some((input[..n], input[n..]))
  }

  /** A length and the bytes it covers. */
  function TakePrefixed(input: Bytes): (r: Decoding<Bytes>)
    ensures r.Some? ==> |r.value.1| + |r.value.0| < |input|
  {
    var size := DecodeUint32(input);
    if size.None? then None else Take(size.value.1, size.value.0)
  }

  function SkipVarint(input: Bytes): (r: Option<Bytes>)
    ensures r.Some? ==> |r.value| < |input|
  {
    if input == [] then None
    else if input[0] >= 128 then SkipVarint(input[1..])
    else Some(input[1..])
  }

  function SkipField(wireType: nat, input: Bytes): (r: Option<Bytes>)
    ensures r.Some? ==> |r.value| <= |input|
  {
    if wireType == WT_VARINT then SkipVarint(input)
    else if wireType == WT_64BIT then (if |input| < 8 then None else Some(input[8..]))
    else if wireType == WT_STRING then
      var r := TakePrefixed(input);
      if r.None? then None else Some(r.value.1)
    else if wireType == WT_32BIT then (if |input| < 4 then None else Some(input[4..]))
    else None
  }

  datatype Tag = TagError | TagEnd | TagFound(tag: nat, wireType: nat, rest: Bytes)

  /** A zero tag ends the message. */
  function DecodeTag(input: Bytes): (r: Tag)
    ensures r.TagFound? ==> |r.rest| < |input| && r.wireType < 8
  {
    if input == [] then TagEnd
    else
      var v := DecodeUint32(input);
      if v.None? then TagError
      else if v.value.0 == 0 then TagEnd
      else TagFound(v.value.0 / 8, v.value.0 % 8, v.value.1)
  }

  /** A cast to a signed integer of size bytes. */
  function CastSigned(size: nat, n: int): int {
    match size
    case 1 => var m := n % 0x100; if m >= 0x80 then m - 0x100 else m
    case 2 => var m := n % 0x1_0000; if m >= 0x8000 then m - 0x1_0000 else m
    case 4 => var m := n % TWO_32; if m >= TWO_31 then m - TWO_32 else m
    case _ => var m := n % TWO_64; if m >= TWO_63 then m - TWO_64 else m
  }

  function CastUnsigned(size: nat, n: int): int {
    match size
    case 1 => n % 0x100
    case 2 => n % 0x1_0000
    case 4 => n % TWO_32
    case _ => n % TWO_64
  }

  /** What was in the memory a value is decoded into. */
  function OldSlots(f: Field, old': Value): (slots: seq<Slot>)
    ensures |slots| == |f.sub.fields|
  {
    if old'.MsgVal? && |old'.slots| == |f.sub.fields| then old'.slots else InitMessage(f.sub)
  }

  function OldValue(f: Field, slot: Slot): Value {
    match slot
    case Single(v) => v
    case Maybe(Some(v)) => v
    case _ => InitValue(f)
  }

  function OldItems(slot: Slot): seq<Value> {
    if slot.Many? then slot.items else []
  }

  /** One value: number, data or submessage.  A submessage is merged into what is there,
      except an array item, which starts from the defaults. */
  function DecodeValue(f: Field, input: Bytes, old': Value): (r: Decoding<Value>)
    ensures r.Some? ==> |r.value.1| <= |input|
    decreases f, 0
  {
    match f.ltype
    case Bool =>
      var v := DecodeUint32(input);
      if v.None? then None else Some((BoolVal(v.value.0 != 0), v.value.1))
    case Varint =>
      var v := DecodeUint64(input);
      if v.None? || !IntegerSize(f.dataSize) then None
      else
        var svalue := if f.dataSize == 8 then AsSigned(v.value.0) else CastSigned(4, v.value.0);
        if CastSigned(f.dataSize, svalue) != svalue then None else Some((IntVal(svalue), v.value.1))
    case UVarint =>
      var v := DecodeUint64(input);
      if v.None? || !IntegerSize(f.dataSize) || CastUnsigned(f.dataSize, v.value.0) != v.value.0 then None
      else Some((IntVal(v.value.0), v.value.1))
    case SVarint =>
      var v := DecodeUint64(input);
      if v.None? || !IntegerSize(f.dataSize) then None
      else
        var svalue := Unzigzag(v.value.0);
        if CastSigned(f.dataSize, svalue) != svalue then None else Some((IntVal(svalue), v.value.1))
    case Fixed32 =>
      var v := Take(input, 4);
      if v.None? then None else Some((IntVal(DecodeFixed32(v.value.0)), v.value.1))
    case Fixed64 =>
      var v := Take(input, 8);
      if v.None? then None else Some((IntVal(DecodeFixed64(v.value.0)), v.value.1))
    case BytesField =>
      var size := DecodeUint32(input);
      if size.None? || size.value.0 + BYTES_OFFSET > f.dataSize then None
      else
        var v := Take(size.value.1, size.value.0);
        if v.None? then None else Some((DataVal(v.value.0), v.value.1))
    case StringField =>
      var size := DecodeUint32(input);
      if size.None? || size.value.0 + 1 > f.dataSize then None
      else
        var v := Take(size.value.1, size.value.0);
        if v.None? then None else Some((DataVal(v.value.0 + [0]), v.value.1))
    case FixedLengthBytes =>
      var size := DecodeUint32(input);
      if size.None? then None
      else if size.value.0 == 0 then Some((DataVal(Zeros(f.dataSize)), size.value.1))
      else if size.value.0 != f.dataSize then None
      else
        var v := Take(size.value.1, f.dataSize);
        if v.None? then None else Some((DataVal(v.value.0), v.value.1))
    case Submessage =>
      var part := TakePrefixed(input);
      if part.None? then None
      else
        var m := DecodeMessage(f.sub, part.value.0, if f.htype.Repeated? then InitMessage(f.sub) else OldSlots(f, old'));
        if m.None? then None else Some((MsgVal(m.value), part.value.1))
  }

  /** The items of a packed array, up to the array's capacity; None when bytes are left. */
  function DecodePacked(f: Field, input: Bytes, items: seq<Value>): Option<seq<Value>>
    decreases f, 1, |input|, f.arraySize - |items|
  {
    if input == [] then Some(items)
    else if |items| >= f.arraySize then None
    else
      var v := DecodeValue(f, input, InitValue(f));
      if v.None? then None else DecodePacked(f, v.value.1, items + [v.value.0])
  }

  /** One occurrence of a field. */
  function DecodeField(f: Field, wireType: nat, input: Bytes, slot: Slot): (r: Decoding<Slot>)
    ensures r.Some? ==> |r.value.1| <= |input|
    decreases f, 2
  {
    match f.htype
    case Repeated =>
      var items := OldItems(slot);
      if wireType == WT_STRING && f.ltype.Packable() then
        var part := TakePrefixed(input);
        if part.None? then None
        else
          var all := DecodePacked(f, part.value.0, items);
          if all.None? then None else Some((Many(all.value), part.value.1))
      else if |items| >= f.arraySize then None
      else
        var v := DecodeValue(f, input, InitValue(f));
        if v.None? then None else Some((Many(items + [v.value.0]), v.value.1))
    case Optional =>
      var v := DecodeValue(f, input, OldValue(f, slot));
      if v.None? then None else Some((Maybe(Some(v.value.0)), v.value.1))
    case Oneof(_) =>
      var v := DecodeValue(f, input, InitValue(f));
      if v.None? then None else Some((Maybe(Some(v.value.0)), v.value.1))
    case _ =>
      var v := DecodeValue(f, input, OldValue(f, slot));
      if v.None? then None else Some((Single(v.value.0), v.value.1))
  }

  /** Setting a union field unsets the others of its union. */
  function StoreSlot(d: Desc, slots: seq<Slot>, i: nat, s: Slot): (r: seq<Slot>)
    requires |slots| == |d.fields| && i < |slots|
    ensures |r| == |slots|
  {
    seq(|slots|, j requires 0 <= j < |slots| =>
      if j == i then s else if SameGroup(d.fields[i], d.fields[j]) then Maybe(None) else slots[j])
  }

  const MAX_REQUIRED_FIELDS := 64

  /** The required fields are numbered; only the first 64 are kept track of. */
  function MarkSeen(d: Desc, i: nat, seen: set<nat>): set<nat>
    requires i < |d.fields|
  {
    if d.fields[i].htype.Required? && CountRequired(d.fields, i) < MAX_REQUIRED_FIELDS then seen + {CountRequired(d.fields, i)} else seen
  }

  predicate AllSeen(d: Desc, seen: set<nat>) {
    forall k: nat :: k < CountRequired(d.fields, |d.fields|) && k < MAX_REQUIRED_FIELDS ==> k in seen
  }

  /** A message in the making: its slots, the required fields met, the iterator. */
  datatype Progress = Progress(slots: seq<Slot>, seen: set<nat>, pos: nat)

  predicate ProgressOk(d: Desc, p: Progress) {
    |p.slots| == |d.fields| && (d.fields == [] || p.pos < |d.fields|)
  }

  function FindField(fields: seq<Field>, pos: nat, tag: nat): (r: Option<nat>)
    requires fields == [] || pos < |fields|
    ensures r.Some? ==> Finds(fields, pos, tag, r.value)
    ensures r.None? ==> forall i: nat :: i < |fields| ==> fields[i].tag != tag
  {
    FindFrom(fields, pos, tag, 0)
  }

  function FindFrom(fields: seq<Field>, pos: nat, tag: nat, steps: nat): (r: Option<nat>)
    requires fields == [] || pos < |fields|
    requires steps <= |fields|
    requires forall j: nat :: j < |fields| && Steps(|fields|, pos, j) < steps ==> fields[j].tag != tag
    ensures r.Some? ==> Finds(fields, pos, tag, r.value)
    ensures r.None? ==> forall i: nat :: i < |fields| ==> fields[i].tag != tag
    decreases |fields| - steps
  {
    if steps == |fields| then
      assert forall j: nat :: j < |fields| ==> Steps(|fields|, pos, j) < |fields|;
      None
    else
      var i := if pos + steps < |fields| then pos + steps else pos + steps - |fields|;
      if fields[i].tag == tag then Some(i) else FindFrom(fields, pos, tag, steps + 1)
  }

  /** The fields of the input one after another, until it ends or a zero tag. */
  function DecodeFields(d: Desc, input: Bytes, p: Progress): (r: Option<Progress>)
    requires ProgressOk(d, p)
    ensures r.Some? ==> ProgressOk(d, r.value)
    decreases d, 3, |input|
  {
    match DecodeTag(input)
    case TagError => None
    case TagEnd => Some(p)
    case TagFound(tag, wireType, rest) =>
      match FindField(d.fields, p.pos, tag)
      case None =>
        var after := SkipField(wireType, rest);
        if after.None? then None else DecodeFields(d, after.value, p)
      case Some(i) =>
        var v := DecodeField(d.fields[i], wireType, rest, p.slots[i]);
        if v.None? then None
        else DecodeFields(d, v.value.1, Progress(StoreSlot(d, p.slots, i, v.value.0), MarkSeen(d, i, p.seen), i))
  }

  /** pb_decode_noinit: the message that comes of reading the input into these slots. */
  function DecodeMessage(d: Desc, input: Bytes, slots: seq<Slot>): (r: Option<seq<Slot>>)
    requires |slots| == |d.fields|
    ensures r.Some? ==> |r.value| == |d.fields|
    decreases d, 4
  {
    var p := DecodeFields(d, input, Progress(slots, {}, 0));
    if p.None? || !AllSeen(d, p.value.seen) then None else Some(p.value.slots)
  }

  /** pb_decode: into a message set to its defaults. */
  function Decoded(d: Desc, input: Bytes): Option<seq<Slot>> {
    DecodeMessage(d, input, InitMessage(d))
  }

  // ----- streams -----

  class IStream {
    const data: Bytes
    var pos: nat
    var bytesLeft: nat
    var errmsg: string

    ghost predicate Valid()
      reads this
    {
      pos + bytesLeft <= |data|
    }

    /** What is left to read. */
    ghost function Rest(): Bytes
      requires Valid()
      reads this
    {
      data[pos..pos + bytesLeft]
    }

    constructor (data: Bytes, pos: nat, bytesLeft: nat)
      requires pos + bytesLeft <= |data|
      ensures Valid() && this.data == data && this.pos == pos && this.bytesLeft == bytesLeft
    {
      this.data, this.pos, this.bytesLeft, errmsg := data, pos, bytesLeft, "";
    }

    /** pb_read. */
    method Read(count: nat) returns (ok: bool, bytes: Bytes)
      requires Valid()
      modifies this
      ensures Valid() && (pos + bytesLeft == old(pos + bytesLeft))
      ensures ok <==> Take(old(Rest()), count).Some?
      ensures ok ==> (bytes, Rest()) == Take(old(Rest()), count).value
    {
      if bytesLeft < count {
        errmsg := "end-of-stream";
        return false, [];
      }
      bytes := data[pos..pos + count];
      assert bytes == old(Rest())[..count] && data[pos + count..pos + bytesLeft] == old(Rest())[count..];
      pos := pos + count;
      bytesLeft := bytesLeft - count;
      ok := true;
    }

    method ReadByte() returns (ok: bool, b: byte)
      requires Valid()
      modifies this
      ensures Valid() && (pos + bytesLeft == old(pos + bytesLeft))
      ensures ok <==> old(Rest()) != []
      ensures ok ==> b == old(Rest())[0] && Rest() == old(Rest())[1..]
    {
      if bytesLeft == 0 {
        errmsg := "end-of-stream";
        return false, 0;
      }
      b := data[pos];
      pos := pos + 1;
      bytesLeft := bytesLeft - 1;
      ok := true;
    }
  }

  // ----- numbers -----

  /** pb_decode_varint32: stops with end-of-file set when not even one byte is left. */
  method DecodeVarint32(s: IStream) returns (ok: bool, value: uint32, eof: bool)
    requires s.Valid()
    modifies s
    ensures s.Valid() && s.pos + s.bytesLeft == old(s.pos + s.bytesLeft)
    ensures ok <==> DecodeUint32(old(s.Rest())).Some?
    ensures ok ==> (value, s.Rest()) == DecodeUint32(old(s.Rest())).value
    ensures eof <==> old(s.Rest()) == []
  {
    hide Decode32From;
    eof := s.bytesLeft == 0;
    var b;
    ok, b := s.ReadByte();
    if !ok {
      return false, 0, eof;
    }
    if b < 128 {
      return true, b, eof;
    }
    SmallPowers();
    var result: uint32 := b % 128;
    var bitpos := 7;
    ghost var all := Decode32From(result, 7, s.Rest());
    while b >= 128
      invariant s.Valid() && s.pos + s.bytesLeft == old(s.pos + s.bytesLeft)
      invariant bitpos > 0 && bitpos % 7 == 0 && (bitpos < 32 ==> result < Power128(bitpos / 7))
      invariant b >= 128 ==> Decode32From(result, bitpos, s.Rest()) == all
      invariant b < 128 && !(bitpos == 35 && b % 128 >= 16) ==> all == Some((result, s.Rest()))
      invariant b < 128 && bitpos == 35 && b % 128 >= 16 ==> all == None
      decreases if b >= 128 then s.bytesLeft + 1 else 0
    {
      ghost var before := s.Rest();
      ok, b := s.ReadByte();
      Decode32Unfold(result, bitpos, before);
      if !ok {
        return false, 0, eof;
      }
      if bitpos >= 32 {
        if b % 128 != 0 && (result < TWO_31 || b != SignExtension(bitpos)) {
          s.errmsg := "varint overflow";
          return false, 0, eof;
        }
      } else {
        OrBound(result, bitpos, b % 128);
        result := Or32(result, bitpos, b % 128);
      }
      bitpos := bitpos + 7;
    }
    if bitpos == 35 && b % 128 >= 16 {
      s.errmsg := "varint overflow";
      return false, 0, eof;
    }
    return true, result, eof;
  }

  lemma Decode32Unfold(result: uint32, bitpos: nat, input: Bytes)
    requires bitpos > 0 && bitpos % 7 == 0 && (bitpos < 32 ==> result < Power128(bitpos / 7))
    ensures input == [] ==> Decode32From(result, bitpos, input) == None
    ensures input != [] ==>
      var b, low := input[0], input[0] % 128;
      var result' := if bitpos >= 32 then result else Or32(result, bitpos, low);
      && (b >= 128 && bitpos + 7 < 32 ==> result' < Power128((bitpos + 7) / 7))
      && Decode32From(result, bitpos, input)
         == if bitpos >= 32 && low != 0 && (result < TWO_31 || b != SignExtension(bitpos)) then None
            else if b >= 128 then Decode32From(result', bitpos + 7, input[1..])
            else if bitpos == 28 && low >= 16 then None
            else Some((result', input[1..]))
  {
    if input != [] {
      OrBound(result, bitpos, input[0] % 128);
    }
  }

  lemma {:induction false} Varint64Unfold(input: Bytes, k: nat, result: nat)
    requires k <= 10 && result < Power128(k)
    ensures
      var rest := GetVarint64Rest(input, k, result);
      if k == 10 || input == [] then rest == None
      else
        var result' := result + input[0] % 128 * Power128(k);
        && result' < Power128(k + 1)
        && rest == if input[0] >= 128 then GetVarint64Rest(input[1..], k + 1, result') else Some((result' % TWO_64, input[1..]))
  {
    if k < 10 && input != [] {
      var low := input[0] % 128;
      Distribute(128, low + 1, Power128(k));
      MultipleAtLeast(128 - low, Power128(k));
      Distribute(128, low, Power128(k));
      assert Power128(k + 1) == 128 * Power128(k);
      var rest := DecodeVarint(input[1..], 9 - k);
      if input[0] >= 128 && rest.Some? {
        MoreBytes(input[0] - 128, rest.value.value, Power128(k));
      }
    }
  }

  lemma MoreBytes(low: nat, more: nat, p: nat)
    ensures (low + 128 * more) * p == low * p + more * (128 * p)
  {
  }

  /** What ten-byte decoding gives when k bytes that make up `result` have been read. */
  ghost function GetVarint64Rest(input: Bytes, k: nat, result: nat): Option<(uint64, Bytes)>
    requires k <= 10
  {
    var v := DecodeVarint(input, 10 - k);
    if v.None? then None else Some(((result + v.value.value * Power128(k)) % TWO_64, input[v.value.size..]))
  }

  /** pb_decode_varint. */
  method DecodeVarintFrom(s: IStream) returns (ok: bool, value: uint64)
    requires s.Valid()
    modifies s
    ensures s.Valid() && s.pos + s.bytesLeft == old(s.pos + s.bytesLeft)
    ensures ok <==> DecodeUint64(old(s.Rest())).Some?
    ensures ok ==> (value, s.Rest()) == DecodeUint64(old(s.Rest())).value
  {
    hide GetVarint64Rest, Power128;
    ghost var all := GetVarint64Rest(s.Rest(), 0, 0);
    StartsAsUint64(s.Rest());
    var k := 0;
    var result: nat := 0;
    var more := true;
    while more
      invariant s.Valid() && s.pos + s.bytesLeft == old(s.pos + s.bytesLeft)
      invariant k <= 10 && result < Power128(k)
      invariant more ==> GetVarint64Rest(s.Rest(), k, result) == all
      invariant !more ==> all == Some((result % TWO_64, s.Rest()))
      decreases more, 10 - k
    {
      Varint64Unfold(s.Rest(), k, result);
      if k == 10 {
        s.errmsg := "varint overflow";
        return false, 0;
      }
      var b;
      ok, b := s.ReadByte();
      if !ok {
        return false, 0;
      }
      result := result + b % 128 * Power128(k);
      k := k + 1;
      more := b >= 128;
    }
    return true, result % TWO_64;
  }

  lemma StartsAsUint64(input: Bytes)
    ensures GetVarint64Rest(input, 0, 0) == DecodeUint64(input) && Power128(0) == 1
  {
  }

  // ----- skipping, tags, substreams -----

  /** The stream is not past where it would have ended, and ends there unless an error
      was met. */
  twostate predicate SameEnd(s: IStream, ok: bool)
    reads s
  {
    && s.Valid() && s.pos + s.bytesLeft <= old(s.pos + s.bytesLeft)
    && (ok ==> s.pos + s.bytesLeft == old(s.pos + s.bytesLeft))
  }

  method SkipVarintFrom(s: IStream) returns (ok: bool)
    requires s.Valid()
    modifies s
    ensures SameEnd(s, ok) && ok == SkipVarint(old(s.Rest())).Some?
    ensures ok ==> s.Rest() == SkipVarint(old(s.Rest())).value
  {
    ghost var all := SkipVarint(s.Rest());
    var more := true;
    ok := true;
    while more
      invariant s.Valid() && s.pos + s.bytesLeft == old(s.pos + s.bytesLeft)
      invariant more ==> SkipVarint(s.Rest()) == all
      invariant !more ==> all == Some(s.Rest())
      decreases more, s.bytesLeft
    {
      var b;
      ok, b := s.ReadByte();
      if !ok {
        return false;
      }
      more := b >= 128;
    }
  }

  method SkipFieldFrom(s: IStream, wireType: nat) returns (ok: bool)
    requires s.Valid()
    modifies s
    ensures SameEnd(s, ok) && ok == SkipField(wireType, old(s.Rest())).Some?
    ensures ok ==> s.Rest() == SkipField(wireType, old(s.Rest())).value
  {
    hide SkipVarint, DecodeUint32;
    var skipped: Bytes;
    if wireType == WT_VARINT {
      ok := SkipVarintFrom(s);
    } else if wireType == WT_64BIT {
      ok, skipped := s.Read(8);
    } else if wireType == WT_STRING {
      var length, eof;
      ok, length, eof := DecodeVarint32(s);
      if !ok {
        return false;
      }
      ok, skipped := s.Read(length);
    } else if wireType == WT_32BIT {
      ok, skipped := s.Read(4);
    } else {
      s.errmsg := "invalid wire_type";
      ok := false;
    }
  }

  method DecodeTagFrom(s: IStream) returns (r: Tag)
    requires s.Valid()
    modifies s
    ensures SameEnd(s, true)
    ensures r == DecodeTag(old(s.Rest()))
    ensures r.TagFound? ==> s.Rest() == r.rest
  {
    hide DecodeUint32;
    ghost var input := s.Rest();
    var ok, value, eof := DecodeVarint32(s);
    if !ok {
      r := if eof then TagEnd else TagError;
    } else if value == 0 {
      r := TagEnd;
    } else {
      r := TagFound(value / 8, value % 8, s.data[s.pos..s.pos + s.bytesLeft]);
    }
  }

  /** Splits off a stream of the announced length; the parent keeps what comes after. */
  method MakeSubstream(s: IStream) returns (ok: bool, sub: IStream)
    requires s.Valid()
    modifies s
    ensures s.Valid() && s.pos + s.bytesLeft <= old(s.pos + s.bytesLeft) && fresh(sub) && sub.data == s.data
    ensures ok <==> TakePrefixed(old(s.Rest())).Some?
    ensures ok ==>
      && sub.Valid() && sub.pos == s.pos && sub.pos + sub.bytesLeft + s.bytesLeft == old(s.pos + s.bytesLeft)
      && (sub.Rest(), s.data[sub.pos + sub.bytesLeft..old(s.pos + s.bytesLeft)]) == TakePrefixed(old(s.Rest())).value
  {
    hide DecodeUint32;
    var size, eof;
    ok, size, eof := DecodeVarint32(s);
    sub := new IStream(s.data, 0, 0);
    if !ok {
      return;
    }
    if s.bytesLeft < size {
      s.errmsg := "parent stream too short";
      ok := false;
      return;
    }
    ghost var rest := s.Rest();
    assert rest[..size] == s.data[s.pos..s.pos + size] && rest[size..] == s.data[s.pos + size..s.pos + s.bytesLeft];
    sub := new IStream(s.data, s.pos, size);
    s.bytesLeft := s.bytesLeft - size;
  }

  /** Skips what is left of the substream and goes on behind it. */
  method CloseSubstream(s: IStream, sub: IStream)
    requires sub.Valid() && sub.data == s.data && s != sub && sub.pos + sub.bytesLeft + s.bytesLeft <= |s.data|
    modifies s, sub
    ensures s.Valid() && s.pos == old(sub.pos + sub.bytesLeft) && s.bytesLeft == old(s.bytesLeft)
  {
    if sub.bytesLeft != 0 {
      var _, _ := sub.Read(sub.bytesLeft);
    }
    s.pos := sub.pos;
    s.errmsg := sub.errmsg;
  }

  // ----- fields and messages -----

  /** Reads a length and that many bytes. */
  method ReadPrefixed(s: IStream, limit: nat) returns (ok: bool, bytes: Bytes)
    requires s.Valid()
    modifies s
    ensures SameEnd(s, ok)
    ensures
      var size := DecodeUint32(old(s.Rest()));
      && (ok <==> size.Some? && size.value.0 <= limit && Take(size.value.1, size.value.0).Some?)
      && (ok ==> (bytes, s.Rest()) == Take(size.value.1, size.value.0).value)
  {
    hide DecodeUint32;
    bytes := [];
    var size, eof;
    ok, size, eof := DecodeVarint32(s);
    if !ok {
      return;
    }
    if size > limit {
      s.errmsg := "overflow";
      ok := false;
      return;
    }
    ok, bytes := s.Read(size);
  }

  method DecodeVarintField(s: IStream, f: Field, ghost old': Value) returns (ok: bool, v: Value)
    requires s.Valid() && f.ltype.Varint?
    modifies s
    ensures SameEnd(s, ok)
    ensures ok <==> DecodeValue(f, old(s.Rest()), old').Some?
    ensures ok ==> (v, s.Rest()) == DecodeValue(f, old(s.Rest()), old').value
  {
    hide DecodeUint32, DecodeUint64, DecodeFixed32, DecodeFixed64, CastSigned, CastUnsigned, Unzigzag, DecodeMessage,
      InitMessage;
    v := IntVal(0);
    var n;
    ok, n := DecodeVarintFrom(s);
    if ok {
      var svalue := if f.dataSize == 8 then AsSigned(n) else CastSigned(4, n);
      if !IntegerSize(f.dataSize) {
        s.errmsg := "invalid data_size";
        ok := false;
      } else {
        var clamped := CastSigned(f.dataSize, svalue);
        if clamped != svalue {
          s.errmsg := "integer too large";
          ok := false;
        }
        v := IntVal(clamped);
      }
    }
  }

  method DecodeUVarintField(s: IStream, f: Field, ghost old': Value) returns (ok: bool, v: Value)
    requires s.Valid() && f.ltype.UVarint?
    modifies s
    ensures SameEnd(s, ok)
    ensures ok <==> DecodeValue(f, old(s.Rest()), old').Some?
    ensures ok ==> (v, s.Rest()) == DecodeValue(f, old(s.Rest()), old').value
  {
    hide DecodeUint32, DecodeUint64, DecodeFixed32, DecodeFixed64, CastSigned, CastUnsigned, Unzigzag, DecodeMessage,
      InitMessage;
    v := IntVal(0);
    var n;
    ok, n := DecodeVarintFrom(s);
    if ok {
      if !IntegerSize(f.dataSize) {
        s.errmsg := "invalid data_size";
        ok := false;
      } else {
        var clamped := CastUnsigned(f.dataSize, n);
        if clamped != n {
          s.errmsg := "integer too large";
          ok := false;
        }
        v := IntVal(clamped);
      }
    }
  }

  method DecodeSVarintField(s: IStream, f: Field, ghost old': Value) returns (ok: bool, v: Value)
    requires s.Valid() && f.ltype.SVarint?
    modifies s
    ensures SameEnd(s, ok)
    ensures ok <==> DecodeValue(f, old(s.Rest()), old').Some?
    ensures ok ==> (v, s.Rest()) == DecodeValue(f, old(s.Rest()), old').value
  {
    hide DecodeUint32, DecodeUint64, DecodeFixed32, DecodeFixed64, CastSigned, CastUnsigned, Unzigzag, DecodeMessage,
      InitMessage;
    v := IntVal(0);
    var n;
    ok, n := DecodeVarintFrom(s);
    if ok {
      var svalue := Unzigzag(n);
      if !IntegerSize(f.dataSize) {
        s.errmsg := "invalid data_size";
        ok := false;
      } else {
        var clamped := CastSigned(f.dataSize, svalue);
        if clamped != svalue {
          s.errmsg := "integer too large";
          ok := false;
        }
        v := IntVal(clamped);
      }
    }
  }

  method DecodeBytesField(s: IStream, f: Field, ghost old': Value) returns (ok: bool, v: Value)
    requires s.Valid() && f.ltype.BytesField?
    modifies s
    ensures SameEnd(s, ok)
    ensures ok <==> DecodeValue(f, old(s.Rest()), old').Some?
    ensures ok ==> (v, s.Rest()) == DecodeValue(f, old(s.Rest()), old').value
  {
    hide DecodeUint32, DecodeUint64, DecodeFixed32, DecodeFixed64, CastSigned, CastUnsigned, Unzigzag, DecodeMessage,
      InitMessage;
    v := IntVal(0);
    if f.dataSize < BYTES_OFFSET {
      s.errmsg := "bytes overflow";
      return false, v;
    }
    var bytes;
    ok, bytes := ReadPrefixed(s, f.dataSize - BYTES_OFFSET);
    v := DataVal(bytes);
  }

  method DecodeStringField(s: IStream, f: Field, ghost old': Value) returns (ok: bool, v: Value)
    requires s.Valid() && f.ltype.StringField?
    modifies s
    ensures SameEnd(s, ok)
    ensures ok <==> DecodeValue(f, old(s.Rest()), old').Some?
    ensures ok ==> (v, s.Rest()) == DecodeValue(f, old(s.Rest()), old').value
  {
    hide DecodeUint32, DecodeUint64, DecodeFixed32, DecodeFixed64, CastSigned, CastUnsigned, Unzigzag, DecodeMessage,
      InitMessage;
    v := IntVal(0);
    if f.dataSize == 0 {
      s.errmsg := "string overflow";
      return false, v;
    }
    var bytes;
    ok, bytes := ReadPrefixed(s, f.dataSize - 1);
    v := DataVal(bytes + [0]);
  }

  method DecodeFixedLengthField(s: IStream, f: Field, ghost old': Value) returns (ok: bool, v: Value)
    requires s.Valid() && f.ltype.FixedLengthBytes?
    modifies s
    ensures SameEnd(s, ok)
    ensures ok <==> DecodeValue(f, old(s.Rest()), old').Some?
    ensures ok ==> (v, s.Rest()) == DecodeValue(f, old(s.Rest()), old').value
  {
    hide DecodeUint32, DecodeUint64, DecodeFixed32, DecodeFixed64, CastSigned, CastUnsigned, Unzigzag, DecodeMessage,
      InitMessage;
    v := IntVal(0);
    var size, eof;
    ok, size, eof := DecodeVarint32(s);
    if ok {
      if size == 0 {
        v := DataVal(Zeros(f.dataSize));
      } else if size != f.dataSize {
        s.errmsg := "incorrect fixed length bytes size";
        ok := false;
      } else {
        var bytes;
        ok, bytes := s.Read(f.dataSize);
        v := DataVal(bytes);
      }
    }
  }

  method DecodeValueFrom(s: IStream, f: Field, old': Value) returns (ok: bool, v: Value)
    requires s.Valid()
    modifies s
    ensures SameEnd(s, ok)
    ensures ok <==> DecodeValue(f, old(s.Rest()), old').Some?
    ensures ok ==> (v, s.Rest()) == DecodeValue(f, old(s.Rest()), old').value
    decreases f, 0
  {
    hide DecodeUint32, DecodeUint64, DecodeFixed32, DecodeFixed64, CastSigned, CastUnsigned, Unzigzag, DecodeMessage,
      InitMessage;
    v := IntVal(0);
    match f.ltype {
      case Bool =>
        var n, eof;
        ok, n, eof := DecodeVarint32(s);
        v := BoolVal(n != 0);
      case Varint =>
        ok, v := DecodeVarintField(s, f, old');
      case UVarint =>
        ok, v := DecodeUVarintField(s, f, old');
      case SVarint =>
        ok, v := DecodeSVarintField(s, f, old');
      case Fixed32 =>
        var bytes;
        ok, bytes := s.Read(4);
        if ok {
          v := IntVal(DecodeFixed32(bytes));
        }
      case Fixed64 =>
        var bytes;
        ok, bytes := s.Read(8);
        if ok {
          v := IntVal(DecodeFixed64(bytes));
        }
      case BytesField =>
        ok, v := DecodeBytesField(s, f, old');
      case StringField =>
        ok, v := DecodeStringField(s, f, old');
      case FixedLengthBytes =>
        ok, v := DecodeFixedLengthField(s, f, old');
      case Submessage =>
        ok, v := DecodeSubmessage(s, f, old');
    }
  }

  /** What a submessage field decodes to. */
  function SubmessageOf(f: Field, input: Bytes, old': Value): Decoding<Value> {
    var part := TakePrefixed(input);
    if part.None? then None
    else
      var m := DecodeMessage(f.sub, part.value.0, if f.htype.Repeated? then InitMessage(f.sub) else OldSlots(f, old'));
      if m.None? then None else Some((MsgVal(m.value), part.value.1))
  }

  method DecodeSubmessage(s: IStream, f: Field, old': Value) returns (ok: bool, v: Value)
    requires s.Valid()
    modifies s
    ensures SameEnd(s, ok)
    ensures ok <==> SubmessageOf(f, old(s.Rest()), old').Some?
    ensures ok ==> (v, s.Rest()) == SubmessageOf(f, old(s.Rest()), old').value
    decreases f.sub, 5
  {
    hide TakePrefixed, DecodeMessage, InitMessage, OldSlots;
    v := IntVal(0);
    var sub;
    ok, sub := MakeSubstream(s);
    if !ok {
      return;
    }
    var slots := if f.htype.Repeated? then InitMessage(f.sub) else OldSlots(f, old');
    var dest := new Slot[|f.sub.fields|](i requires 0 <= i < |slots| => slots[i]);
    assert dest[..] == slots;
    ok := DecodeNoinit(sub, f.sub, dest);
    CloseSubstream(s, sub);
    v := MsgVal(dest[..]);
  }

  method DecodePackedFrom(s: IStream, f: Field, items: seq<Value>) returns (ok: bool, all: seq<Value>)
    requires s.Valid()
    modifies s
    ensures s.Valid() && s.pos + s.bytesLeft <= old(s.pos + s.bytesLeft)
    ensures ok <==> DecodePacked(f, old(s.Rest()), items).Some?
    ensures ok ==> s.bytesLeft == 0 && s.pos == old(s.pos + s.bytesLeft) && all == DecodePacked(f, old(s.Rest()), items).value
    decreases f, 1
  {
    hide DecodeValue, InitValue;
    all := items;
    ok := true;
    ghost var input := s.Rest();
    while s.bytesLeft > 0 && |all| < f.arraySize && ok
      invariant s.Valid() && s.pos + s.bytesLeft <= old(s.pos + s.bytesLeft)
      invariant ok ==> s.pos + s.bytesLeft == old(s.pos + s.bytesLeft)
      invariant ok ==> DecodePacked(f, s.Rest(), all) == DecodePacked(f, input, items)
      invariant !ok ==> DecodePacked(f, input, items) == None
      decreases ok, f.arraySize - |all|
    {
      var v;
      ok, v := DecodeValueFrom(s, f, InitValue(f));
      if ok {
        all := all + [v];
      }
    }
    if ok && s.bytesLeft != 0 {
      s.errmsg := "array overflow";
      ok := false;
    }
  }

  method DecodeFieldFrom(s: IStream, f: Field, wireType: nat, slot: Slot) returns (ok: bool, slot': Slot)
    requires s.Valid()
    modifies s
    ensures SameEnd(s, ok)
    ensures ok <==> DecodeField(f, wireType, old(s.Rest()), slot).Some?
    ensures ok ==> (slot', s.Rest()) == DecodeField(f, wireType, old(s.Rest()), slot).value
    decreases f, 2
  {
    hide DecodeValue, InitValue, DecodePacked, TakePrefixed;
    slot' := slot;
    match f.htype {
      case Repeated =>
        if wireType == WT_STRING && f.ltype.Packable() {
          ok, slot' := DecodePackedField(s, f, slot);
        } else {
          var items := OldItems(slot);
          if |items| >= f.arraySize {
            s.errmsg := "array overflow";
            return false, slot;
          }
          var v;
          ok, v := DecodeValueFrom(s, f, InitValue(f));
          slot' := Many(items + [v]);
        }
      case Optional =>
        var v;
        ok, v := DecodeValueFrom(s, f, OldValue(f, slot));
        slot' := Maybe(Some(v));
      case Oneof(_) =>
        var v;
        ok, v := DecodeValueFrom(s, f, InitValue(f));
        slot' := Maybe(Some(v));
      case Required =>
        var v;
        ok, v := DecodeValueFrom(s, f, OldValue(f, slot));
        slot' := Single(v);
      case Singular =>
        var v;
        ok, v := DecodeValueFrom(s, f, OldValue(f, slot));
        slot' := Single(v);
    }
  }

  /** What a packed array field decodes to. */
  function PackedOf(f: Field, input: Bytes, slot: Slot): Decoding<Slot> {
    var part := TakePrefixed(input);
    if part.None? then None
    else
      var all := DecodePacked(f, part.value.0, OldItems(slot));
      if all.None? then None else Some((Many(all.value), part.value.1))
  }

  method DecodePackedField(s: IStream, f: Field, slot: Slot) returns (ok: bool, slot': Slot)
    requires s.Valid()
    modifies s
    ensures SameEnd(s, ok)
    ensures ok <==> PackedOf(f, old(s.Rest()), slot).Some?
    ensures ok ==> (slot', s.Rest()) == PackedOf(f, old(s.Rest()), slot).value
    decreases f, 2, 0
  {
    hide DecodePacked, TakePrefixed;
    slot' := slot;
    var sub;
    ok, sub := MakeSubstream(s);
    if !ok {
      return;
    }
    var all;
    ok, all := DecodePackedFrom(sub, f, OldItems(slot));
    if !ok {
      return;
    }
    CloseSubstream(s, sub);
    slot' := Many(all);
  }

  lemma FindsUnique(fields: seq<Field>, pos: nat, tag: nat, i: nat, j: nat)
    requires Finds(fields, pos, tag, i) && Finds(fields, pos, tag, j) && pos < |fields|
    ensures i == j
  {
  }

  lemma FindAgrees(fields: seq<Field>, pos: nat, tag: nat, found: bool, i: nat)
    requires fields == [] || pos < |fields|
    requires found <==> exists j: nat :: j < |fields| && fields[j].tag == tag
    requires found ==> Finds(fields, pos, tag, i)
    ensures FindField(fields, pos, tag) == if found then Some(i) else None
  {
    hide FindField;
    var r := FindField(fields, pos, tag);
    if found && r.Some? {
      FindsUnique(fields, pos, tag, i, r.value);
    }
  }

  /** The words hold the numbers of the required fields met. */
  ghost predicate SeenIs(words: seq<bv32>, seen: set<nat>) {
    && |words| == 2
    && (forall k :: k in seen ==> k < MAX_REQUIRED_FIELDS)
    && (forall k: nat :: k < MAX_REQUIRED_FIELDS ==> (k in seen <==> Bit(words[k / 32], Index(k % 32))))
  }

  lemma NothingSeen()
    ensures SeenIs([0, 0], {})
  {
    forall k: nat | k < MAX_REQUIRED_FIELDS ensures !Bit([0 as bv32, 0][k / 32], Index(k % 32)) {
      NoBit(Index(k % 32));
    }
  }

  lemma NoBit(k: bv8)
    ensures !Bit(0, k)
  {
  }

  lemma OneMoreSeen(words: seq<bv32>, seen: set<nat>, n: nat)
    requires SeenIs(words, seen) && n < MAX_REQUIRED_FIELDS
    ensures Index(n % 32) < 32 && SeenIs(words[n / 32 := SetBit(words[n / 32], Index(n % 32))], seen + {n})
  {
    hide Bit, SetBit, Index;
    IndexInjective(n % 32, n % 32);
    var words' := words[n / 32 := SetBit(words[n / 32], Index(n % 32))];
    forall k: nat | k < MAX_REQUIRED_FIELDS ensures k in seen + {n} <==> Bit(words'[k / 32], Index(k % 32)) {
      IndexInjective(n % 32, k % 32);
      if k / 32 == n / 32 {
        SetBitBits(words[n / 32], Index(n % 32), Index(k % 32));
      }
    }
  }

  ghost predicate AllSeenBelow(seen: set<nat>, w: nat, n: nat) {
    forall k: nat :: k < MAX_REQUIRED_FIELDS && k / 32 == w && k % 32 < n ==> k in seen
  }

  ghost predicate LowBits(word: bv32, b: bv8) {
    forall i: bv8 :: i < 32 ==> (Bit(word, i) <==> i < b)
  }

  lemma BitsSeen(words: seq<bv32>, seen: set<nat>, w: nat, n: nat, b: bv8)
    requires SeenIs(words, seen) && w < 2 && 0 < n <= 32 && Number(b) == n && LowBits(words[w], b)
    ensures AllSeenBelow(seen, w, n)
  {
    hide Bit, Index, Number;
    forall k: nat | k < MAX_REQUIRED_FIELDS && k / 32 == w && k % 32 < n ensures k in seen {
      IndexBelow(k % 32, b);
    }
  }

  lemma SeenBits(words: seq<bv32>, seen: set<nat>, w: nat, n: nat, b: bv8)
    requires SeenIs(words, seen) && w < 2 && 0 < n <= 32 && Number(b) == n && AllSeenBelow(seen, w, n)
    requires forall k :: k in seen && k / 32 == w ==> k % 32 < n
    ensures LowBits(words[w], b)
  {
    hide Bit, Index, Number;
    forall i: bv8 | i < 32 ensures Bit(words[w], i) <==> i < b {
      IndexOnto(i);
      var k := 32 * w + Number(i);
      IndexBelow(k % 32, b);
      assert k in seen <==> Bit(words[k / 32], Index(k % 32));
    }
  }

  /** Bits of one word seen below some number: compared with a mask, as a whole. */
  lemma WordSeen(words: seq<bv32>, seen: set<nat>, w: nat, n: nat)
    requires SeenIs(words, seen) && w < 2 && 0 < n <= 32
    requires forall k :: k in seen && k / 32 == w ==> k % 32 < n
    ensures 0 < (n as bv8) <= 32
    ensures words[w] == ALL_BITS >> (32 - n as bv8) <==> AllSeenBelow(seen, w, n)
  {
    hide Bit, AllSeenBelow, SeenIs;
    var b := n as bv8;
    assert Number(b) == n;
    SeenWords(words, seen);
    IsLowBits(words[w], b);
    if words[w] == ALL_BITS >> (32 - b) {
      assert LowBits(words[w], b);
      BitsSeen(words, seen, w, n, b);
    }
    if AllSeenBelow(seen, w, n) {
      SeenBits(words, seen, w, n, b);
      assert LowBits(words[w], b);
    }
  }

  lemma SeenWords(words: seq<bv32>, seen: set<nat>)
    requires SeenIs(words, seen)
    ensures |words| >= 2
  {
  }

  lemma IndexBelow(k: nat, b: bv8)
    requires k < 32
    ensures Index(k) < 32 && (Index(k) < b <==> k < Number(b))
  {
    hide Index, Number;
    ValueOfIndex(k);
    ValueOrder(Index(k), b);
  }

  /** The required fields met so far are those before some place of the descriptor. */
  predicate SeenInRange(d: Desc, seen: set<nat>) {
    forall k :: k in seen ==> k < CountRequired(d.fields, |d.fields|) && k < MAX_REQUIRED_FIELDS
  }

  lemma {:induction false} CountGrows(fields: seq<Field>, i: nat, n: nat)
    requires i < n <= |fields|
    ensures CountRequired(fields, i) <= CountRequired(fields, n)
    ensures fields[i].htype.Required? ==> CountRequired(fields, i) < CountRequired(fields, n)
    decreases n
  {
    if i < n - 1 {
      CountGrows(fields, i, n - 1);
    }
  }

  lemma MarkInRange(d: Desc, i: nat, seen: set<nat>)
    requires SeenInRange(d, seen) && i < |d.fields|
    ensures SeenInRange(d, MarkSeen(d, i, seen))
  {
    CountGrows(d.fields, i, |d.fields|);
  }

  /** Are the first n required fields met?  Whole words first, then the bits left over. */
  method CheckWords(words: array<bv32>, n: nat, ghost seen: set<nat>) returns (ok: bool)
    requires words.Length == 2 && SeenIs(words[..], seen) && n <= MAX_REQUIRED_FIELDS && forall k :: k in seen ==> k < n
    ensures ok <==> forall k: nat :: k < n ==> k in seen
  {
    hide Bit;
    ok := true;
    for i := 0 to n / 32
      invariant ok <==> forall k: nat :: k < 32 * i ==> k in seen
    {
      WordSeen(words[..], seen, i, 32);
      WholeWord();
      if words[i] != ALL_BITS {
        ok := false;
      }
      assert forall k: nat :: k < 32 * (i + 1) ==> k < 32 * i || k / 32 == i;
    }
    if n % 32 != 0 {
      WordSeen(words[..], seen, n / 32, n % 32);
      if words[n / 32] != ALL_BITS >> (32 - (n % 32) as bv8) {
        ok := false;
      }
      assert forall k: nat :: k < n ==> k < 32 * (n / 32) || (k / 32 == n / 32 && k % 32 < n % 32);
    }
  }

  lemma WholeWord()
    ensures ALL_BITS >> (32 - 32 as bv8) == ALL_BITS
  {
  }

  /** The number of required fields: the iterator is run to the end, where its index counts
      those before the last field. */
  method RequiredCount(iter: FieldIter) returns (n: nat)
    requires iter.Valid()
    modifies iter
    ensures iter.Valid() && n == CountRequired(iter.desc.fields, |iter.desc.fields|)
  {
    n := 0;
    if iter.desc.fields == [] {
      return;
    }
    ghost var d := iter.desc;
    var lastRequired := false;
    var more := true;
    while more
      invariant iter.Valid()
      invariant !more ==> n == CountRequired(d.fields, |d.fields| - 1) && lastRequired == d.fields[|d.fields| - 1].htype.Required?
      decreases more, |d.fields| - iter.pos
    {
      n := iter.requiredFieldIndex;
      lastRequired := iter.desc.fields[iter.pos].htype.Required?;
      more := iter.Next();
    }
    if lastRequired {
      n := n + 1;
    }
  }

  method CheckRequired(d: Desc, iter: FieldIter, words: array<bv32>, ghost seen: set<nat>) returns (ok: bool)
    requires iter.Valid() && iter.desc == d && words.Length == 2 && SeenIs(words[..], seen) && SeenInRange(d, seen)
    modifies iter
    ensures ok <==> AllSeen(d, seen)
  {
    hide SeenIs;
    var n := RequiredCount(iter);
    if n > MAX_REQUIRED_FIELDS {
      n := MAX_REQUIRED_FIELDS;
    }
    ok := CheckWords(words, n, seen);
  }

  /** What is left of decoding after a field has been dealt with. */
  lemma FieldsUnfold(d: Desc, input: Bytes, p: Progress)
    requires ProgressOk(d, p)
    ensures DecodeTag(input).TagError? ==> DecodeFields(d, input, p) == None
    ensures DecodeTag(input).TagEnd? ==> DecodeFields(d, input, p) == Some(p)
    ensures DecodeTag(input).TagFound? ==>
      var t := DecodeTag(input);
      var i := FindField(d.fields, p.pos, t.tag);
      if i.None? then
        var after := SkipField(t.wireType, t.rest);
        DecodeFields(d, input, p) == if after.None? then None else DecodeFields(d, after.value, p)
      else
        var v := DecodeField(d.fields[i.value], t.wireType, t.rest, p.slots[i.value]);
        DecodeFields(d, input, p)
          == if v.None? then None
             else DecodeFields(d, v.value.1, Progress(StoreSlot(d, p.slots, i.value, v.value.0), MarkSeen(d, i.value, p.seen), i.value))
  {
  }

  /** Writes a field of the message struct; a union's tag now names this field. */
  method StoreInto(d: Desc, dest: array<Slot>, i: nat, slot: Slot)
    requires dest.Length == |d.fields| && i < |d.fields|
    modifies dest
    ensures dest[..] == StoreSlot(d, old(dest[..]), i, slot)
  {
    forall j | 0 <= j < dest.Length && j != i && SameGroup(d.fields[i], d.fields[j]) {
      dest[j] := Maybe(None);
    }
    dest[i] := slot;
  }

  /** Marks a required field as met. */
  method MarkInto(d: Desc, iter: FieldIter, words: array<bv32>, ghost seen: set<nat>)
    requires iter.Valid() && iter.desc == d && d.fields != [] && words.Length == 2 && SeenIs(words[..], seen)
    modifies words
    ensures SeenIs(words[..], MarkSeen(d, iter.pos, seen))
  {
    hide SeenIs, Bit, SetBit;
    if d.fields[iter.pos].htype.Required? && iter.requiredFieldIndex < MAX_REQUIRED_FIELDS {
      var n := iter.requiredFieldIndex;
      ghost var before := words[..];
      OneMoreSeen(before, seen, n);
      words[n / 32] := SetBit(words[n / 32], Index(n % 32));
      assert words[..] == before[n / 32 := SetBit(before[n / 32], Index(n % 32))];
    }
  }

  /** One round of the decoding loop. */
  method DecodeOne(s: IStream, d: Desc, dest: array<Slot>, iter: FieldIter, words: array<bv32>, ghost seen: set<nat>)
    returns (ok: bool, ended: bool, ghost seen': set<nat>)
    requires s.Valid() && dest.Length == |d.fields| && iter.Valid() && iter.desc == d && words.Length == 2
    requires (words as object) != (dest as object)
    requires SeenIs(words[..], seen) && SeenInRange(d, seen)
    modifies s, dest, iter, words
    ensures SameEnd(s, ok) && iter.Valid()
    ensures SeenIs(words[..], seen') && SeenInRange(d, seen')
    ensures
      var all := DecodeFields(d, old(s.Rest()), Progress(old(dest[..]), seen, old(iter.pos)));
      && (!ok ==> all == None)
      && (ok && ended ==> all == Some(Progress(dest[..], seen', iter.pos)))
      && (ok && !ended ==> all == DecodeFields(d, s.Rest(), Progress(dest[..], seen', iter.pos)) && s.bytesLeft < old(s.bytesLeft))
    decreases d, 3
  {
    hide SeenIs, SeenInRange, DecodeTag, DecodeField, SkipField, MarkSeen, StoreSlot, FindField, Finds, DecodeFields;
    seen' := seen;
    FieldsUnfold(d, s.Rest(), Progress(dest[..], seen, iter.pos));
    ghost var start := iter.pos;
    var t := DecodeTagFrom(s);
    if !t.TagFound? {
      return t.TagEnd?, true, seen';
    }
    var found := iter.Find(t.tag);
    FindAgrees(d.fields, start, t.tag, found, iter.pos);
    if !found {
      ok := SkipFieldFrom(s, t.wireType);
      return ok, false, seen';
    }
    MarkInto(d, iter, words, seen);
    MarkInRange(d, iter.pos, seen);
    seen' := MarkSeen(d, iter.pos, seen);
    var slot;
    ok, slot := DecodeFieldFrom(s, d.fields[iter.pos], t.wireType, dest[iter.pos]);
    if ok {
      StoreInto(d, dest, iter.pos, slot);
    }
    ended := false;
  }

  /** pb_decode_noinit. */
  method DecodeNoinit(s: IStream, d: Desc, dest: array<Slot>) returns (ok: bool)
    requires s.Valid() && dest.Length == |d.fields|
    modifies s, dest
    ensures SameEnd(s, ok)
    ensures ok <==> DecodeMessage(d, old(s.Rest()), old(dest[..])).Some?
    ensures ok ==> dest[..] == DecodeMessage(d, old(s.Rest()), old(dest[..])).value
    decreases d, 4
  {
    hide SeenIs, SeenInRange, DecodeFields, AllSeen;
    var words := new bv32[2](_ => 0);
    var iter := new FieldIter(d);
    ghost var seen: set<nat> := {};
    ghost var all := DecodeFields(d, s.Rest(), Progress(dest[..], {}, 0));
    assert words[..] == [0, 0];
    NothingSeen();
    assert SeenInRange(d, {}) by { NothingInRange(d); }
    var ended := s.bytesLeft == 0;
    if ended {
      FieldsEnd(d, Progress(dest[..], {}, 0));
      assert s.Rest() == [];
    }
    while !ended
      invariant SameEnd(s, true)
      invariant iter.Valid() && iter.desc == d && fresh(iter) && fresh(words) && words.Length == 2
      invariant SeenIs(words[..], seen) && SeenInRange(d, seen)
      invariant !ended ==> DecodeFields(d, s.Rest(), Progress(dest[..], seen, iter.pos)) == all
      invariant ended ==> all == Some(Progress(dest[..], seen, iter.pos))
      decreases !ended, s.bytesLeft
    {
      ok, ended, seen := DecodeOne(s, d, dest, iter, words, seen);
      if !ok {
        return false;
      }
      if !ended && s.bytesLeft == 0 {
        ended := true;
        FieldsEnd(d, Progress(dest[..], seen, iter.pos));
        assert s.Rest() == [];
      }
    }
    ok := CheckRequired(d, iter, words, seen);
    if !ok {
      s.errmsg := "missing required field";
    }
  }

  lemma FieldsEnd(d: Desc, p: Progress)
    requires ProgressOk(d, p)
    ensures DecodeFields(d, [], p) == Some(p)
  {
  }

  lemma NothingInRange(d: Desc)
    ensures SeenInRange(d, {})
  {
  }

  /** pb_decode: sets the message to its defaults first. */
  method Decode(input: Bytes, d: Desc, dest: array<Slot>) returns (ok: bool)
    requires dest.Length == |d.fields|
    modifies dest
    ensures ok <==> Decoded(d, input).Some?
    ensures ok ==> dest[..] == Decoded(d, input).value
  {
    hide InitMessage, DecodeMessage;
    var init := InitMessage(d);
    for i := 0 to |init|
      invariant dest[..i] == init[..i]
    {
      dest[i] := init[i];
    }
    assert dest[..] == init;
    var s := new IStream(input, 0, |input|);
    assert s.Rest() == input;
    ok := DecodeNoinit(s, d, dest);
  }
}

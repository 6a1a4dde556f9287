/** Message descriptors, message values and the field iterator of nanopb.  All fields are
    statically allocated. */
module PbCommon {
  import opened Options
  import opened Coding
  import opened PbVarint

  datatype LType =
    | Bool | Varint | UVarint | SVarint | Fixed32 | Fixed64
    | BytesField | StringField | Submessage | FixedLengthBytes
  {
    predicate Packable() {
      Bool? || Varint? || UVarint? || SVarint? || Fixed32? || Fixed64?
    }
  }

  /** Optional has a has-flag, Singular has none and is present when not zero; the fields
      of one Oneof group share a union and a which-tag. */
  datatype HType = Required | Optional | Singular | Repeated | Oneof(group: nat)

  datatype Field = Field(
    tag: nat,
    ltype: LType,
    htype: HType,
    dataSize: nat,
    arraySize: nat,
    dataOffset: nat,
    sub: Desc)

  datatype Desc = Desc(fields: seq<Field>)

  datatype Value = BoolVal(b: bool) | IntVal(i: int) | DataVal(bytes: Bytes) | MsgVal(slots: seq<Slot>)

  datatype Slot = Single(value: Value) | Maybe(opt: Option<Value>) | Many(items: seq<Value>)

  const MAX_TAG := 0x2000_0000

  /** The offset of the data in a bytes array: its 32-bit size comes first. */
  const BYTES_OFFSET := 4

  predicate IntegerSize(n: nat) {
    n == 1 || n == 2 || n == 4 || n == 8
  }

  /** The range of a signed integer of so many bytes. */
  predicate FitsSigned(size: nat, i: int) {
    match size
    case 1 => -0x80 <= i < 0x80
    case 2 => -0x8000 <= i < 0x8000
    case 4 => -TWO_31 <= i < TWO_31
    case _ => -TWO_63 <= i < TWO_63
  }

  predicate FitsUnsigned(size: nat, i: int) {
    match size
    case 1 => 0 <= i < 0x100
    case 2 => 0 <= i < 0x1_0000
    case 4 => 0 <= i < TWO_32
    case _ => 0 <= i < TWO_64
  }

  // ----- what the memory of a message can hold -----

  /** A string is its bytes up to and including the terminator, or all of its buffer. */
  predicate HasTerminator(chars: Bytes) {
    chars != [] && chars[|chars| - 1] == 0 && forall i :: 0 <= i < |chars| - 1 ==> chars[i] != 0
  }

  predicate NoZeros(chars: Bytes) {
    forall i :: 0 <= i < |chars| ==> chars[i] != 0
  }

  predicate ValueFits(f: Field, v: Value)
    decreases f, 0
  {
    match f.ltype
    case Bool => v.BoolVal?
    case Varint => v.IntVal? && FitsSigned(f.dataSize, v.i)
    case SVarint => v.IntVal? && FitsSigned(f.dataSize, v.i)
    case UVarint => v.IntVal? && FitsUnsigned(f.dataSize, v.i)
    case Fixed32 => v.IntVal? && 0 <= v.i < TWO_32
    case Fixed64 => v.IntVal? && 0 <= v.i < TWO_64
    case BytesField => v.DataVal? && |v.bytes| < TWO_32
    case StringField => v.DataVal? && |v.bytes| <= f.dataSize && (HasTerminator(v.bytes) || (NoZeros(v.bytes) && |v.bytes| == f.dataSize))
    case FixedLengthBytes => v.DataVal? && |v.bytes| == f.dataSize
    case Submessage => v.MsgVal? && MessageFits(f.sub, v.slots)
  }

  predicate SlotFits(f: Field, s: Slot)
    decreases f, 1
  {
    match f.htype
    case Repeated => s.Many? && forall v :: v in s.items ==> ValueFits(f, v)
    case Optional => s.Maybe? && (s.opt.Some? ==> ValueFits(f, s.opt.value))
    case Oneof(_) => s.Maybe? && (s.opt.Some? ==> ValueFits(f, s.opt.value))
    case _ => s.Single? && ValueFits(f, s.value)
  }

  /** One slot a field; of a group at most one is set. */
  predicate MessageFits(d: Desc, slots: seq<Slot>)
    decreases d
  {
    && |slots| == |d.fields|
    && (forall i :: 0 <= i < |slots| ==> SlotFits(d.fields[i], slots[i]))
    && (forall i, j :: 0 <= i < j < |slots| && SameGroup(d.fields[i], d.fields[j]) ==> slots[i] == Maybe(None) || slots[j] == Maybe(None))
  }

  predicate SameGroup(f: Field, g: Field) {
    f.htype.Oneof? && f.htype == g.htype
  }

  /** Field numbers are valid and not repeated within a message. */
  predicate WellFormed(d: Desc)
    decreases d
  {
    && (forall i :: 0 <= i < |d.fields| ==> 1 <= d.fields[i].tag < MAX_TAG)
    && (forall i, j :: 0 <= i < j < |d.fields| ==> d.fields[i].tag != d.fields[j].tag)
    && (forall i :: 0 <= i < |d.fields| && d.fields[i].ltype.Submessage? ==> WellFormed(d.fields[i].sub))
  }

  // ----- default values -----

  function InitValue(f: Field): Value
    decreases f, 0
  {
    match f.ltype
    case Bool => BoolVal(false)
    case BytesField => DataVal([])
    case StringField => DataVal([0])
    case FixedLengthBytes => DataVal(Zeros(f.dataSize))
    case Submessage => MsgVal(InitMessage(f.sub))
    case _ => IntVal(0)
  }

  function InitSlot(f: Field): Slot
    decreases f, 1
  {
    match f.htype
    case Repeated => Many([])
    case Optional => Maybe(None)
    case Oneof(_) => Maybe(None)
    case _ => Single(InitValue(f))
  }

  function InitMessage(d: Desc): (slots: seq<Slot>)
    ensures |slots| == |d.fields|
    decreases d
  {
    seq(|d.fields|, i requires 0 <= i < |d.fields| => InitSlot(d.fields[i]))
  }

  // ----- required fields and layout -----

  /** How many of the first n fields are required. */
  function CountRequired(fields: seq<Field>, n: nat): (c: nat)
    requires n <= |fields|
    ensures c <= n
  {
    if n == 0 then 0 else CountRequired(fields, n - 1) + if fields[n - 1].htype.Required? then 1 else 0
  }

  /** A union field after another one of the same union starts where that one starts. */
  predicate InsideUnion(fields: seq<Field>, i: nat)
    requires 0 < i < |fields|
  {
    SameGroup(fields[i - 1], fields[i])
  }

  function SizeInStruct(f: Field): nat {
    if f.htype.Repeated? then f.dataSize * f.arraySize else f.dataSize
  }

  /** Where the data of field i lies in the message struct. */
  function DataOffset(fields: seq<Field>, i: nat): nat
    requires i < |fields|
  {
    if i == 0 then fields[0].dataOffset
    else if InsideUnion(fields, i) then DataOffset(fields, i - 1)
    else DataOffset(fields, i - 1) + SizeInStruct(fields[i - 1]) + fields[i].dataOffset
  }

  /** The first field with the tag, searching from pos with wrap-around. */
  predicate Finds(fields: seq<Field>, pos: nat, tag: nat, i: nat) {
    && i < |fields| && fields[i].tag == tag
    && forall j: nat :: j < |fields| && fields[j].tag == tag ==> Steps(|fields|, pos, i) <= Steps(|fields|, pos, j)
  }

  /** How many times to advance from a to reach b, with wrap-around. */
  function Steps(n: nat, a: nat, b: nat): int {
    if b >= a then b - a else n - a + b
  }

  class FieldIter {
    const desc: Desc
    var pos: nat
    var requiredFieldIndex: nat
    var dataPtr: nat

    /** However it got where it is, the iterator's index of required fields and its data
        pointer are those of its position. */
    ghost predicate Valid()
      reads this
    {
      if desc.fields == [] then pos == 0 && requiredFieldIndex == 0
      else
        && pos < |desc.fields|
        && requiredFieldIndex == CountRequired(desc.fields, pos)
        && dataPtr == DataOffset(desc.fields, pos)
    }

    constructor (desc: Desc)
      ensures Valid() && this.desc == desc && pos == 0
    {
      this.desc := desc;
      pos := 0;
      requiredFieldIndex := 0;
      dataPtr := if desc.fields == [] then 0 else desc.fields[0].dataOffset;
    }

    method Begin() returns (ok: bool)
      modifies this
      ensures Valid() && pos == 0 && ok == (desc.fields != [])
    {
      pos := 0;
      requiredFieldIndex := 0;
      dataPtr := if desc.fields == [] then 0 else desc.fields[0].dataOffset;
      ok := desc.fields != [];
    }

    /** Steps to the next field; at the end goes back to the first and says so. */
    method Next() returns (more: bool)
      requires Valid()
      modifies this
      ensures Valid() && more == (old(pos) + 1 < |desc.fields|)
      ensures pos == if more then old(pos) + 1 else 0
    {
      if desc.fields == [] {
        return false;
      }
      var prev := desc.fields[pos];
      pos := pos + 1;
      if pos == |desc.fields| {
        var _ := Begin();
        return false;
      }
      var field := desc.fields[pos];
      var prevSize := prev.dataSize;
      if prev.htype.Oneof? && field.htype.Oneof? && prev.htype == field.htype {
        return true;
      } else if prev.htype.Repeated? {
        prevSize := prevSize * prev.arraySize;
      }
      if prev.htype.Required? {
        requiredFieldIndex := requiredFieldIndex + 1;
      }
      dataPtr := dataPtr + prevSize + field.dataOffset;
      return true;
    }

    /** Looks for a tag from the current field on, around the end and back. */
    method Find(tag: nat) returns (found: bool)
      requires Valid()
      modifies this
      ensures Valid()
      ensures found <==> exists i: nat :: i < |desc.fields| && desc.fields[i].tag == tag
      ensures found ==> Finds(desc.fields, old(pos), tag, pos)
      ensures !found ==> pos == old(pos)
    {
      if desc.fields == [] {
        return false;
      }
      ghost var n := |desc.fields|;
      var start := pos;
      ghost var steps := 0;
      var more := true;
      while more
        invariant Valid() && start < n && steps <= n
        invariant more ==> steps < n && steps == Steps(n, start, pos)
        invariant !more ==> steps == n && pos == start
        invariant forall j: nat :: j < n && Steps(n, start, j) < steps ==> desc.fields[j].tag != tag
        decreases n - steps
      {
        if desc.fields[pos].tag == tag {
          return true;
        }
        var _ := Next();
        steps := steps + 1;
        more := pos != start;
      }
      found := false;
    }
  }
}

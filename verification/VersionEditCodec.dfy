/** The byte form of a version edit: tagged fields one after another. */
module VersionEditCodec {
  import opened Options
  import opened Coding
  import Tables

  datatype FileMetaData = FileMetaData(number: uint64, fileSize: uint64, smallest: Bytes, largest: Bytes)

  /** Keys are internal keys in their byte form.  The deleted files are an ordered set: level,
      then number, ascending. */
  datatype Edit = Edit(
    comparator: Option<Bytes>,
    logNumber: Option<uint64>,
    prevLogNumber: Option<uint64>,
    nextFileNumber: Option<uint64>,
    lastSequence: Option<uint64>,
    compactPointers: seq<(nat, Bytes)>,
    deletedFiles: seq<(nat, uint64)>,
    newFiles: seq<(nat, FileMetaData)>)

  function Cleared(compactPointers: seq<(nat, Bytes)>): Edit {
    Edit(None, None, None, None, None, compactPointers, [], [])
  }

  predicate Before(a: (nat, uint64), b: (nat, uint64)) {
    a.0 < b.0 || (a.0 == b.0 && a.1 < b.1)
  }

  function Inserted(files: seq<(nat, uint64)>, x: (nat, uint64)): seq<(nat, uint64)> {
    if files == [] || Before(x, files[0]) then [x] + files
    else if files[0] == x then files
    else [files[0]] + Inserted(files[1..], x)
  }

  predicate Ordered(files: seq<(nat, uint64)>) {
    forall i, j :: 0 <= i < j < |files| ==> Before(files[i], files[j])
  }

  lemma {:induction false} InsertedKeepsOrder(files: seq<(nat, uint64)>, x: (nat, uint64))
    requires Ordered(files)
    ensures Ordered(Inserted(files, x)) && forall y :: y in Inserted(files, x) <==> y in files || y == x
  {
    if files != [] && !Before(x, files[0]) && files[0] != x {
      InsertedKeepsOrder(files[1..], x);
      var rest := Inserted(files[1..], x);
      forall j | 0 <= j < |rest| ensures Before(files[0], rest[j]) {
        assert rest[j] in rest;
      }
    }
  }

  lemma {:induction false} InsertedLast(files: seq<(nat, uint64)>, x: (nat, uint64))
    requires forall i :: 0 <= i < |files| ==> Before(files[i], x)
    ensures Inserted(files, x) == files + [x]
  {
    if files != [] {
      InsertedLast(files[1..], x);
    }
  }

  // ----- the fields -----

  datatype Counter = LogNumber | PrevLogNumber | NextFileNumber | LastSequence

  datatype Item =
    | Comparator(name: Bytes)
    | Number(counter: Counter, number: uint64)
    | CompactPointer(level: nat, key: Bytes)
    | DeletedFile(level: nat, number: uint64)
    | NewFile(level: nat, file: FileMetaData)

  const TAG_COMPARATOR := 1
  const TAG_LOG_NUMBER := 2
  const TAG_NEXT_FILE_NUMBER := 3
  const TAG_LAST_SEQUENCE := 4
  const TAG_COMPACT_POINTER := 5
  const TAG_DELETED_FILE := 6
  const TAG_NEW_FILE := 7
  const TAG_PREV_LOG_NUMBER := 9

  function CounterTag(counter: Counter): nat {
    match counter
    case LogNumber => TAG_LOG_NUMBER
    case PrevLogNumber => TAG_PREV_LOG_NUMBER
    case NextFileNumber => TAG_NEXT_FILE_NUMBER
    case LastSequence => TAG_LAST_SEQUENCE
  }

  function Tag(item: Item): (tag: nat)
    ensures 0 < tag < 10
  {
    match item
    case Comparator(_) => TAG_COMPARATOR
    case Number(counter, _) => CounterTag(counter)
    case CompactPointer(_, _) => TAG_COMPACT_POINTER
    case DeletedFile(_, _) => TAG_DELETED_FILE
    case NewFile(_, _) => TAG_NEW_FILE
  }

  function Body(item: Item): Bytes {
    match item
    case Comparator(name) => LengthPrefixed(name)
    case Number(_, n) => EncodeVarint(n)
    case CompactPointer(level, key) => EncodeVarint(level) + LengthPrefixed(key)
    case DeletedFile(level, n) => EncodeVarint(level) + EncodeVarint(n)
    case NewFile(level, f) =>
      EncodeVarint(level) + EncodeVarint(f.number) + EncodeVarint(f.fileSize) + LengthPrefixed(f.smallest) + LengthPrefixed(f.largest)
  }

  function ItemBytes(item: Item): (bs: Bytes)
    ensures |bs| > 0
  {
    EncodeVarint(Tag(item)) + Body(item)
  }

  function Put(e: Edit, item: Item): Edit {
    match item
    case Comparator(name) => e.(comparator := Some(name))
    case Number(LogNumber, n) => e.(logNumber := Some(n))
    case Number(PrevLogNumber, n) => e.(prevLogNumber := Some(n))
    case Number(NextFileNumber, n) => e.(nextFileNumber := Some(n))
    case Number(LastSequence, n) => e.(lastSequence := Some(n))
    case CompactPointer(level, key) => e.(compactPointers := e.compactPointers + [(level, key)])
    case DeletedFile(level, n) => e.(deletedFiles := Inserted(e.deletedFiles, (level, n)))
    case NewFile(level, f) => e.(newFiles := e.newFiles + [(level, f)])
  }

  function NameItems(name: Option<Bytes>): seq<Item> {
    if name.Some? then [Comparator(name.value)] else []
  }

  function NumberItems(counter: Counter, number: Option<uint64>): seq<Item> {
    if number.Some? then [Number(counter, number.value)] else []
  }

  function ScalarItems(e: Edit): seq<Item> {
    NameItems(e.comparator) + NumberItems(LogNumber, e.logNumber) + NumberItems(PrevLogNumber, e.prevLogNumber)
    + NumberItems(NextFileNumber, e.nextFileNumber) + NumberItems(LastSequence, e.lastSequence)
  }

  /** The fields of an edit in the order they are written. */
  function Items(e: Edit): seq<Item> {
    ScalarItems(e) + PointerItems(e.compactPointers) + DeletedItems(e.deletedFiles) + NewItems(e.newFiles)
  }

  function PointerItems(ps: seq<(nat, Bytes)>): (items: seq<Item>)
    ensures |items| == |ps|
  {
    seq(|ps|, i requires 0 <= i < |ps| => CompactPointer(ps[i].0, ps[i].1))
  }

  function DeletedItems(ds: seq<(nat, uint64)>): (items: seq<Item>)
    ensures |items| == |ds|
  {
    seq(|ds|, i requires 0 <= i < |ds| => DeletedFile(ds[i].0, ds[i].1))
  }

  function NewItems(fs: seq<(nat, FileMetaData)>): (items: seq<Item>)
    ensures |items| == |fs|
  {
    seq(|fs|, i requires 0 <= i < |fs| => NewFile(fs[i].0, fs[i].1))
  }

  function ItemsBytes(items: seq<Item>): Bytes {
    if items == [] then [] else ItemBytes(items[0]) + ItemsBytes(items[1..])
  }

  function PutAll(e: Edit, items: seq<Item>): Edit
    decreases |items|
  {
    if items == [] then e else PutAll(Put(e, items[0]), items[1..])
  }

  // ----- decoding -----

  /** A value and the rest of the input. */
  type Parsed<T> = Option<(T, Bytes)>

  function ParseVarint64(input: Bytes): (r: Parsed<uint64>)
    ensures r.Some? ==> |r.value.1| <= |input|
  {
    var v := GetVarint64(input);
    if v.None? then None else Some((v.value.value, input[v.value.size..]))
  }

  function ParseLevel(input: Bytes): (r: Parsed<nat>)
    ensures r.Some? ==> |r.value.1| <= |input|
  {
    var v := GetVarint32(input);
    if v.None? || v.value.value >= Tables.NUM_LEVELS then None else Some((v.value.value, input[v.value.size..]))
  }

  function ParseNumbered(input: Bytes): (r: Parsed<(nat, uint64)>)
    ensures r.Some? ==> |r.value.1| <= |input|
  {
    var level := ParseLevel(input);
    var number := if level.None? then None else ParseVarint64(level.value.1);
    if number.None? then None else Some(((level.value.0, number.value.0), number.value.1))
  }

  function ParseKeyed(input: Bytes): (r: Parsed<(nat, Bytes)>)
    ensures r.Some? ==> |r.value.1| <= |input|
  {
    var level := ParseLevel(input);
    var key := if level.None? then None else GetLengthPrefixed(level.value.1);
    if key.None? then None else Some(((level.value.0, key.value.0), key.value.1))
  }

  function ParseNewFile(input: Bytes): (r: Parsed<(nat, FileMetaData)>)
    ensures r.Some? ==> |r.value.1| <= |input|
  {
    var n := ParseNumbered(input);
    var size := if n.None? then None else ParseVarint64(n.value.1);
    var smallest := if size.None? then None else GetLengthPrefixed(size.value.1);
    var largest := if smallest.None? then None else GetLengthPrefixed(smallest.value.1);
    if largest.None? then None
    else Some(((n.value.0.0, FileMetaData(n.value.0.1, size.value.0, smallest.value.0, largest.value.0)), largest.value.1))
  }

  datatype ItemResult = Parsed(item: Item, rest: Bytes) | Malformed(message: string)

  function ParseItem(tag: nat, input: Bytes): (r: ItemResult)
    ensures r.Parsed? ==> |r.rest| <= |input|
  {
    if tag == TAG_COMPARATOR then
      var s := GetLengthPrefixed(input);
      if s.None? then Malformed("comparator name") else Parsed(Comparator(s.value.0), s.value.1)
    else if tag == TAG_LOG_NUMBER then
      var n := ParseVarint64(input);
      if n.None? then Malformed("log number") else Parsed(Number(LogNumber, n.value.0), n.value.1)
    else if tag == TAG_PREV_LOG_NUMBER then
      var n := ParseVarint64(input);
      if n.None? then Malformed("previous log number") else Parsed(Number(PrevLogNumber, n.value.0), n.value.1)
    else if tag == TAG_NEXT_FILE_NUMBER then
      var n := ParseVarint64(input);
      if n.None? then Malformed("next file number") else Parsed(Number(NextFileNumber, n.value.0), n.value.1)
    else if tag == TAG_LAST_SEQUENCE then
      var n := ParseVarint64(input);
      if n.None? then Malformed("last sequence number") else Parsed(Number(LastSequence, n.value.0), n.value.1)
    else if tag == TAG_COMPACT_POINTER then
      var p := ParseKeyed(input);
      if p.None? then Malformed("compaction pointer") else Parsed(CompactPointer(p.value.0.0, p.value.0.1), p.value.1)
    else if tag == TAG_DELETED_FILE then
      var d := ParseNumbered(input);
      if d.None? then Malformed("deleted file") else Parsed(DeletedFile(d.value.0.0, d.value.0.1), d.value.1)
    else if tag == TAG_NEW_FILE then
      var f := ParseNewFile(input);
      if f.None? then Malformed("new-file entry") else Parsed(NewFile(f.value.0.0, f.value.0.1), f.value.1)
    else Malformed("unknown tag")
  }

  /** What DecodeFrom makes of the rest of the input: the edit, and what was wrong if
      anything was. */
  function Decoded(e: Edit, input: Bytes): (Edit, Option<string>)
    decreases |input|
  {
    var tag := GetVarint32(input);
    if tag.None? then (e, if input == [] then None else Some("invalid tag"))
    else
      var item := ParseItem(tag.value.value, input[tag.value.size..]);
      if item.Malformed? then (e, Some(item.message)) else Decoded(Put(e, item.item), item.rest)
  }

  // ----- reading what was written -----

  predicate ItemFits(item: Item) {
    match item
    case Comparator(name) => |name| < TWO_32
    case CompactPointer(level, key) => level < Tables.NUM_LEVELS && |key| < TWO_32
    case DeletedFile(level, _) => level < Tables.NUM_LEVELS
    case NewFile(level, f) => level < Tables.NUM_LEVELS && |f.smallest| < TWO_32 && |f.largest| < TWO_32
    case _ => true
  }

  lemma DropFront(x: Bytes, rest: Bytes)
    ensures (x + rest)[|x|..] == rest
  {
  }

  lemma Varint64Parses(n: uint64, rest: Bytes)
    ensures ParseVarint64(EncodeVarint(n) + rest) == Some((n, rest))
  {
    hide EncodeVarint, GetVarint64;
    GetVarint64Encoded(n, rest);
    DropFront(EncodeVarint(n), rest);
  }

  lemma LevelParses(level: nat, rest: Bytes)
    requires level < Tables.NUM_LEVELS
    ensures ParseLevel(EncodeVarint(level) + rest) == Some((level, rest))
  {
    hide EncodeVarint, GetVarint32;
    GetVarint32Encoded(level, rest);
    DropFront(EncodeVarint(level), rest);
  }

  lemma NumberedParses(level: nat, n: uint64, rest: Bytes)
    requires level < Tables.NUM_LEVELS
    ensures ParseNumbered(EncodeVarint(level) + (EncodeVarint(n) + rest)) == Some(((level, n), rest))
  {
    hide EncodeVarint, ParseVarint64, ParseLevel;
    LevelParses(level, EncodeVarint(n) + rest);
    Varint64Parses(n, rest);
  }

  lemma NewFileParses(level: nat, f: FileMetaData, rest: Bytes)
    requires level < Tables.NUM_LEVELS && |f.smallest| < TWO_32 && |f.largest| < TWO_32
    ensures
      ParseNewFile(EncodeVarint(level) + (EncodeVarint(f.number) + (EncodeVarint(f.fileSize)
        + (LengthPrefixed(f.smallest) + (LengthPrefixed(f.largest) + rest))))) == Some(((level, f), rest))
  {
    hide EncodeVarint, ParseNumbered, ParseVarint64, LengthPrefixed, GetLengthPrefixed;
    var d := LengthPrefixed(f.largest) + rest;
    var c := LengthPrefixed(f.smallest) + d;
    NumberedParses(level, f.number, EncodeVarint(f.fileSize) + c);
    Varint64Parses(f.fileSize, c);
    LengthPrefixedRoundTrip(f.smallest, d);
    LengthPrefixedRoundTrip(f.largest, rest);
  }

  /** Every field reads back as it was written, whatever follows. */
  lemma ItemParses(item: Item, rest: Bytes)
    requires ItemFits(item)
    ensures ParseItem(Tag(item), Body(item) + rest) == Parsed(item, rest)
  {
    hide EncodeVarint, ParseNumbered, ParseVarint64, ParseLevel, ParseNewFile, LengthPrefixed, GetLengthPrefixed;
    match item {
      case Comparator(name) => LengthPrefixedRoundTrip(name, rest);
      case Number(_, n) => Varint64Parses(n, rest);
      case CompactPointer(level, key) =>
        assert Body(item) + rest == EncodeVarint(level) + (LengthPrefixed(key) + rest);
        LevelParses(level, LengthPrefixed(key) + rest);
        LengthPrefixedRoundTrip(key, rest);
      case DeletedFile(level, n) =>
        assert Body(item) + rest == EncodeVarint(level) + (EncodeVarint(n) + rest);
        NumberedParses(level, n, rest);
      case NewFile(level, f) =>
        assert Body(item) + rest == EncodeVarint(level) + (EncodeVarint(f.number) + (EncodeVarint(f.fileSize)
          + (LengthPrefixed(f.smallest) + (LengthPrefixed(f.largest) + rest))));
        NewFileParses(level, f, rest);
    }
  }

  lemma {:induction false} ItemsDecode(e: Edit, items: seq<Item>)
    requires forall item :: item in items ==> ItemFits(item)
    ensures Decoded(e, ItemsBytes(items)) == (PutAll(e, items), None)
    decreases |items|
  {
    hide EncodeVarint, GetVarint32, ParseItem, Body, Tag, Put, ItemFits;
    if items == [] {
      NothingParses();
    } else {
      var item, rest := items[0], ItemsBytes(items[1..]);
      GetVarint32Encoded(Tag(item), Body(item) + rest);
      assert ItemBytes(item) + rest == EncodeVarint(Tag(item)) + (Body(item) + rest);
      DropFront(EncodeVarint(Tag(item)), Body(item) + rest);
      ItemParses(item, rest);
      ItemsDecode(Put(e, item), items[1..]);
    }
  }

  lemma NothingParses()
    ensures GetVarint32([]) == None
  {
  }

  lemma {:induction false} PutAllConcat(e: Edit, a: seq<Item>, b: seq<Item>)
    ensures PutAll(e, a + b) == PutAll(PutAll(e, a), b)
    decreases |a|
  {
    hide Put;
    if a == [] {
      assert a + b == b;
    } else {
      assert (a + b)[1..] == a[1..] + b;
      PutAllConcat(Put(e, a[0]), a[1..], b);
    }
  }

  lemma {:induction false} PutPointers(e: Edit, ps: seq<(nat, Bytes)>)
    ensures PutAll(e, PointerItems(ps)) == e.(compactPointers := e.compactPointers + ps)
    decreases |ps|
  {
    if ps != [] {
      assert PointerItems(ps)[1..] == PointerItems(ps[1..]);
      PutPointers(e.(compactPointers := e.compactPointers + [ps[0]]), ps[1..]);
      assert e.compactPointers + [ps[0]] + ps[1..] == e.compactPointers + ps;
    }
  }

  lemma {:induction false} PutNewFiles(e: Edit, fs: seq<(nat, FileMetaData)>)
    ensures PutAll(e, NewItems(fs)) == e.(newFiles := e.newFiles + fs)
    decreases |fs|
  {
    if fs != [] {
      assert NewItems(fs)[1..] == NewItems(fs[1..]);
      PutNewFiles(e.(newFiles := e.newFiles + [fs[0]]), fs[1..]);
      assert e.newFiles + [fs[0]] + fs[1..] == e.newFiles + fs;
    }
  }

  lemma {:induction false} PutDeleted(e: Edit, ds: seq<(nat, uint64)>)
    requires Ordered(e.deletedFiles + ds)
    ensures PutAll(e, DeletedItems(ds)) == e.(deletedFiles := e.deletedFiles + ds)
    decreases |ds|
  {
    hide Before;
    if ds != [] {
      assert DeletedItems(ds)[1..] == DeletedItems(ds[1..]);
      var all := e.deletedFiles + ds;
      forall i | 0 <= i < |e.deletedFiles| ensures Before(e.deletedFiles[i], ds[0]) {
        assert all[i] == e.deletedFiles[i] && all[|e.deletedFiles|] == ds[0];
      }
      InsertedLast(e.deletedFiles, ds[0]);
      assert e.deletedFiles + [ds[0]] + ds[1..] == all;
      PutDeleted(e.(deletedFiles := e.deletedFiles + [ds[0]]), ds[1..]);
    }
  }

  ghost predicate Writable(e: Edit) {
    && Ordered(e.deletedFiles) && (forall item :: item in Items(e) ==> ItemFits(item))
  }

  function EncodeEdit(e: Edit): Bytes {
    ItemsBytes(Items(e))
  }

  /** Decoding a written edit gives that edit, with the compaction pointers the decoding
      object already had in front of its own: Clear leaves those in place. */
  lemma DecodeUndoesEncode(e: Edit, pointers: seq<(nat, Bytes)>)
    requires Writable(e)
    ensures Decoded(Cleared(pointers), EncodeEdit(e)) == (e.(compactPointers := pointers + e.compactPointers), None)
  {
    ItemsDecode(Cleared(pointers), Items(e));
    PutItems(e, pointers);
  }

  lemma PutItems(e: Edit, pointers: seq<(nat, Bytes)>)
    requires Ordered(e.deletedFiles)
    ensures PutAll(Cleared(pointers), Items(e)) == e.(compactPointers := pointers + e.compactPointers)
  {
    hide Put, PutAll;
    var a, b, c, d := PointerItems(e.compactPointers), DeletedItems(e.deletedFiles), NewItems(e.newFiles), ScalarItems(e);
    var e0 := Cleared(pointers);
    PutScalars(e, e0);
    PutAllConcat(e0, d + a + b, c);
    PutAllConcat(e0, d + a, b);
    PutAllConcat(e0, d, a);
    var e1 := PutAll(e0, d);
    PutPointers(e1, e.compactPointers);
    var e2 := PutAll(e1, a);
    assert e2.deletedFiles + e.deletedFiles == e.deletedFiles;
    PutDeleted(e2, e.deletedFiles);
    var e3 := PutAll(e2, b);
    PutNewFiles(e3, e.newFiles);
    assert e3.newFiles + e.newFiles == e.newFiles;
  }

  lemma PutName(e: Edit, name: Option<Bytes>)
    requires e.comparator == None
    ensures PutAll(e, NameItems(name)) == e.(comparator := name)
  {
    hide PutAll;
    PutOption(e, NameItems(name));
  }

  lemma PutNumber(e: Edit, counter: Counter, number: Option<uint64>)
    ensures counter.LogNumber? && e.logNumber == None ==> PutAll(e, NumberItems(counter, number)) == e.(logNumber := number)
    ensures counter.PrevLogNumber? && e.prevLogNumber == None ==> PutAll(e, NumberItems(counter, number)) == e.(prevLogNumber := number)
    ensures counter.NextFileNumber? && e.nextFileNumber == None ==> PutAll(e, NumberItems(counter, number)) == e.(nextFileNumber := number)
    ensures counter.LastSequence? && e.lastSequence == None ==> PutAll(e, NumberItems(counter, number)) == e.(lastSequence := number)
  {
    hide PutAll;
    PutOption(e, NumberItems(counter, number));
  }

  lemma PutScalars(e: Edit, e0: Edit)
    requires e0 == Cleared(e0.compactPointers)
    ensures PutAll(e0, ScalarItems(e)) == e.(compactPointers := e0.compactPointers, deletedFiles := [], newFiles := [])
  {
    hide PutAll, NameItems, NumberItems;
    var a, b, c := NameItems(e.comparator), NumberItems(LogNumber, e.logNumber), NumberItems(PrevLogNumber, e.prevLogNumber);
    var d, f := NumberItems(NextFileNumber, e.nextFileNumber), NumberItems(LastSequence, e.lastSequence);
    PutAllConcat(e0, a + b + c + d, f);
    PutAllConcat(e0, a + b + c, d);
    PutAllConcat(e0, a + b, c);
    PutAllConcat(e0, a, b);
    PutName(e0, e.comparator);
    var e1 := e0.(comparator := e.comparator);
    PutNumber(e1, LogNumber, e.logNumber);
    var e2 := e1.(logNumber := e.logNumber);
    PutNumber(e2, PrevLogNumber, e.prevLogNumber);
    var e3 := e2.(prevLogNumber := e.prevLogNumber);
    PutNumber(e3, NextFileNumber, e.nextFileNumber);
    PutNumber(e3.(nextFileNumber := e.nextFileNumber), LastSequence, e.lastSequence);
  }

  lemma PutOption(e: Edit, items: seq<Item>)
    requires |items| <= 1
    ensures PutAll(e, items) == if items == [] then e else Put(e, items[0])
  {
  }

  // ----- the class -----

  class VersionEdit {
    var comparator: Option<Bytes>
    var logNumber: Option<uint64>
    var prevLogNumber: Option<uint64>
    var nextFileNumber: Option<uint64>
    var lastSequence: Option<uint64>
    var compactPointers: seq<(nat, Bytes)>
    var deletedFiles: seq<(nat, uint64)>
    var newFiles: seq<(nat, FileMetaData)>

    function Value(): Edit
      reads this
    {
      Edit(comparator, logNumber, prevLogNumber, nextFileNumber, lastSequence, compactPointers, deletedFiles, newFiles)
    }

    constructor ()
      ensures Value() == Cleared([])
    {
      compactPointers := [];
      new;
      Clear();
    }

    /** Forgets everything but the compaction pointers. */
    method Clear()
      modifies this
      ensures Value() == Cleared(old(compactPointers))
    {
      comparator, logNumber, prevLogNumber, nextFileNumber, lastSequence := None, None, None, None, None;
      deletedFiles, newFiles := [], [];
    }

    /** The set of deleted files takes a file only once and keeps its order. */
    method DeleteFile(level: nat, file: uint64)
      requires Ordered(deletedFiles)
      modifies this`deletedFiles
      ensures Ordered(deletedFiles) && forall y :: y in deletedFiles <==> y in old(deletedFiles) || y == (level, file)
    {
      InsertedKeepsOrder(deletedFiles, (level, file));
      deletedFiles := Inserted(deletedFiles, (level, file));
    }

    /** A numeric field, if it is there. */
    method EncodeNumber(dst: Bytes, tag: nat, number: Option<uint64>, ghost counter: Counter) returns (r: Bytes)
      requires tag == CounterTag(counter)
      ensures r == dst + ItemsBytes(NumberItems(counter, number))
    {
      hide EncodeVarint;
      r := dst;
      NothingWritten(dst);
      if number.Some? {
        r := r + EncodeVarint(tag);
        r := r + EncodeVarint(number.value);
        ItemWritten(dst, [], Number(counter, number.value), dst, r);
      }
    }

    /** The fields that occur at most once. */
    method EncodeScalars(dst: Bytes) returns (r: Bytes)
      ensures r == dst + ItemsBytes(ScalarItems(Value()))
    {
      hide ItemsBytes, EncodeVarint, LengthPrefixed;
      r := dst;
      NothingWritten(dst);
      if comparator.Some? {
        r := r + EncodeVarint(TAG_COMPARATOR);
        r := r + LengthPrefixed(comparator.value);
        ItemWritten(dst, [], Comparator(comparator.value), dst, r);
        assert [] + [Comparator(comparator.value)] == NameItems(comparator);
      }
      assert r == dst + ItemsBytes(NameItems(comparator));
      r := EncodeNumber(r, TAG_LOG_NUMBER, logNumber, LogNumber);
      r := EncodeNumber(r, TAG_PREV_LOG_NUMBER, prevLogNumber, PrevLogNumber);
      r := EncodeNumber(r, TAG_NEXT_FILE_NUMBER, nextFileNumber, NextFileNumber);
      r := EncodeNumber(r, TAG_LAST_SEQUENCE, lastSequence, LastSequence);
      ScalarBytes(Value(), dst);
    }

    method EncodeTo(dst: Bytes) returns (r: Bytes)
      ensures r == dst + EncodeEdit(Value())
    {
      hide ItemsBytes, EncodeVarint, LengthPrefixed, ScalarItems;
      ghost var e := Value();
      ghost var scalars, pointers, deleted, added := ScalarItems(e), PointerItems(compactPointers), DeletedItems(deletedFiles), NewItems(newFiles);
      r := EncodeScalars(dst);
      assert scalars + pointers[..0] == scalars;
      for i := 0 to |compactPointers|
        invariant r == dst + ItemsBytes(scalars + pointers[..i])
      {
        var p := compactPointers[i];
        ghost var item, before := CompactPointer(p.0, p.1), r;
        r := r + EncodeVarint(TAG_COMPACT_POINTER);
        r := r + EncodeVarint(p.0);
        r := r + LengthPrefixed(p.1);
        assert r == before + ItemBytes(item);
        ItemWritten(dst, scalars + pointers[..i], item, before, r);
        assert scalars + pointers[..i] + [pointers[i]] == scalars + pointers[..i + 1];
      }
      assert scalars + pointers[..|pointers|] == scalars + pointers + deleted[..0];
      for i := 0 to |deletedFiles|
        invariant r == dst + ItemsBytes(scalars + pointers + deleted[..i])
      {
        var d := deletedFiles[i];
        ghost var item, before := DeletedFile(d.0, d.1), r;
        r := r + EncodeVarint(TAG_DELETED_FILE);
        r := r + EncodeVarint(d.0);
        r := r + EncodeVarint(d.1);
        assert r == before + ItemBytes(item);
        ItemWritten(dst, scalars + pointers + deleted[..i], item, before, r);
        assert scalars + pointers + deleted[..i] + [deleted[i]] == scalars + pointers + deleted[..i + 1];
      }
      assert scalars + pointers + deleted[..|deleted|] == scalars + pointers + deleted + added[..0];
      for i := 0 to |newFiles|
        invariant r == dst + ItemsBytes(scalars + pointers + deleted + added[..i])
      {
        var f := newFiles[i].1;
        ghost var item, before := NewFile(newFiles[i].0, f), r;
        r := r + EncodeVarint(TAG_NEW_FILE);
        r := r + EncodeVarint(newFiles[i].0);
        r := r + EncodeVarint(f.number);
        r := r + EncodeVarint(f.fileSize);
        r := r + LengthPrefixed(f.smallest);
        r := r + LengthPrefixed(f.largest);
        assert r == before + ItemBytes(item);
        ItemWritten(dst, scalars + pointers + deleted + added[..i], item, before, r);
        assert scalars + pointers + deleted + added[..i] + [added[i]] == scalars + pointers + deleted + added[..i + 1];
      }
      assert added[..|added|] == added;
    }

    /** Reads fields until the input ends or something is wrong. */
    method DecodeFrom(src: Bytes) returns (error: Option<string>)
      modifies this
      ensures (Value(), error) == Decoded(Cleared(old(compactPointers)), src)
    {
      hide ParseLevel, ParseVarint64, ParseNumbered, ParseKeyed, ParseNewFile, GetVarint32, GetLengthPrefixed;
      Clear();
      var input := src;
      error := None;
      var more := true;
      ghost var goal := Decoded(Value(), input);
      while error == None && more
        invariant error == None && more ==> Decoded(Value(), input) == goal
        invariant !(error == None && more) ==> (Value(), error) == goal
        decreases error == None && more, |input|
      {
        var tag := GetVarint32(input);
        if tag.None? {
          more := false;
          if input != [] {
            error := Some("invalid tag");
          }
        } else {
          input := input[tag.value.size..];
          error, input := DecodeField(tag.value.value, input);
        }
      }
    }

    /** One field: its value goes into the edit. */
    method DecodeField(tag: nat, src: Bytes) returns (error: Option<string>, input: Bytes)
      modifies this
      ensures
        var item := ParseItem(tag, src);
        if item.Malformed? then Value() == old(Value()) && error == Some(item.message)
        else Value() == Put(old(Value()), item.item) && error == None && input == item.rest
    {
      hide ParseLevel, ParseVarint64, ParseNumbered, ParseKeyed, ParseNewFile, GetLengthPrefixed, Inserted;
      input, error := src, None;
      if tag == TAG_COMPARATOR {
        var str := GetLengthPrefixed(input);
        if str.Some? {
          comparator, input := Some(str.value.0), str.value.1;
        } else {
          error := Some("comparator name");
        }
      } else if tag == TAG_LOG_NUMBER {
        var n := ParseVarint64(input);
        if n.Some? {
          logNumber, input := Some(n.value.0), n.value.1;
        } else {
          error := Some("log number");
        }
      } else if tag == TAG_PREV_LOG_NUMBER {
        var n := ParseVarint64(input);
        if n.Some? {
          prevLogNumber, input := Some(n.value.0), n.value.1;
        } else {
          error := Some("previous log number");
        }
      } else if tag == TAG_NEXT_FILE_NUMBER {
        var n := ParseVarint64(input);
        if n.Some? {
          nextFileNumber, input := Some(n.value.0), n.value.1;
        } else {
          error := Some("next file number");
        }
      } else if tag == TAG_LAST_SEQUENCE {
        var n := ParseVarint64(input);
        if n.Some? {
          lastSequence, input := Some(n.value.0), n.value.1;
        } else {
          error := Some("last sequence number");
        }
      } else if tag == TAG_COMPACT_POINTER {
        var p := ParseKeyed(input);
        if p.Some? {
          compactPointers, input := compactPointers + [p.value.0], p.value.1;
        } else {
          error := Some("compaction pointer");
        }
      } else if tag == TAG_DELETED_FILE {
        var d := ParseNumbered(input);
        if d.Some? {
          deletedFiles, input := Inserted(deletedFiles, d.value.0), d.value.1;
        } else {
          error := Some("deleted file");
        }
      } else if tag == TAG_NEW_FILE {
        var f := ParseNewFile(input);
        if f.Some? {
          newFiles, input := newFiles + [f.value.0], f.value.1;
        } else {
          error := Some("new-file entry");
        }
      } else {
        error := Some("unknown tag");
      }
    }
  }

  lemma NothingWritten(dst: Bytes)
    ensures dst + ItemsBytes([]) == dst
  {
  }

  lemma {:induction false} ItemsBytesAppend(items: seq<Item>, item: Item)
    ensures ItemsBytes(items + [item]) == ItemsBytes(items) + ItemBytes(item)
    decreases |items|
  {
    hide ItemBytes;
    if items == [] {
      assert [item][1..] == [];
      NothingWritten(ItemBytes(item));
    } else {
      assert (items + [item])[1..] == items[1..] + [item];
      ItemsBytesAppend(items[1..], item);
    }
  }

  lemma ItemWritten(dst: Bytes, items: seq<Item>, item: Item, before: Bytes, after: Bytes)
    requires before == dst + ItemsBytes(items) && after == before + ItemBytes(item)
    ensures after == dst + ItemsBytes(items + [item])
  {
    hide ItemBytes, ItemsBytes;
    ItemsBytesAppend(items, item);
  }

  lemma {:induction false} ItemsBytesConcat(a: seq<Item>, b: seq<Item>)
    ensures ItemsBytes(a + b) == ItemsBytes(a) + ItemsBytes(b)
    decreases |a|
  {
    hide ItemBytes;
    if a == [] {
      assert a + b == b;
    } else {
      assert (a + b)[1..] == a[1..] + b;
      ItemsBytesConcat(a[1..], b);
    }
  }

  lemma ScalarBytes(e: Edit, dst: Bytes)
    ensures dst + ItemsBytes(ScalarItems(e)) ==
      dst + ItemsBytes(NameItems(e.comparator)) + ItemsBytes(NumberItems(LogNumber, e.logNumber))
      + ItemsBytes(NumberItems(PrevLogNumber, e.prevLogNumber)) + ItemsBytes(NumberItems(NextFileNumber, e.nextFileNumber))
      + ItemsBytes(NumberItems(LastSequence, e.lastSequence))
  {
    hide ItemsBytes, NameItems, NumberItems;
    var a, b, c := NameItems(e.comparator), NumberItems(LogNumber, e.logNumber), NumberItems(PrevLogNumber, e.prevLogNumber);
    var d, f := NumberItems(NextFileNumber, e.nextFileNumber), NumberItems(LastSequence, e.lastSequence);
    ItemsBytesConcat(a + b + c + d, f);
    ItemsBytesConcat(a + b + c, d);
    ItemsBytesConcat(a + b, c);
    ItemsBytesConcat(a, b);
  }
}

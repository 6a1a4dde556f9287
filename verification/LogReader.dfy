/** Reading the log back.  The reader's two loops are methods proved against the functions
    NextPhysical and NextRecord over arbitrary bytes; the lemmas say what these give on a
    log a writer left, whole or cut off anywhere. */
module LogReader {
  import opened Options
  import opened Coding
  import opened Crc32c
  import opened LogFormat

  /** How far the file has been read, what is buffered of it, whether its end was seen. */
  datatype State = State(filePos: nat, buffer: Bytes, eof: bool)

  /** What ReadPhysicalRecord answers instead of a type at the end of the file and for a bad
      record.  A record with one of these type bytes cannot be told from that. */
  const EOF_TYPE := LAST_TYPE + 1
  const BAD_TYPE := LAST_TYPE + 2

  datatype Read = Eof | BadRecord(reported: bool) | Fragment(p: Physical)

  function Min(a: nat, b: nat): nat {
    if a < b then a else b
  }

  /** One more block, when the buffer has no room for a header. */
  function Refill(file: Bytes, st: State): (st': State)
    requires st.filePos <= |file|
    ensures st'.filePos <= |file|
  {
    if |st.buffer| < HEADER_SIZE && !st.eof then
      var chunk := file[st.filePos..Min(st.filePos + BLOCK_SIZE, |file|)];
      State(st.filePos + |chunk|, chunk, |chunk| < BLOCK_SIZE)
    else st
  }

  function NextPhysical(crc: Crc, checksum: bool, file: Bytes, st: State): (r: (State, Read))
    requires st.filePos <= |file|
    ensures r.0.filePos <= |file|
    ensures !r.1.Eof? ==> Remaining(file, r.0) < Remaining(file, st)
  {
    var s := Refill(file, st);
    if |s.buffer| < HEADER_SIZE then (s.(buffer := []), Eof)
    else ParseHeader(crc, checksum, s)
  }

  function ParseHeader(crc: Crc, checksum: bool, s: State): (r: (State, Read))
    requires |s.buffer| >= HEADER_SIZE
    ensures r.0.filePos == s.filePos && |r.0.buffer| < |s.buffer|
  {
    var low: int, high: int := s.buffer[4], s.buffer[5];
    var length, kind := low + 256 * high, s.buffer[6];
    if HEADER_SIZE + length > |s.buffer| then (s.(buffer := []), if s.eof then Eof else BadRecord(true))
    else if kind == ZERO_TYPE && length == 0 then (s.(buffer := []), BadRecord(false))
    else if checksum && Unmask(DecodeFixed32(s.buffer[..4])) != crc(s.buffer[6..HEADER_SIZE + length]) then
      (s.(buffer := []), BadRecord(true))
    else
      (s.(buffer := s.buffer[HEADER_SIZE + length..]), Fragment(Physical(kind, s.buffer[HEADER_SIZE..HEADER_SIZE + length])))
  }

  function Remaining(file: Bytes, st: State): nat
    requires st.filePos <= |file|
  {
    |file| - st.filePos + |st.buffer|
  }

  /** The record being put together: its fragments so far, and corruption reports. */
  datatype Partial = Partial(scratch: Bytes, inFragment: bool, reports: nat)

  datatype Outcome = Continue(partial: Partial) | Done(record: Bytes, reports: nat) | Stop(reports: nat)

  function Report(b: bool): nat {
    if b then 1 else 0
  }

  /** A bad record ends the record being put together. */
  function GiveUp(w: Partial): Partial {
    if w.inFragment then Partial([], false, w.reports + 1) else w
  }

  /** What one physical record does to the record being put together. */
  function Assemble(r: Read, w: Partial): Outcome {
    match r
    case Eof => Stop(w.reports)
    case BadRecord(reported) =>
      Continue(GiveUp(w.(reports := w.reports + Report(reported))))
    case Fragment(p) =>
      if p.kind == FULL_TYPE then Done(p.payload, w.reports + Report(w.inFragment && w.scratch != []))
      else if p.kind == FIRST_TYPE then Continue(Partial(p.payload, true, w.reports + Report(w.inFragment && w.scratch != [])))
      else if p.kind == MIDDLE_TYPE then
        Continue(if w.inFragment then w.(scratch := w.scratch + p.payload) else w.(reports := w.reports + 1))
      else if p.kind == LAST_TYPE then
        if w.inFragment then Done(w.scratch + p.payload, w.reports) else Continue(w.(reports := w.reports + 1))
      else if p.kind == EOF_TYPE then Stop(w.reports)
      else if p.kind == BAD_TYPE then Continue(GiveUp(w))
      else Continue(Partial([], false, w.reports + 1))
  }

  function NextRecord(crc: Crc, checksum: bool, file: Bytes, st: State, w: Partial): (r: (State, Option<Bytes>, nat))
    requires st.filePos <= |file|
    ensures r.0.filePos <= |file|
    ensures r.1.Some? ==> Remaining(file, r.0) < Remaining(file, st)
    decreases Remaining(file, st)
  {
    var (st', p) := NextPhysical(crc, checksum, file, st);
    match Assemble(p, w)
    case Stop(reports) => (st', None, reports)
    case Done(record, reports) => (st', Some(record), reports)
    case Continue(w') => NextRecord(crc, checksum, file, st', w')
  }

  /** Everything a loop over ReadRecord gets. */
  function AllRecords(crc: Crc, checksum: bool, file: Bytes, st: State): (seq<Bytes>, nat)
    requires st.filePos <= |file|
    decreases Remaining(file, st)
  {
    var (st', r, reports) := NextRecord(crc, checksum, file, st, Partial([], false, 0));
    if r.None? then ([], reports)
    else
      var (rest, more) := AllRecords(crc, checksum, file, st');
      ([r.value] + rest, reports + more)
  }

  lemma OneStep(crc: Crc, checksum: bool, file: Bytes, st: State, w: Partial)
    requires st.filePos <= |file|
    ensures
      var (st', p) := NextPhysical(crc, checksum, file, st);
      NextRecord(crc, checksum, file, st, w)
        == match Assemble(p, w)
           case Stop(reports) => (st', None, reports)
           case Done(record, reports) => (st', Some(record), reports)
           case Continue(w') => NextRecord(crc, checksum, file, st', w')
  {
  }

  // ----- the reader -----

  class Reader {
    const crc: Crc
    const checksum: bool
    const file: Bytes
    var filePos: nat
    var buffer: Bytes
    var eof: bool
    var reports: nat

    ghost predicate Valid()
      reads this
    {
      filePos <= |file|
    }

    ghost function Where(): State
      reads this
    {
      State(filePos, buffer, eof)
    }

    constructor (crc: Crc, checksum: bool, file: Bytes)
      ensures Valid() && this.crc == crc && this.checksum == checksum && this.file == file
      ensures Where() == State(0, [], false) && reports == 0
    {
      this.crc, this.checksum, this.file := crc, checksum, file;
      filePos, buffer, eof, reports := 0, [], false, 0;
    }

    method ReadPhysicalRecord() returns (r: Read)
      requires Valid()
      modifies this`filePos, this`buffer, this`eof, this`reports
      ensures Valid() && (Where(), r) == NextPhysical(crc, checksum, file, old(Where()))
      ensures reports == old(reports) + Report(r.BadRecord? && r.reported)
    {
      hide Unmask, DecodeFixed32;
      while |buffer| < HEADER_SIZE
        invariant Valid() && reports == old(reports)
        invariant Where() == old(Where()) || (Where() == Refill(file, old(Where())) && |old(buffer)| < HEADER_SIZE && !old(eof))
        decreases !eof, |file| - filePos
      {
        if eof {
          buffer := [];
          return Eof;
        }
        buffer := file[filePos..Min(filePos + BLOCK_SIZE, |file|)];
        filePos := filePos + |buffer|;
        if |buffer| < BLOCK_SIZE {
          eof := true;
        }
      }
      var low: int, high: int := buffer[4], buffer[5];
      var length, kind := low + 256 * high, buffer[6];
      if HEADER_SIZE + length > |buffer| {
        buffer := [];
        if !eof {
          reports := reports + 1;
          return BadRecord(true);
        }
        return Eof;
      }
      if kind == ZERO_TYPE && length == 0 {
        buffer := [];
        return BadRecord(false);
      }
      if checksum {
        var expected := Unmask(DecodeFixed32(buffer[..4]));
        var actual := crc(buffer[6..HEADER_SIZE + length]);
        if actual != expected {
          buffer := [];
          reports := reports + 1;
          return BadRecord(true);
        }
      }
      var payload := buffer[HEADER_SIZE..HEADER_SIZE + length];
      buffer := buffer[HEADER_SIZE + length..];
      r := Fragment(Physical(kind, payload));
    }

    method ReadRecord() returns (record: Option<Bytes>)
      requires Valid()
      modifies this
      ensures Valid()
      ensures
        var r := NextRecord(crc, checksum, file, old(Where()), Partial([], false, old(reports)));
        Where() == r.0 && record == r.1 && reports == r.2
    {
      hide NextPhysical, NextRecord;
      var scratch: Bytes := [];
      var inFragmentedRecord := false;
      ghost var all := NextRecord(crc, checksum, file, Where(), Partial([], false, reports));
      while true
        invariant Valid()
        invariant NextRecord(crc, checksum, file, Where(), Partial(scratch, inFragmentedRecord, reports)) == all
        decreases Remaining(file, Where())
      {
        ghost var st, w := Where(), Partial(scratch, inFragmentedRecord, reports);
        var r := ReadPhysicalRecord();
        OneStep(crc, checksum, file, st, w);
        match r {
          case Eof =>
            return None;
          case BadRecord(_) =>
            if inFragmentedRecord {
              reports := reports + 1;
              inFragmentedRecord := false;
              scratch := [];
            }
          case Fragment(p) =>
            if p.kind == FULL_TYPE {
              if inFragmentedRecord && scratch != [] {
                reports := reports + 1;
              }
              return Some(p.payload);
            } else if p.kind == FIRST_TYPE {
              if inFragmentedRecord && scratch != [] {
                reports := reports + 1;
              }
              scratch := p.payload;
              inFragmentedRecord := true;
            } else if p.kind == MIDDLE_TYPE {
              if !inFragmentedRecord {
                reports := reports + 1;
              } else {
                scratch := scratch + p.payload;
              }
            } else if p.kind == LAST_TYPE {
              if !inFragmentedRecord {
                reports := reports + 1;
              } else {
                scratch := scratch + p.payload;
                return Some(scratch);
              }
            } else if p.kind == EOF_TYPE {
              return None;
            } else if p.kind == BAD_TYPE {
              if inFragmentedRecord {
                reports := reports + 1;
                inFragmentedRecord := false;
                scratch := [];
              }
            } else {
              reports := reports + 1;
              inFragmentedRecord := false;
              scratch := [];
            }
        }
      }
    }
  }
}

/** The batches of a write-ahead log and the bytes they are logged as: what a log file,
    whole or cut off, says was written. */
module LogBytes {
  import opened BatchReads
  import opened Coding
  import opened Crc32c
  import opened DbFormat
  import opened Tables
  import opened VersionBuilder
  import opened Recovery
  import opened LogFormat
  import opened LogRoundTrip
  import opened Ranks
  import LogWriter
  import WriteBatches

  /** The record is a batch with these entries, numbered no higher than top. */
  ghost predicate IsBatch(rank: Rank, record: Bytes, batch: seq<Entry>, top: nat) {
    exists sequence: uint64, ops :: IsBatchOf(rank, record, batch, top, sequence, ops)
  }

  ghost predicate IsBatchOf(rank: Rank, record: Bytes, batch: seq<Entry>, top: nat, sequence: uint64, ops: seq<WriteBatches.Op>) {
    && WriteBatches.Encodable(ops) && record == WriteBatches.Rep(sequence, ops)
    && batch == BatchEntries(rank, sequence, ops)
    && 0 < sequence && sequence + |ops| - 1 <= top
  }

  /** The records are the batches of the log. */
  ghost predicate AreBatches(rank: Rank, records: seq<Bytes>, log: Log, top: nat) {
    |records| == |log| && forall i :: 0 <= i < |log| ==> IsBatch(rank, records[i], log[i], top)
  }

  /** The file holds the batches of the log as whole records, and perhaps the front of one
      more record. */
  ghost predicate OnDiskAs(crc: Crc, rank: Rank, file: Bytes, log: Log, top: nat, l: CutLog) {
    l.Ok(crc) && file == l.file[..l.n] && l.Count() <= |l.records| && AreBatches(rank, l.records[..l.Count()], log, top)
  }

  ghost predicate OnDisk(crc: Crc, rank: Rank, file: Bytes, log: Log, top: nat) {
    exists l :: OnDiskAs(crc, rank, file, log, top, l)
  }

  /** The log files there are, and what they hold. */
  ghost predicate LogsOnDisk(crc: Crc, rank: Rank, logFiles: map<nat, Bytes>, logs: map<nat, Log>, top: nat) {
    logFiles.Keys == logs.Keys && forall n :: n in logs ==> OnDisk(crc, rank, logFiles[n], logs[n], top)
  }

  ghost function NumbersOnDisk(tables: set<Table>): set<nat> {
    set t | t in tables :: t.number
  }

  /** The manifest's records, the log files and the tables a crash of d leaves; a log may
      end in the front of a record that was being appended. */
  ghost predicate DiskHolds(crc: Crc, rank: Rank, records: seq<Edit>, logFiles: map<nat, Bytes>, onDisk: set<nat>, d: Db) {
    && records == d.manifest && onDisk == NumbersOnDisk(d.tables)
    && LogsOnDisk(crc, rank, logFiles, d.logs, d.lsm.nextSeq + |d.batch|)
  }

  // ----- writing -----

  lemma MoreBatches(rank: Rank, records: seq<Bytes>, log: Log, top: nat, record: Bytes, batch: seq<Entry>)
    requires AreBatches(rank, records, log, top) && IsBatch(rank, record, batch, top)
    ensures AreBatches(rank, records + [record], log + [batch], top)
  {
    hide IsBatch;
  }

  /** A file that was being appended to counts the new record once it is whole. */
  lemma CountAppended(groups: seq<seq<Physical>>, m: nat)
    requires groups != [] && End(Flatten(groups[..|groups| - 1])) <= m <= End(Flatten(groups))
    ensures Whole(groups, m) == if m == End(Flatten(groups)) then |groups| else |groups| - 1
  {
    hide Flatten, End;
  }

  lemma AppendCut(crc: Crc, rank: Rank, before: Bytes, groups: seq<seq<Physical>>, records: seq<Bytes>, after: Bytes, log: Log, top: nat,
      longer: Log, top': nat, m: nat)
    requires groups != [] && |records| == |groups|
    requires LogOf(crc, before, groups[..|groups| - 1], records[..|groups| - 1]) && LogOf(crc, after, groups, records)
    requires AreBatches(rank, records[..|groups| - 1], log, top) && AreBatches(rank, records, longer, top') && |before| <= m <= |after|
    ensures if m == |after| then OnDisk(crc, rank, after[..m], longer, top') else OnDisk(crc, rank, after[..m], log, top)
  {
    hide FileOf, Fits, Flatten, IsFragments, Whole, End, AreBatches;
    CountAppended(groups, m);
    var l := CutLog(after, groups, records, m);
    assert records[..|groups|] == records;
    if m == |after| {
      assert OnDiskAs(crc, rank, after[..m], longer, top', l);
    } else {
      assert OnDiskAs(crc, rank, after[..m], log, top, l);
    }
  }

  lemma HigherTop(rank: Rank, records: seq<Bytes>, log: Log, top: nat, top': nat)
    requires AreBatches(rank, records, log, top) && top <= top'
    ensures AreBatches(rank, records, log, top')
  {
    hide IsBatch, IsBatchOf;
    forall i | 0 <= i < |log| ensures IsBatch(rank, records[i], log[i], top') {
      assert IsBatch(rank, records[i], log[i], top);
      BatchHigherTop(rank, records[i], log[i], top, top');
    }
  }

  lemma BatchHigherTop(rank: Rank, record: Bytes, batch: seq<Entry>, top: nat, top': nat)
    requires IsBatch(rank, record, batch, top) && top <= top'
    ensures IsBatch(rank, record, batch, top')
  {
    var sequence: uint64, ops :| IsBatchOf(rank, record, batch, top, sequence, ops);
    assert IsBatchOf(rank, record, batch, top', sequence, ops);
  }

  lemma OnDiskHigherTop(crc: Crc, rank: Rank, file: Bytes, log: Log, top: nat, top': nat)
    requires OnDisk(crc, rank, file, log, top) && top <= top'
    ensures OnDisk(crc, rank, file, log, top')
  {
    hide AreBatches, CutLog.Ok, CutLog.Count;
    var l :| OnDiskAs(crc, rank, file, log, top, l);
    HigherTop(rank, l.records[..l.Count()], log, top, top');
    assert OnDiskAs(crc, rank, file, log, top', l);
  }

  /** Logs a batch.  Whatever byte the file is cut off after from then on, it holds the log
      as it was or the log with the batch, and the batch only when all of it is there. */
  method AppendBatch(writer: LogWriter.Writer, batch: WriteBatches.WriteBatch, ghost rank: Rank, ghost log: Log, ghost top: nat, ghost top': nat)
    requires writer.Valid() && AreBatches(rank, writer.records, log, top) && top <= top'
    requires batch.Valid() && 0 < batch.sequence && batch.sequence + |batch.ops| - 1 <= top'
    modifies writer
    ensures writer.Valid() && old(writer.dest) <= writer.dest
    ensures
      var longer := log + [BatchEntries(rank, batch.sequence, batch.ops)];
      && AreBatches(rank, writer.records, longer, top')
      && forall m :: |old(writer.dest)| <= m <= |writer.dest| ==>
           if m == |writer.dest| then OnDisk(writer.crc, rank, writer.dest[..m], longer, top')
           else OnDisk(writer.crc, rank, writer.dest[..m], log, top)
  {
    hide FileOf, Fits, Flatten, IsFragments, OnDisk, IsBatch, AreBatches;
    ghost var before, records := writer.dest, writer.records;
    ghost var entries := BatchEntries(rank, batch.sequence, batch.ops);
    assert IsBatch(rank, batch.rep, entries, top') by { RecordIsBatch(rank, batch.rep, entries, top', batch.sequence, batch.ops); }
    HigherTop(rank, records, log, top, top');
    MoreBatches(rank, records, log, top', batch.rep, entries);
    writer.AddRecord(batch.rep);
    assert writer.records[..|records|] == records;
    forall m | |before| <= m <= |writer.dest|
      ensures if m == |writer.dest| then OnDisk(writer.crc, rank, writer.dest[..m], log + [entries], top')
        else OnDisk(writer.crc, rank, writer.dest[..m], log, top)
    {
      AppendCut(writer.crc, rank, before, writer.groups, writer.records, writer.dest, log, top, log + [entries], top', m);
    }
  }

  /** Appending a batch to the current log: at every byte where a crash may cut it short the
      disk holds the database as it was, at the end the database with the batch appended. */
  method AppendToLog(writer: LogWriter.Writer, batch: WriteBatches.WriteBatch, ghost rank: Rank, ghost d: Db,
                     ghost records: seq<Edit>, ghost logFiles: map<nat, Bytes>, ghost onDisk: set<nat>)
    requires writer.Valid() && batch.Valid() && DiskHolds(writer.crc, rank, records, logFiles, onDisk, d)
    requires d.batch == [] && d.lsm.nextSeq == d.lsm.lastSeq && d.logfileNumber in d.logs
    requires logFiles[d.logfileNumber] == writer.dest && AreBatches(rank, writer.records, d.logs[d.logfileNumber], d.lsm.nextSeq)
    requires batch.sequence == d.lsm.lastSeq + 1 && d.lsm.lastSeq + |batch.ops| < MAX_SEQUENCE
    modifies writer
    ensures writer.Valid() && old(writer.dest) <= writer.dest
    ensures
      var step := Append(BatchEntries(rank, batch.sequence, batch.ops));
      && DbEnabled(d, step)
      && AreBatches(rank, writer.records, DbApply(d, step).logs[d.logfileNumber], d.lsm.nextSeq + |batch.ops|)
      && forall m :: |old(writer.dest)| <= m <= |writer.dest| ==>
           DiskHolds(writer.crc, rank, records, logFiles[d.logfileNumber := writer.dest[..m]], onDisk,
                     if m == |writer.dest| then DbApply(d, step) else d)
  {
    hide OnDisk, AreBatches, NumbersOnDisk, LogWriter.Writer.Valid, WriteBatches.WriteBatch.Valid;
    ghost var before, entries := writer.dest, BatchEntries(rank, batch.sequence, batch.ops);
    ghost var n, top, top' := d.logfileNumber, d.lsm.nextSeq, d.lsm.nextSeq + |batch.ops|;
    AppendBatch(writer, batch, rank, d.logs[n], top, top');
    forall m | |before| <= m <= |writer.dest|
      ensures DiskHolds(writer.crc, rank, records, logFiles[n := writer.dest[..m]], onDisk,
                if m == |writer.dest| then DbApply(d, Append(entries)) else d)
    {
      if m == |writer.dest| {
        assert DbApply(d, Append(entries)).logs == d.logs[n := d.logs[n] + [entries]];
        forall x | x in d.logs ensures OnDisk(writer.crc, rank, logFiles[x], d.logs[x], top') {
          OnDiskHigherTop(writer.crc, rank, logFiles[x], d.logs[x], top, top');
        }
      }
    }
  }

  lemma RecordIsBatch(rank: Rank, record: Bytes, batch: seq<Entry>, top: nat, sequence: uint64, ops: seq<WriteBatches.Op>)
    requires IsBatchOf(rank, record, batch, top, sequence, ops)
    ensures IsBatch(rank, record, batch, top)
  {
    hide IsBatchOf;
  }

  // ----- reading -----

  /** The bytes of a batch belong to no other. */
  lemma SameBatch(sequence: uint64, ops: seq<WriteBatches.Op>, sequence': uint64, ops': seq<WriteBatches.Op>)
    requires WriteBatches.Encodable(ops) && WriteBatches.Encodable(ops')
    requires WriteBatches.Rep(sequence, ops) == WriteBatches.Rep(sequence', ops')
    ensures sequence == sequence' && ops == ops'
  {
    hide WriteBatches.Rep, WriteBatches.Parse, DecodeFixed32, DecodeFixed64;
    WriteBatches.BatchRoundTrip(sequence, ops);
    WriteBatches.BatchRoundTrip(sequence', ops');
  }

  /** What one record adds to the memtable, and the last number it uses up.  After it reads
      find what the operations of the batch in the record left. */
  method ReadBatch(rank: Rank, record: Bytes, ghost batch: seq<Entry>, ghost top: nat) returns (entries: seq<Entry>, lastSeq: nat)
    requires IsBatch(rank, record, batch, top)
    ensures entries == batch && lastSeq <= top
    ensures batch != [] ==> lastSeq == batch[|batch| - 1].key.seqno
    ensures forall sequence: uint64, ops :: Injective(rank) && WriteBatches.Encodable(ops) && record == WriteBatches.Rep(sequence, ops) ==>
              Plays(rank, entries, sequence, ops)
  {
    hide WriteBatches.Rep, Plays;
    ghost var sequence: uint64, ops :| IsBatchOf(rank, record, batch, top, sequence, ops);
    var b := new WriteBatches.WriteBatch();
    b.SetContents(record, sequence, ops);
    var added, status := b.InsertInto();
    entries := seq(|added|, i requires 0 <= i < |added| => EntryFor(rank, added[i].0, added[i].1));
    var first := b.Sequence();
    var count := b.Count();
    lastSeq := first + count - 1;
    assert entries == BatchEntries(rank, sequence, ops);
    forall sequence': uint64, ops' | Injective(rank) && WriteBatches.Encodable(ops') && record == WriteBatches.Rep(sequence', ops')
      ensures Plays(rank, entries, sequence', ops')
    {
      SameBatch(sequence, ops, sequence', ops');
      BatchPlays(rank, sequence, ops);
    }
  }
}

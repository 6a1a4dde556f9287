/** Table files as a version sees them: number, size, smallest and largest internal
    key, and the entries the file holds. */
module Tables {
  import opened DbFormat

  const NUM_LEVELS := 7

  datatype Table = Table(number: nat, size: nat, smallest: InternalKey, largest: InternalKey, entries: set<Entry>)
  {
    function Lo(): UserKey { smallest.ukey }

    function Hi(): UserKey { largest.ukey }

    /** k lies in the user-key range of the file. */
    predicate Covers(k: UserKey) {
      Lo() <= k <= Hi()
    }

    /** The user-key range of the file meets [lo, hi]. */
    predicate Overlaps(lo: UserKey, hi: UserKey) {
      lo <= Hi() && Lo() <= hi
    }

    /** smallest and largest are the keys of the first and the last entry. */
    ghost predicate Valid() {
      && (exists e :: e in entries && e.key == smallest)
      && (exists e :: e in entries && e.key == largest)
      && (forall e :: e in entries ==> !Less(e.key, smallest) && !Less(largest, e.key) && e.key.seqno <= MAX_SEQUENCE)
    }
  }

  type Files = seq<Table>

  /** A version: the files of each level. */
  type Levels = ls: seq<Files> | |ls| == NUM_LEVELS witness seq(NUM_LEVELS, i => [])

  ghost predicate ValidFiles(files: Files) {
    forall t :: t in files ==> t.Valid()
  }

  lemma ValidTableRange(t: Table)
    requires t.Valid()
    ensures !Less(t.largest, t.smallest) && t.Lo() <= t.Hi()
    ensures t.entries != {}
    ensures forall e :: e in t.entries ==> t.Covers(e.key.ukey)
  {
    var e :| e in t.entries && e.key == t.smallest;
    assert !Less(t.largest, e.key);
  }

  /** Files of a level above 0: in key order and pairwise disjoint. */
  predicate SortedLevel(files: Files) {
    forall i, j :: 0 <= i < j < |files| ==> Less(files[i].largest, files[j].smallest)
  }

  predicate NonEmptyRanges(files: Files) {
    forall t :: t in files ==> !Less(t.largest, t.smallest)
  }

  lemma ValidFilesHaveRanges(files: Files)
    requires ValidFiles(files)
    ensures NonEmptyRanges(files)
  {
    forall t | t in files ensures !Less(t.largest, t.smallest) {
      ValidTableRange(t);
    }
  }

  /** Sequence numbers that fit the 56 bits of the tag. */
  predicate SequencesFit(files: Files) {
    forall t :: t in files ==> t.largest.seqno <= MAX_SEQUENCE
  }

  predicate NoDuplicates(files: Files) {
    forall i, j :: 0 <= i < j < |files| ==> files[i] != files[j]
  }

  /** The entries of a list of files. */
  ghost function EntriesOf(files: Files): (es: set<Entry>)
    ensures forall e :: e in es <==> exists t :: t in files && e in t.entries
  {
    set t, e | t in files && e in t.entries :: e
  }

  /** No file of level L + 2 or deeper covers k. */
  predicate BaseLevel(v: Levels, level: nat, k: UserKey) {
    forall m, t :: level + 2 <= m < NUM_LEVELS && t in v[m] ==> !t.Covers(k)
  }
}

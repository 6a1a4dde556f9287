/** Searching the files of one level: which file may hold a key, which files meet a
    range of user keys, and the level a flushed memtable goes to. */
module VersionSearch {
  import opened Options
  import opened DbFormat
  import opened Tables

  // ----- one key -----

  /** Binary search for the first file whose largest key is not before the target. */
  method FindFile(files: Files, key: InternalKey) returns (index: nat)
    requires SortedLevel(files) && NonEmptyRanges(files)
    ensures index <= |files|
    ensures forall i :: 0 <= i < index ==> Less(files[i].largest, key)
    ensures index < |files| ==> !Less(files[index].largest, key)
  {
    var left, right := 0, |files|;
    while left < right
      invariant left <= right <= |files|
      invariant forall i :: 0 <= i < left ==> Less(files[i].largest, key)
      invariant right < |files| ==> !Less(files[right].largest, key)
    {
      var mid := (left + right) / 2;
      if Less(files[mid].largest, key) {
        forall i | 0 <= i < mid ensures Less(files[i].largest, key) {
          assert files[mid] in files;
        }
        left := mid + 1;
      } else {
        right := mid;
      }
    }
    index := right;
  }

  // ----- a range of user keys, open ended on either side -----

  predicate AfterFile(begin: Option<UserKey>, t: Table) {
    begin.Some? && begin.value > t.Hi()
  }

  predicate BeforeFile(end: Option<UserKey>, t: Table) {
    end.Some? && end.value < t.Lo()
  }

  predicate Meets(t: Table, begin: Option<UserKey>, end: Option<UserKey>) {
    !AfterFile(begin, t) && !BeforeFile(end, t)
  }

  predicate SomeMeets(files: Files, begin: Option<UserKey>, end: Option<UserKey>) {
    exists t :: t in files && Meets(t, begin, end)
  }

  /** Does some file meet the range?  A linear scan for level 0, one binary search for
      the sorted levels. */
  method SomeFileOverlapsRange(disjointSortedFiles: bool, files: Files, begin: Option<UserKey>, end: Option<UserKey>)
    returns (overlap: bool)
    requires disjointSortedFiles ==> SortedLevel(files) && NonEmptyRanges(files) && SequencesFit(files)
    ensures overlap <==> SomeMeets(files, begin, end)
  {
    if !disjointSortedFiles {
      for i := 0 to |files|
        invariant forall j :: 0 <= j < i ==> !Meets(files[j], begin, end)
      {
        if !(AfterFile(begin, files[i]) || BeforeFile(end, files[i])) {
          assert files[i] in files;
          return true;
        }
      }
      return false;
    }
    var index := 0;
    if begin.Some? {
      index := FindFile(files, InternalKey(begin.value, MAX_SEQUENCE, Put));
      forall i | 0 <= i < index ensures AfterFile(begin, files[i]) {
        assert files[i] in files;
      }
    }
    if index >= |files| {
      return false;
    }
    overlap := !BeforeFile(end, files[index]);
    assert files[index] in files;
    forall j | index < j < |files| ensures BeforeFile(end, files[index]) ==> BeforeFile(end, files[j]) {
      assert Less(files[index].largest, files[j].smallest);
    }
  }

  function TotalFileSize(files: Files): nat {
    if files == [] then 0 else TotalFileSize(files[..|files| - 1]) + files[|files| - 1].size
  }

  /** The files of a level that meet the range, in their order. */
  function Overlapping(files: Files, begin: Option<UserKey>, end: Option<UserKey>): Files {
    if files == [] then []
    else
      var t := files[|files| - 1];
      Overlapping(files[..|files| - 1], begin, end) + if Meets(t, begin, end) then [t] else []
  }

  lemma {:induction false} OverlappingMembers(files: Files, begin: Option<UserKey>, end: Option<UserKey>)
    ensures forall t :: t in Overlapping(files, begin, end) <==> t in files && Meets(t, begin, end)
    ensures NoDuplicates(files) ==> NoDuplicates(Overlapping(files, begin, end))
  {
    if files != [] {
      var rest, t := files[..|files| - 1], files[|files| - 1];
      OverlappingMembers(rest, begin, end);
      assert files == rest + [t];
      if NoDuplicates(files) {
        assert t !in rest;
      }
    }
  }

  // ----- growing a range until it is closed under overlap -----

  predicate BeginsBy(c: Option<UserKey>, begin: Option<UserKey>) {
    c.None? || (begin.Some? && c.value <= begin.value)
  }

  predicate EndsBy(d: Option<UserKey>, end: Option<UserKey>) {
    d.None? || (end.Some? && end.value <= d.value)
  }

  predicate ContainsRange(c: Option<UserKey>, d: Option<UserKey>, begin: Option<UserKey>, end: Option<UserKey>) {
    BeginsBy(c, begin) && EndsBy(d, end)
  }

  /** Every file meeting [c, d] lies inside it. */
  predicate ClosedRange(files: Files, c: Option<UserKey>, d: Option<UserKey>) {
    forall t :: t in files && Meets(t, c, d) ==> ContainsRange(c, d, Some(t.Lo()), Some(t.Hi()))
  }

  /** Every key that [c, d] has and [begin, end] has not is covered by a file. */
  ghost predicate GrownByFiles(files: Files, begin: Option<UserKey>, end: Option<UserKey>, c: Option<UserKey>, d: Option<UserKey>) {
    forall k :: ContainsRange(c, d, Some(k), Some(k)) && !ContainsRange(begin, end, Some(k), Some(k))
      ==> exists t :: t in files && t.Covers(k)
  }

  /** Every closed range that contains begin, end also contains c, d. */
  ghost predicate BelowClosedRanges(files: Files, begin: Option<UserKey>, end: Option<UserKey>, c: Option<UserKey>, d: Option<UserKey>) {
    forall p, q :: ContainsRange(p, q, begin, end) && ClosedRange(files, p, q) ==> ContainsRange(p, q, c, d)
  }

  /** c, d is the least closed range containing begin, end. */
  ghost predicate LeastClosedRange(files: Files, begin: Option<UserKey>, end: Option<UserKey>, c: Option<UserKey>, d: Option<UserKey>) {
    ContainsRange(c, d, begin, end) && ClosedRange(files, c, d) && BelowClosedRanges(files, begin, end, c, d)
  }

  /** Files starting before c, and files ending after d: what the restarts use up. */
  ghost function StartBefore(files: Files, c: Option<UserKey>): set<Table> {
    set t | t in files && c.Some? && t.Lo() < c.value
  }

  ghost function EndAfter(files: Files, d: Option<UserKey>): set<Table> {
    set t | t in files && d.Some? && d.value < t.Hi()
  }

  /** All files of a level that meet the range.  In level 0 a file reaching beyond the
      range widens it and restarts the search; the range the search ends with is the
      least one closed under overlap. */
  method GetOverlappingInputs(level: nat, files: Files, begin: Option<UserKey>, end: Option<UserKey>)
    returns (inputs: Files, ghost c: Option<UserKey>, ghost d: Option<UserKey>)
    ensures level > 0 ==> c == begin && d == end
    ensures level == 0 ==> LeastClosedRange(files, begin, end, c, d) && GrownByFiles(files, begin, end, c, d)
    ensures inputs == Overlapping(files, c, d)
  {
    hide BelowClosedRanges, GrownByFiles, Overlapping, ClosedRange, StartBefore, EndAfter;
    inputs := [];
    var userBegin, userEnd := begin, end;
    StartOfGrowth(files, begin, end);
    NoneOverlapping(files);
    var i := 0;
    while i < |files|
      invariant i <= |files|
      invariant level > 0 ==> userBegin == begin && userEnd == end
      invariant begin.None? <==> userBegin.None?
      invariant end.None? <==> userEnd.None?
      invariant ContainsRange(userBegin, userEnd, begin, end)
      invariant BelowClosedRanges(files, begin, end, userBegin, userEnd)
      invariant GrownByFiles(files, begin, end, userBegin, userEnd)
      invariant inputs == Overlapping(files[..i], userBegin, userEnd)
      invariant level == 0 ==> ClosedRange(files[..i], userBegin, userEnd)
      decreases StartBefore(files, userBegin), EndAfter(files, userEnd), |files| - i
    {
      var f := files[i];
      OverlappingNext(files, i, userBegin, userEnd);
      i := i + 1;
      if begin.Some? && f.Hi() < userBegin.value {
      } else if end.Some? && f.Lo() > userEnd.value {
      } else {
        inputs := inputs + [f];
        if level == 0 {
          if begin.Some? && f.Lo() < userBegin.value {
            StartShrinks(files, userBegin, f);
            WidenKeepsLeast(files, begin, end, userBegin, userEnd, Some(f.Lo()), userEnd, f);
            userBegin := Some(f.Lo());
            inputs := [];
            i := 0;
          } else if end.Some? && f.Hi() > userEnd.value {
            EndShrinks(files, userEnd, f);
            WidenKeepsLeast(files, begin, end, userBegin, userEnd, userBegin, Some(f.Hi()), f);
            userEnd := Some(f.Hi());
            inputs := [];
            i := 0;
          }
        }
      }
    }
    assert files[..i] == files;
    c, d := userBegin, userEnd;
  }

  lemma NoneOverlapping(files: Files)
    ensures forall c, d :: Overlapping(files[..0], c, d) == [] && ClosedRange(files[..0], c, d)
  {
  }

  lemma OverlappingNext(files: Files, i: nat, c: Option<UserKey>, d: Option<UserKey>)
    requires i < |files|
    ensures Overlapping(files[..i + 1], c, d) == if Meets(files[i], c, d) then Overlapping(files[..i], c, d) + [files[i]] else Overlapping(files[..i], c, d)
    ensures ClosedRange(files[..i + 1], c, d) <==>
      ClosedRange(files[..i], c, d) && (Meets(files[i], c, d) ==> ContainsRange(c, d, Some(files[i].Lo()), Some(files[i].Hi())))
  {
    hide Meets, ContainsRange;
    assert files[..i + 1] == files[..i] + [files[i]];
    assert Overlapping(files[..i], c, d) + [] == Overlapping(files[..i], c, d);
  }

  lemma StartShrinks(files: Files, c: Option<UserKey>, f: Table)
    requires f in files && c.Some? && f.Lo() < c.value
    ensures StartBefore(files, Some(f.Lo())) < StartBefore(files, c)
  {
    assert f in StartBefore(files, c) && f !in StartBefore(files, Some(f.Lo()));
  }

  lemma EndShrinks(files: Files, d: Option<UserKey>, f: Table)
    requires f in files && d.Some? && d.value < f.Hi()
    ensures EndAfter(files, Some(f.Hi())) < EndAfter(files, d)
  {
    assert f in EndAfter(files, d) && f !in EndAfter(files, Some(f.Hi()));
  }

  lemma StartOfGrowth(files: Files, begin: Option<UserKey>, end: Option<UserKey>)
    ensures BelowClosedRanges(files, begin, end, begin, end) && GrownByFiles(files, begin, end, begin, end)
  {
  }

  /** Widening by a file that meets the range stays below every closed range, and adds
      only keys the file covers. */
  lemma WidenKeepsLeast(files: Files, begin: Option<UserKey>, end: Option<UserKey>, b: Option<UserKey>, e: Option<UserKey>,
    b': Option<UserKey>, e': Option<UserKey>, f: Table)
    requires f in files && Meets(f, b, e)
    requires (b.Some? && b' == Some(f.Lo()) && f.Lo() < b.value && e' == e) || (e.Some? && e' == Some(f.Hi()) && e.value < f.Hi() && b' == b)
    requires BelowClosedRanges(files, begin, end, b, e)
    requires GrownByFiles(files, begin, end, b, e)
    ensures BelowClosedRanges(files, begin, end, b', e')
    ensures GrownByFiles(files, begin, end, b', e')
  {
    forall k | ContainsRange(b', e', Some(k), Some(k)) && !ContainsRange(begin, end, Some(k), Some(k))
      ensures exists t :: t in files && t.Covers(k)
    {
      if !ContainsRange(b, e, Some(k), Some(k)) {
        assert f.Covers(k);
      }
    }
    forall p, q | ContainsRange(p, q, begin, end) && ClosedRange(files, p, q) ensures ContainsRange(p, q, b', e') {
      assert ContainsRange(p, q, b, e);
      assert Meets(f, p, q);
    }
  }

  // ----- where a flushed memtable goes -----

  const MAX_MEM_COMPACT_LEVEL := 2

  /** Level l is as far down as the memtable output may go. */
  predicate Blocked(v: Levels, l: nat, lo: UserKey, hi: UserKey, maxGrandparentBytes: nat)
    requires l < MAX_MEM_COMPACT_LEVEL
  {
    || (l == 0 && SomeMeets(v[0], Some(lo), Some(hi)))
    || SomeMeets(v[l + 1], Some(lo), Some(hi))
    || TotalFileSize(Overlapping(v[l + 2], Some(lo), Some(hi))) > maxGrandparentBytes
  }

  /** Where picking ends: the first level the memtable output cannot pass. */
  ghost predicate PlacedAt(v: Levels, lo: UserKey, hi: UserKey, level: nat, maxGrandparentBytes: nat) {
    && level <= MAX_MEM_COMPACT_LEVEL
    && (forall l :: 0 <= l < level ==> !Blocked(v, l, lo, hi, maxGrandparentBytes))
    && (level < MAX_MEM_COMPACT_LEVEL ==> Blocked(v, level, lo, hi, maxGrandparentBytes))
  }

  ghost predicate SearchableLevels(v: Levels) {
    forall m :: 1 <= m < NUM_LEVELS ==> SortedLevel(v[m]) && NonEmptyRanges(v[m]) && SequencesFit(v[m])
  }

  /** The output goes to the first level it cannot pass, so it meets no file of any level
      it passed nor, unless it stayed in level 0, of the level it is put in. */
  method PickLevelForMemTableOutput(v: Levels, lo: UserKey, hi: UserKey, maxGrandparentBytes: nat) returns (level: nat)
    requires SearchableLevels(v)
    ensures PlacedAt(v, lo, hi, level, maxGrandparentBytes)
    ensures level > 0 ==> forall m, t :: 0 <= m <= level && t in v[m] ==> !t.Overlaps(lo, hi)
  {
    level := 0;
    var overlap0 := SomeFileOverlapsRange(false, v[0], Some(lo), Some(hi));
    if !overlap0 {
      while level < MAX_MEM_COMPACT_LEVEL
        invariant level <= MAX_MEM_COMPACT_LEVEL
        invariant forall l :: 0 <= l < level ==> !Blocked(v, l, lo, hi, maxGrandparentBytes)
      {
        var overlap := SomeFileOverlapsRange(true, v[level + 1], Some(lo), Some(hi));
        if overlap {
          break;
        }
        if level + 2 < NUM_LEVELS {
          var overlaps, _, _ := GetOverlappingInputs(level + 2, v[level + 2], Some(lo), Some(hi));
          if TotalFileSize(overlaps) > maxGrandparentBytes {
            break;
          }
        }
        level := level + 1;
      }
    }
    if level > 0 {
      forall m, t | 0 <= m <= level && t in v[m] ensures !t.Overlaps(lo, hi) {
        assert !Meets(t, Some(lo), Some(hi)) by {
          assert !Blocked(v, if m == 0 then 0 else m - 1, lo, hi, maxGrandparentBytes);
        }
      }
    }
  }
}

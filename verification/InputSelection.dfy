/** Choosing the input files of an automatic compaction. */
module InputSelection {
  import opened Options
  import opened DbFormat
  import opened Tables
  import opened VersionSearch

  // ----- the key range of a list of files -----

  function SmallestKey(files: Files): InternalKey
    requires files != []
  {
    var t := files[|files| - 1];
    if |files| == 1 then t.smallest
    else
      var s := SmallestKey(files[..|files| - 1]);
      if Less(t.smallest, s) then t.smallest else s
  }

  function LargestKey(files: Files): InternalKey
    requires files != []
  {
    var t := files[|files| - 1];
    if |files| == 1 then t.largest
    else
      var l := LargestKey(files[..|files| - 1]);
      if Less(l, t.largest) then t.largest else l
  }

  function HullLo(files: Files): UserKey
    requires files != []
  {
    SmallestKey(files).ukey
  }

  function HullHi(files: Files): UserKey
    requires files != []
  {
    LargestKey(files).ukey
  }

  lemma {:induction false} KeyRangeBounds(files: Files, t: Table)
    requires t in files
    ensures !Less(t.smallest, SmallestKey(files)) && !Less(LargestKey(files), t.largest)
  {
    var rest, last := files[..|files| - 1], files[|files| - 1];
    if t in rest {
      KeyRangeBounds(rest, t);
    } else {
      assert t == last;
    }
  }

  lemma {:induction false} KeyRangeAttained(files: Files) returns (a: Table, b: Table)
    requires files != []
    ensures a in files && a.smallest == SmallestKey(files)
    ensures b in files && b.largest == LargestKey(files)
  {
    hide Less;
    var rest, last := files[..|files| - 1], files[|files| - 1];
    a, b := last, last;
    if rest != [] {
      var p, q := KeyRangeAttained(rest);
      if !Less(last.smallest, SmallestKey(rest)) {
        a := p;
      }
      if !Less(LargestKey(rest), last.largest) {
        b := q;
      }
    }
  }

  lemma KeyRangeIsTight(files: Files)
    requires files != []
    ensures forall t :: t in files ==> !Less(t.smallest, SmallestKey(files)) && !Less(LargestKey(files), t.largest)
    ensures exists t :: t in files && t.smallest == SmallestKey(files)
    ensures exists t :: t in files && t.largest == LargestKey(files)
  {
    hide Less, SmallestKey, LargestKey;
    forall t | t in files ensures !Less(t.smallest, SmallestKey(files)) && !Less(LargestKey(files), t.largest) {
      KeyRangeBounds(files, t);
    }
    var a, b := KeyRangeAttained(files);
  }

  /** A list that holds more files has the wider range. */
  lemma MoreFilesWiderRange(files: Files, more: Files)
    requires files != [] && forall t :: t in files ==> t in more
    ensures more != []
    ensures !Less(SmallestKey(files), SmallestKey(more)) && !Less(LargestKey(more), LargestKey(files))
    ensures HullLo(more) <= HullLo(files) && HullHi(files) <= HullHi(more)
  {
    assert files[0] in more;
    KeyRangeIsTight(files);
    KeyRangeIsTight(more);
  }

  method GetRange(files: Files) returns (smallest: InternalKey, largest: InternalKey)
    requires files != []
    ensures smallest == SmallestKey(files) && largest == LargestKey(files)
  {
    smallest, largest := files[0].smallest, files[0].largest;
    for i := 1 to |files|
      invariant smallest == SmallestKey(files[..i]) && largest == LargestKey(files[..i])
    {
      assert files[..i + 1][..i] == files[..i];
      if Less(files[i].smallest, smallest) {
        smallest := files[i].smallest;
      }
      if Less(largest, files[i].largest) {
        largest := files[i].largest;
      }
    }
    assert files[..|files|] == files;
  }

  // ----- coverage: no gap in the user-key hull -----

  ghost predicate InHull(files: Files, k: UserKey) {
    files != [] && HullLo(files) <= k <= HullHi(files)
  }

  ghost predicate CoveredAt(files: Files, k: UserKey) {
    exists t :: t in files && t.Covers(k)
  }

  /** Every user key of the hull lies in the range of some file. */
  ghost predicate Covered(files: Files) {
    forall k :: InHull(files, k) ==> CoveredAt(files, k)
  }

  /** Adding files that each meet a gapless hull leaves it gapless. */
  lemma CoveredGrows(files: Files, more: Files)
    requires files != [] && Covered(files) && NonEmptyRanges(more)
    requires forall t :: t in files ==> t in more
    requires forall t :: t in more ==> t in files || t.Overlaps(HullLo(files), HullHi(files))
    ensures Covered(more)
  {
    assert files[0] in more;
    KeyRangeIsTight(files);
    KeyRangeIsTight(more);
    forall k | InHull(more, k) ensures CoveredAt(more, k) {
      if k < HullLo(files) {
        var t :| t in more && t.smallest == SmallestKey(more);
        assert t.Covers(k);
      } else if k > HullHi(files) {
        var t :| t in more && t.largest == LargestKey(more);
        assert t.Covers(k);
      } else {
        assert InHull(files, k);
        assert CoveredAt(files, k);
      }
    }
  }

  // ----- boundary files -----

  /** t starts after the key l but at the same user key. */
  predicate StartsAtBoundary(l: InternalKey, t: Table) {
    Less(l, t.smallest) && t.Lo() == l.ukey
  }

  ghost predicate NoBoundaryFile(levelFiles: Files, l: InternalKey) {
    forall t :: t in levelFiles ==> !StartsAtBoundary(l, t)
  }

  method FindSmallestBoundaryFile(levelFiles: Files, l: InternalKey) returns (found: Option<Table>)
    ensures found.None? ==> NoBoundaryFile(levelFiles, l)
    ensures found.Some? ==> found.value in levelFiles && StartsAtBoundary(l, found.value)
    ensures found.Some? ==> forall t :: t in levelFiles && StartsAtBoundary(l, t) ==> !Less(t.smallest, found.value.smallest)
  {
    found := None;
    for i := 0 to |levelFiles|
      invariant found.None? ==> forall j :: 0 <= j < i ==> !StartsAtBoundary(l, levelFiles[j])
      invariant found.Some? ==> found.value in levelFiles && StartsAtBoundary(l, found.value)
      invariant found.Some? ==> forall j :: 0 <= j < i && StartsAtBoundary(l, levelFiles[j]) ==> !Less(levelFiles[j].smallest, found.value.smallest)
    {
      var f := levelFiles[i];
      if Less(l, f.smallest) && f.Lo() == l.ukey {
        if found.None? || Less(f.smallest, found.value.smallest) {
          found := Some(f);
        }
      }
    }
  }

  /** A file of the level outside the list lies entirely before or entirely after it. */
  ghost predicate Contiguous(levelFiles: Files, files: Files)
    requires files != []
  {
    forall g :: g in levelFiles && g !in files ==> Less(g.largest, SmallestKey(files)) || Less(LargestKey(files), g.smallest)
  }

  /** Level 0: a file outside the list shares no user key with it. */
  ghost predicate Isolated(levelFiles: Files, files: Files)
    requires files != []
  {
    forall g :: g in levelFiles && g !in files ==> !g.Overlaps(HullLo(files), HullHi(files))
  }

  /** t is the earliest boundary file behind the list. */
  ghost predicate FirstBoundary(levelFiles: Files, before: Files, t: Table) {
    && before != [] && t in levelFiles && StartsAtBoundary(LargestKey(before), t)
    && forall u :: u in levelFiles && StartsAtBoundary(LargestKey(before), u) ==> !Less(u.smallest, t.smallest)
  }

  /** The list with one boundary file after another, the earliest first, until there is none. */
  ghost predicate BoundaryClosure(levelFiles: Files, files: Files, all: Files) {
    && files != [] && files <= all && NoBoundaryFile(levelFiles, LargestKey(all))
    && forall i :: |files| <= i < |all| ==> FirstBoundary(levelFiles, all[..i], all[i])
  }

  lemma OneMoreBoundary(levelFiles: Files, files: Files, all: Files, f: Table)
    requires files <= all && FirstBoundary(levelFiles, all, f)
    requires forall i :: |files| <= i < |all| ==> FirstBoundary(levelFiles, all[..i], all[i])
    ensures forall i :: |files| <= i < |all + [f]| ==> FirstBoundary(levelFiles, (all + [f])[..i], (all + [f])[i])
  {
    hide FirstBoundary;
    var more := all + [f];
    forall i | |files| <= i < |more| ensures FirstBoundary(levelFiles, more[..i], more[i]) {
      assert i < |all| ==> more[..i] == all[..i];
      assert i == |all| ==> more[..i] == all;
    }
  }

  ghost function StartAfter(levelFiles: Files, l: InternalKey): set<Table> {
    set t | t in levelFiles && Less(l, t.smallest)
  }

  /** Extends the list by boundary files until none is left.  No file is picked twice, a
      hull without gaps (together with the files of the other level) stays so, a run of a sorted level stays a run, and a list no
      other file shares a user key with does not change. */
  method AddBoundaryInputs(levelFiles: Files, files: Files, ghost others: Files) returns (all: Files)
    requires NonEmptyRanges(levelFiles) && NonEmptyRanges(others)
    requires forall t :: t in files ==> t in levelFiles
    ensures files <= all
    ensures forall t :: t in all ==> t in levelFiles
    ensures NoDuplicates(files) ==> NoDuplicates(all)
    ensures SortedLevel(files) ==> SortedLevel(all)
    ensures files != [] ==> BoundaryClosure(levelFiles, files, all)
    ensures Covered(files + others) ==> Covered(all + others)
    ensures files != [] && SortedLevel(levelFiles) && Contiguous(levelFiles, files) ==> Contiguous(levelFiles, all)
    ensures files != [] && Isolated(levelFiles, files) ==> all == files
  {
    hide Covered, SortedLevel, Contiguous, Isolated, SmallestKey, LargestKey, StartAfter, NonEmptyRanges, FirstBoundary;
    all := files;
    if files == [] {
      return;
    }
    var _, largestKey := GetRange(files);
    var continueSearching := true;
    while continueSearching
      invariant files <= all && largestKey == LargestKey(all)
      invariant forall t :: t in all ==> t in levelFiles
      invariant NoDuplicates(files) ==> NoDuplicates(all)
      invariant SortedLevel(files) ==> SortedLevel(all)
      invariant Covered(files + others) ==> Covered(all + others)
      invariant SortedLevel(levelFiles) && Contiguous(levelFiles, files) ==> Contiguous(levelFiles, all)
      invariant Isolated(levelFiles, files) ==> all == files
      invariant forall i :: |files| <= i < |all| ==> FirstBoundary(levelFiles, all[..i], all[i])
      invariant !continueSearching ==> NoBoundaryFile(levelFiles, largestKey)
      decreases continueSearching, StartAfter(levelFiles, largestKey)
    {
      var found := FindSmallestBoundaryFile(levelFiles, largestKey);
      if found.Some? {
        var f := found.value;
        FewerAfter(levelFiles, largestKey, f);
        BoundaryStep(levelFiles, all, others, f);
        BoundaryIsLast(all, f);
        BoundaryNotIsolated(levelFiles, all, f);
        assert FirstBoundary(levelFiles, all, f) by { IsFirstBoundary(levelFiles, all, f); }
        OneMoreBoundary(levelFiles, files, all, f);
        all := all + [f];
        largestKey := f.largest;
      } else {
        continueSearching := false;
      }
    }
  }

  lemma IsFirstBoundary(levelFiles: Files, before: Files, t: Table)
    requires before != [] && t in levelFiles && StartsAtBoundary(LargestKey(before), t)
    requires forall u :: u in levelFiles && StartsAtBoundary(LargestKey(before), u) ==> !Less(u.smallest, t.smallest)
    ensures FirstBoundary(levelFiles, before, t)
  {
  }

  /** Appending the first boundary file. */
  lemma BoundaryStep(levelFiles: Files, all: Files, others: Files, f: Table)
    requires NonEmptyRanges(levelFiles) && NonEmptyRanges(others) && all != [] && f in levelFiles
    requires forall t :: t in all ==> t in levelFiles
    requires StartsAtBoundary(LargestKey(all), f)
    requires forall t :: t in levelFiles && StartsAtBoundary(LargestKey(all), t) ==> !Less(t.smallest, f.smallest)
    ensures f !in all && LargestKey(all + [f]) == f.largest && SmallestKey(all + [f]) == SmallestKey(all)
    ensures HullLo(all) <= HullHi(all) == f.Lo()
    ensures Covered(all + others) ==> Covered(all + [f] + others)
    ensures SortedLevel(levelFiles) && Contiguous(levelFiles, all) ==> Contiguous(levelFiles, all + [f])
  {
    KeyRangeIsTight(all);
    assert (all + [f])[..|all|] == all;
    assert all[0] in all;
    if Covered(all + others) {
      MoreFilesWiderRange(all, all + others);
      CoveredGrows(all + others, all + [f] + others);
    }
    if SortedLevel(levelFiles) && Contiguous(levelFiles, all) {
      forall g | g in levelFiles && g !in all + [f]
        ensures Less(g.largest, SmallestKey(all)) || Less(f.largest, g.smallest)
      {
        SortedPair(levelFiles, f, g);
      }
    }
  }

  lemma FewerAfter(levelFiles: Files, l: InternalKey, f: Table)
    requires NonEmptyRanges(levelFiles) && f in levelFiles && Less(l, f.smallest)
    ensures StartAfter(levelFiles, f.largest) < StartAfter(levelFiles, l)
  {
    assert f in StartAfter(levelFiles, l) && f !in StartAfter(levelFiles, f.largest);
  }

  lemma BoundaryNotIsolated(levelFiles: Files, all: Files, f: Table)
    requires NonEmptyRanges(levelFiles) && all != [] && f in levelFiles && f !in all && StartsAtBoundary(LargestKey(all), f)
    requires HullLo(all) <= HullHi(all)
    ensures !Isolated(levelFiles, all)
  {
    assert f.Overlaps(HullLo(all), HullHi(all));
  }

  lemma BoundaryIsLast(all: Files, f: Table)
    requires all != [] && StartsAtBoundary(LargestKey(all), f)
    ensures SortedLevel(all) ==> SortedLevel(all + [f])
  {
    KeyRangeIsTight(all);
    forall i | 0 <= i < |all| ensures Less(all[i].largest, f.smallest) {
      assert all[i] in all;
    }
  }

  /** Files picked from a sorted level, in their order. */
  lemma {:induction false} OverlappingIsSorted(files: Files, begin: Option<UserKey>, end: Option<UserKey>)
    requires SortedLevel(files)
    ensures SortedLevel(Overlapping(files, begin, end))
  {
    hide Less;
    if files != [] {
      var rest, t := files[..|files| - 1], files[|files| - 1];
      OverlappingIsSorted(rest, begin, end);
      OverlappingMembers(rest, begin, end);
      var picked := Overlapping(rest, begin, end);
      forall i | 0 <= i < |picked| ensures Less(picked[i].largest, t.smallest) {
        assert picked[i] in rest;
      }
    }
  }

  lemma SortedPair(files: Files, f: Table, g: Table)
    requires SortedLevel(files) && f in files && g in files && f != g
    ensures Less(f.largest, g.smallest) || Less(g.largest, f.smallest)
  {
    var i :| 0 <= i < |files| && files[i] == f;
    var j :| 0 <= j < |files| && files[j] == g;
  }

  /** The files of a sorted level that meet a range are a run of the level. */
  lemma OverlappingIsContiguous(files: Files, lo: UserKey, hi: UserKey)
    requires SortedLevel(files) && NonEmptyRanges(files)
    requires Overlapping(files, Some(lo), Some(hi)) != []
    ensures Contiguous(files, Overlapping(files, Some(lo), Some(hi)))
  {
    var run := Overlapping(files, Some(lo), Some(hi));
    OverlappingMembers(files, Some(lo), Some(hi));
    KeyRangeIsTight(run);
    var a :| a in run && a.smallest == SmallestKey(run);
    var b :| b in run && b.largest == LargestKey(run);
    forall g | g in files && g !in run ensures Less(g.largest, a.smallest) || Less(b.largest, g.smallest) {
      SortedPair(files, a, g);
      SortedPair(files, b, g);
    }
  }

  /** A wider range that meets as many files meets the same files. */
  lemma {:induction false} SameCountSameFiles(files: Files, lo: UserKey, hi: UserKey, lo': UserKey, hi': UserKey)
    requires lo' <= lo && hi <= hi'
    ensures |Overlapping(files, Some(lo), Some(hi))| <= |Overlapping(files, Some(lo'), Some(hi'))|
    ensures |Overlapping(files, Some(lo), Some(hi))| == |Overlapping(files, Some(lo'), Some(hi'))|
      ==> Overlapping(files, Some(lo), Some(hi)) == Overlapping(files, Some(lo'), Some(hi'))
  {
    if files != [] {
      SameCountSameFiles(files[..|files| - 1], lo, hi, lo', hi');
    }
  }

  // ----- the complete choice -----

  /** What the rest of the engine relies on: which files of the two levels were chosen
      and how the files left behind lie around them. */
  ghost predicate GoodChoice(v: Levels, level: nat, inputs0: Files, inputs1: Files) {
    && level + 1 < NUM_LEVELS
    && inputs0 != []
    && NoDuplicates(inputs0) && NoDuplicates(inputs1) && (level > 0 ==> SortedLevel(inputs0))
    && (forall t :: t in inputs0 ==> t in v[level])
    && NoBoundaryFile(v[level], LargestKey(inputs0))
    && (if level == 0 then Isolated(v[0], inputs0) else Contiguous(v[level], inputs0))
    && inputs1 == Overlapping(v[level + 1], Some(HullLo(inputs0)), Some(HullHi(inputs0)))
    && Covered(inputs0 + inputs1)
  }

  ghost predicate GoodLevels(v: Levels) {
    && (forall m :: 0 <= m < NUM_LEVELS ==> NonEmptyRanges(v[m]) && NoDuplicates(v[m]))
    && (forall m :: 1 <= m < NUM_LEVELS ==> SortedLevel(v[m]))
  }

  /** A gapless list together with the next level's files that meet its hull is gapless. */
  lemma CoveredWithNextLevel(v: Levels, level: nat, inputs0: Files)
    requires GoodLevels(v) && level + 1 < NUM_LEVELS && inputs0 != [] && Covered(inputs0)
    requires forall t :: t in inputs0 ==> t in v[level]
    ensures Covered(inputs0 + Overlapping(v[level + 1], Some(HullLo(inputs0)), Some(HullHi(inputs0))))
    ensures NoDuplicates(Overlapping(v[level + 1], Some(HullLo(inputs0)), Some(HullHi(inputs0))))
  {
    OverlappingMembers(v[level + 1], Some(HullLo(inputs0)), Some(HullHi(inputs0)));
    CoveredGrows(inputs0, inputs0 + Overlapping(v[level + 1], Some(HullLo(inputs0)), Some(HullHi(inputs0))));
  }

  /** The files of a level that meet a range, in level 0 the range widened until closed. */
  ghost predicate Reselected(v: Levels, level: nat, lo: UserKey, hi: UserKey, selected: Files)
    requires level < NUM_LEVELS
  {
    exists c, d :: ReselectedIn(v, level, lo, hi, selected, c, d)
  }

  ghost predicate ReselectedIn(v: Levels, level: nat, lo: UserKey, hi: UserKey, selected: Files, c: Option<UserKey>, d: Option<UserKey>)
    requires level < NUM_LEVELS
  {
    && selected == Overlapping(v[level], c, d)
    && if level == 0 then LeastClosedRange(v[0], Some(lo), Some(hi), c, d) else c == Some(lo) && d == Some(hi)
  }

  /** The upper inputs chosen anew from the hull of all inputs. */
  ghost predicate Grown(v: Levels, level: nat, first: Files, inputs1: Files, grown: Files)
    requires level < NUM_LEVELS && first != []
  {
    exists selected ::
      Reselected(v, level, HullLo(first + inputs1), HullHi(first + inputs1), selected) && BoundaryClosure(v[level], selected, grown)
  }

  /** Re-selecting the upper level from the whole hull: the selection keeps every file
      chosen before and stays gapless, isolated or a run. */
  method Expand(v: Levels, level: nat, inputs0: Files, inputs1: Files, allStart: UserKey, allLimit: UserKey) returns (expanded0: Files)
    requires GoodLevels(v) && GoodChoice(v, level, inputs0, inputs1)
    requires allStart == HullLo(inputs0 + inputs1) && allLimit == HullHi(inputs0 + inputs1)
    ensures forall t :: t in inputs0 ==> t in expanded0
    ensures forall t :: t in expanded0 ==> t in v[level]
    ensures level > 0 ==> SortedLevel(expanded0)
    ensures NoDuplicates(expanded0) && expanded0 != [] && NoBoundaryFile(v[level], LargestKey(expanded0))
    ensures if level == 0 then Isolated(v[0], expanded0) else Contiguous(v[level], expanded0)
    ensures Covered(expanded0 + inputs1)
    ensures inputs0 != [] && Grown(v, level, inputs0, inputs1, expanded0)
  {
    var selected, c, d := GetOverlappingInputs(level, v[level], Some(allStart), Some(allLimit));
    OverlappingMembers(v[level], c, d);
    var both := inputs0 + inputs1;
    KeyRangeIsTight(both);
    forall t | t in inputs0 ensures t in selected {
      assert t in both;
    }
    assert inputs0[0] in selected;
    assert NonEmptyRanges(inputs1) by {
      OverlappingMembers(v[level + 1], Some(HullLo(inputs0)), Some(HullHi(inputs0)));
    }
    SelectionCovered(v[level], inputs0, inputs1, selected, c, d);
    if level == 0 {
      SelectionIsolated(v[0], selected, c, d);
    } else {
      OverlappingIsContiguous(v[level], allStart, allLimit);
      OverlappingIsSorted(v[level], c, d);
    }
    assert ReselectedIn(v, level, allStart, allLimit, selected, c, d);
    expanded0 := AddBoundaryInputs(v[level], selected, inputs1);
  }

  /** Files inside a closed range that is covered by them and by a gapless list. */
  lemma SelectionCovered(files: Files, inputs0: Files, inputs1: Files, selected: Files, c: Option<UserKey>, d: Option<UserKey>)
    requires inputs0 != [] && Covered(inputs0 + inputs1) && NonEmptyRanges(files) && NonEmptyRanges(inputs1)
    requires forall t :: t in inputs0 ==> t in selected
    requires selected == Overlapping(files, c, d)
    requires ContainsRange(c, d, Some(HullLo(inputs0 + inputs1)), Some(HullHi(inputs0 + inputs1)))
    requires (c == Some(HullLo(inputs0 + inputs1)) && d == Some(HullHi(inputs0 + inputs1)))
      || (ClosedRange(files, c, d) && GrownByFiles(files, Some(HullLo(inputs0 + inputs1)), Some(HullHi(inputs0 + inputs1)), c, d))
    ensures Covered(selected + inputs1)
  {
    var both := inputs0 + inputs1;
    OverlappingMembers(files, c, d);
    if c == Some(HullLo(both)) && d == Some(HullHi(both)) {
      CoveredGrows(both, selected + inputs1);
    } else {
      assert inputs0[0] in selected + inputs1;
      SelectionHull(files, both, selected, selected + inputs1, c, d);
      forall k | InHull(selected + inputs1, k) ensures CoveredAt(selected + inputs1, k) {
        if InHull(both, k) {
          assert CoveredAt(both, k);
          var t :| t in both && t.Covers(k);
          assert t in selected + inputs1;
        } else {
          assert ContainsRange(c, d, Some(k), Some(k));
          var t :| t in files && t.Covers(k);
          assert t in selected;
        }
      }
    }
  }

  /** The hull of files inside [c, d] lies in [c, d]. */
  lemma SelectionHull(files: Files, both: Files, selected: Files, all: Files, c: Option<UserKey>, d: Option<UserKey>)
    requires both != [] && all != [] && ContainsRange(c, d, Some(HullLo(both)), Some(HullHi(both)))
    requires ClosedRange(files, c, d) && forall t :: t in selected ==> t in files && Meets(t, c, d)
    requires forall t :: t in all ==> t in selected || t in both
    ensures ContainsRange(c, d, Some(HullLo(all)), Some(HullHi(all)))
  {
    KeyRangeIsTight(both);
    KeyRangeIsTight(all);
    var a :| a in all && a.smallest == SmallestKey(all);
    var b :| b in all && b.largest == LargestKey(all);
  }

  /** In level 0 the closed selection shares no user key with any other file. */
  lemma SelectionIsolated(files: Files, selected: Files, c: Option<UserKey>, d: Option<UserKey>)
    requires ClosedRange(files, c, d) && selected == Overlapping(files, c, d) && selected != []
    ensures Isolated(files, selected)
  {
    hide Overlapping, SmallestKey, LargestKey, Less;
    OverlappingMembers(files, c, d);
    KeyRangeIsTight(selected);
    var a :| a in selected && a.smallest == SmallestKey(selected);
    var b :| b in selected && b.largest == LargestKey(selected);
  }

  datatype Inputs = Inputs(inputs0: Files, inputs1: Files, grandparents: Files, largest: InternalKey)

  /** The files two levels down that meet the hull of the inputs. */
  ghost function Grandparents(v: Levels, level: nat, inputs: Files): Files
    requires inputs != []
  {
    if level + 2 < NUM_LEVELS then Overlapping(v[level + 2], Some(HullLo(inputs)), Some(HullHi(inputs))) else []
  }

  /** Taking the grown list adds files, keeps the count of lower inputs and stays within the
      size limit. */
  ghost predicate WorthGrowing(v: Levels, level: nat, first: Files, inputs1: Files, grown: Files, expandedSizeLimit: nat)
    requires level + 1 < NUM_LEVELS
  {
    && grown != [] && |grown| > |first| && TotalFileSize(inputs1) + TotalFileSize(grown) < expandedSizeLimit
    && |Overlapping(v[level + 1], Some(HullLo(grown)), Some(HullHi(grown)))| == |inputs1|
  }

  /** The upper inputs are the boundary-closed list, or the list grown from the hull of all
      inputs exactly when that is worth while; the lower inputs are those the boundary-closed
      list asks for. */
  ghost predicate ExpandedFrom(v: Levels, level: nat, picked: Files, first: Files, grown: Files, inputs0: Files, inputs1: Files, limit: nat)
    requires level + 1 < NUM_LEVELS
  {
    && BoundaryClosure(v[level], picked, first) && first != []
    && inputs1 == Overlapping(v[level + 1], Some(HullLo(first)), Some(HullHi(first)))
    && if inputs1 == [] then inputs0 == first
       else Grown(v, level, first, inputs1, grown) && inputs0 == if WorthGrowing(v, level, first, inputs1, grown, limit) then grown else first
  }

  /** Completes the choice for a list of files of the level that has no gap and, in level
      0, already holds every file sharing a user key with it.  The list only grows, and
      where it grows the files of the next level stay the same. */
  method SetupOtherInputs(v: Levels, level: nat, picked: Files, expandedSizeLimit: nat) returns (c: Inputs)
    requires GoodLevels(v) && level + 1 < NUM_LEVELS
    requires picked != [] && NoDuplicates(picked) && (level > 0 ==> SortedLevel(picked)) && Covered(picked) && forall t :: t in picked ==> t in v[level]
    requires if level == 0 then Isolated(v[0], picked) else Contiguous(v[level], picked)
    ensures GoodChoice(v, level, c.inputs0, c.inputs1)
    ensures forall t :: t in picked ==> t in c.inputs0
    ensures c.largest == LargestKey(c.inputs0)
    ensures exists first, grown :: ExpandedFrom(v, level, picked, first, grown, c.inputs0, c.inputs1, expandedSizeLimit)
    ensures c.grandparents == Grandparents(v, level, c.inputs0 + c.inputs1)
  {
    assert picked + [] == picked;
    var inputs0 := AddBoundaryInputs(v[level], picked, []);
    assert inputs0 + [] == inputs0;
    var smallest, largest := GetRange(inputs0);
    var inputs1, _, _ := GetOverlappingInputs(level + 1, v[level + 1], Some(smallest.ukey), Some(largest.ukey));
    CoveredWithNextLevel(v, level, inputs0);
    assert GoodChoice(v, level, inputs0, inputs1);
    ghost var first, grown: Files := inputs0, [];
    var allStart, allLimit := GetRange(inputs0 + inputs1);
    if inputs1 != [] {
      var expanded0 := Expand(v, level, inputs0, inputs1, allStart.ukey, allLimit.ukey);
      grown := expanded0;
      if |expanded0| > |inputs0| && TotalFileSize(inputs1) + TotalFileSize(expanded0) < expandedSizeLimit {
        var newStart, newLimit := GetRange(expanded0);
        var expanded1, _, _ := GetOverlappingInputs(level + 1, v[level + 1], Some(newStart.ukey), Some(newLimit.ukey));
        if |expanded1| == |inputs1| {
          MoreFilesWiderRange(inputs0, expanded0);
          SameCountSameFiles(v[level + 1], smallest.ukey, largest.ukey, newStart.ukey, newLimit.ukey);
          smallest, largest := newStart, newLimit;
          inputs0, inputs1 := expanded0, expanded1;
          allStart, allLimit := GetRange(inputs0 + inputs1);
        }
      }
    }
    var grandparents: Files := [];
    if level + 2 < NUM_LEVELS {
      ghost var begin, end;
      grandparents, begin, end := GetOverlappingInputs(level + 2, v[level + 2], Some(allStart.ukey), Some(allLimit.ukey));
    }
    c := Inputs(inputs0, inputs1, grandparents, largest);
    assert ExpandedFrom(v, level, picked, first, grown, inputs0, inputs1, expandedSizeLimit);
  }

  /** The first file after the compaction pointer, wrapping around to the first file. */
  method FirstAfterPointer(files: Files, compactPointer: Option<InternalKey>) returns (start: nat)
    requires files != []
    ensures start < |files| && StartsAt(files, compactPointer, start)
  {
    hide AfterPointer;
    for i := 0 to |files|
      invariant forall j :: 0 <= j < i ==> !AfterPointer(compactPointer, files[j])
    {
      if AfterPointer(compactPointer, files[i]) {
        return i;
      }
    }
    return 0;
  }

  /** What starts an automatic compaction: a level whose score is too high, or a file
      charged with too many seeks. */
  datatype Trigger = BySize(level: nat) | BySeeks(level: nat, file: Table)

  /** The file an automatic choice starts from, and the list it is completed from: in level 0
      all files it shares user keys with, directly or through others. */
  ghost predicate StartsFrom(v: Levels, trigger: Trigger, compactPointer: Option<InternalKey>, file: Table, picked: Files)
    requires trigger.level < NUM_LEVELS
  {
    && (match trigger
        case BySize(level) => exists i: nat :: i < |v[level]| && StartsAt(v[level], compactPointer, i) && v[level][i] == file
        case BySeeks(_, charged) => file == charged)
    && if trigger.level == 0 then Reselected(v, 0, file.Lo(), file.Hi(), picked) else picked == [file]
  }

  /** The inputs are those an automatic choice comes to. */
  ghost predicate IsPicked(v: Levels, trigger: Trigger, compactPointer: Option<InternalKey>, limit: nat, inputs0: Files, inputs1: Files)
    requires trigger.level + 1 < NUM_LEVELS
  {
    exists file, picked, first, grown ::
      StartsFrom(v, trigger, compactPointer, file, picked) && ExpandedFrom(v, trigger.level, picked, first, grown, inputs0, inputs1, limit)
  }

  /** Picks the file to start from - the first after the compaction pointer, wrapping
      around to the first file of the level, or the file charged with seeks - and
      completes the choice. */
  method PickCompaction(v: Levels, trigger: Trigger, compactPointer: Option<InternalKey>, expandedSizeLimit: nat) returns (c: Inputs)
    requires GoodLevels(v) && trigger.level + 1 < NUM_LEVELS
    requires match trigger case BySize(level) => v[level] != [] case BySeeks(level, file) => file in v[level]
    ensures GoodChoice(v, trigger.level, c.inputs0, c.inputs1)
    ensures c.largest == LargestKey(c.inputs0) && c.grandparents == Grandparents(v, trigger.level, c.inputs0 + c.inputs1)
    ensures IsPicked(v, trigger, compactPointer, expandedSizeLimit, c.inputs0, c.inputs1)
    ensures trigger.BySeeks? ==> trigger.file in c.inputs0
    ensures trigger.BySize? ==> exists i: nat :: i < |v[trigger.level]| && StartsAt(v[trigger.level], compactPointer, i) && v[trigger.level][i] in c.inputs0
  {
    hide GoodChoice, Covered, SmallestKey, LargestKey, StartsAt, GrownByFiles, BelowClosedRanges, ExpandedFrom;
    var level := trigger.level;
    var files := v[level];
    var first: Table;
    match trigger {
      case BySize(_) =>
        var start := FirstAfterPointer(files, compactPointer);
        first := files[start];
      case BySeeks(_, file) =>
        first := file;
    }
    var picked := [first];
    OneFile(first);
    if level == 0 {
      var smallest, largest := GetRange(picked);
      ghost var d, e;
      picked, d, e := GetOverlappingInputs(0, files, Some(smallest.ukey), Some(largest.ukey));
      assert ReselectedIn(v, 0, first.Lo(), first.Hi(), picked, d, e);
      OverlappingMembers(files, d, e);
      assert Meets(first, Some(smallest.ukey), Some(largest.ukey)) by {
        assert first in files;
      }
      MeetsWider(first, Some(smallest.ukey), Some(largest.ukey), d, e);
      SelectionCovered(files, [first], [], picked, d, e);
      assert picked + [] == picked;
      SelectionIsolated(files, picked, d, e);
    } else {
      forall g | g in files && g !in picked ensures Less(g.largest, first.smallest) || Less(first.largest, g.smallest) {
        SortedPair(files, first, g);
      }
    }
    assert StartsFrom(v, trigger, compactPointer, first, picked);
    c := SetupOtherInputs(v, level, picked, expandedSizeLimit);
  }

  predicate AfterPointer(compactPointer: Option<InternalKey>, t: Table) {
    compactPointer.None? || Less(compactPointer.value, t.largest)
  }

  /** File i is the first file ending after the pointer, or the first of all when none does. */
  ghost predicate StartsAt(files: Files, compactPointer: Option<InternalKey>, i: nat)
    requires i < |files|
  {
    || (AfterPointer(compactPointer, files[i]) && forall j :: 0 <= j < i ==> !AfterPointer(compactPointer, files[j]))
    || (i == 0 && forall j :: 0 <= j < |files| ==> !AfterPointer(compactPointer, files[j]))
  }

  /** With the pointer a choice leaves behind, the next choice by size starts at a file the
      choice had not taken, or goes back to the first file when none lies behind it. */
  lemma NextChoiceMovesOn(files: Files, inputs0: Files, i: nat)
    requires inputs0 != [] && i < |files| && StartsAt(files, Some(LargestKey(inputs0)), i)
    ensures files[i] !in inputs0 || (i == 0 && forall t :: t in files ==> !Less(LargestKey(inputs0), t.largest))
  {
    hide LargestKey, Less;
    KeyRangeIsTight(inputs0);
  }

  lemma MeetsWider(t: Table, begin: Option<UserKey>, end: Option<UserKey>, c: Option<UserKey>, d: Option<UserKey>)
    requires Meets(t, begin, end) && ContainsRange(c, d, begin, end)
    ensures Meets(t, c, d)
  {
  }

  lemma OneFile(f: Table)
    ensures Covered([f]) && HullLo([f]) == f.Lo() && HullHi([f]) == f.Hi()
    ensures SmallestKey([f]) == f.smallest && LargestKey([f]) == f.largest && [f] + [] == [f]
  {
    forall k | InHull([f], k) ensures CoveredAt([f], k) {
      assert f in [f];
    }
  }
}

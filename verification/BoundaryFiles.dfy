/** A compaction collects boundary files for its upper inputs only.  What that misses, and the
    test on the chosen files that tells when it misses nothing. */
module BoundaryFiles {
  import opened Options
  import opened DbFormat
  import opened Tables
  import opened VersionSearch
  import opened InputSelection
  import opened Lsm

  /** The lower inputs are none, or no file of their level starts at the user key they end
      with: what collecting boundary files for them would find out. */
  ghost predicate NoneLeftBehind(v: Levels, level: nat, inputs1: Files)
    requires level + 1 < NUM_LEVELS
  {
    inputs1 == [] || NoBoundaryFile(v[level + 1], LargestKey(inputs1))
  }

  /** A file of the level that is not among the inputs lies before or after all of them. */
  lemma BesideInputs(v: Levels, level: nat, inputs0: Files, inputs1: Files, h: Table)
    requires LevelsOk(v) && GoodChoice(v, level, inputs0, inputs1) && inputs1 != []
    requires h in v[level + 1] && h !in inputs1
    ensures (forall f :: f in inputs1 ==> Less(h.largest, f.smallest)) || Less(LargestKey(inputs1), h.smallest)
  {
    hide LevelsOrdered, Level0Ordered, UniqueNumbers, Covered, SmallestKey, LargestKey;
    ValidFilesHaveRanges(v[level + 1]);
    OverlappingMembers(v[level + 1], Some(HullLo(inputs0)), Some(HullHi(inputs0)));
    OverlappingIsContiguous(v[level + 1], HullLo(inputs0), HullHi(inputs0));
    KeyRangeIsTight(inputs1);
    if Less(h.largest, SmallestKey(inputs1)) {
      forall f | f in inputs1 ensures Less(h.largest, f.smallest) {
      }
    }
  }

  /** Files with entries in a row of internal keys: the earlier file is the newer one. */
  lemma EarlierIsNewer(v: Levels, l: nat, h: Table, f: Table)
    requires LevelsOk(v) && Distinct(TableEntries(v)) && l < NUM_LEVELS && h in v[l] && f in v[l] && Less(h.largest, f.smallest)
    ensures Newer(h.entries, f.entries)
  {
    hide LevelsOrdered, Level0Ordered, UniqueNumbers, TableEntries;
    assert h.Valid() && f.Valid();
    forall x, y | x in h.entries && y in f.entries && x.key.ukey == y.key.ukey ensures x.key.seqno > y.key.seqno {
      assert x in TableEntries(v) && y in TableEntries(v);
      assert !Less(h.largest, x.key) && !Less(y.key, f.smallest);
    }
  }

  /** The chosen inputs leave no older entry behind at the lower level exactly when that test
      passes. */
  lemma NoOlderLeftIffNoneLeftBehind(v: Levels, level: nat, inputs0: Files, inputs1: Files)
    requires LevelsOk(v) && Distinct(TableEntries(v)) && level + 1 < NUM_LEVELS && GoodChoice(v, level, inputs0, inputs1)
    ensures NoOlderLeft(v[level + 1], inputs1) <==> NoneLeftBehind(v, level, inputs1)
  {
    hide LevelsOk, GoodChoice, TableEntries, LargestKey, Newer;
    if inputs1 != [] {
      var files := v[level + 1];
      if NoneLeftBehind(v, level, inputs1) {
        forall h, f | h in files && h !in inputs1 && f in inputs1 ensures Newer(h.entries, f.entries) {
          InputOfLevel(v, level, inputs0, inputs1, f);
          BesideInputs(v, level, inputs0, inputs1, h);
          if Less(h.largest, f.smallest) {
            EarlierIsNewer(v, level + 1, h, f);
          } else {
            AfterSharesNoKey(v, level, inputs0, inputs1, h, f);
          }
        }
      }
      forall t | t in files && StartsAtBoundary(LargestKey(inputs1), t) ensures !NoOlderLeft(files, inputs1) {
        BoundaryFileIsOlder(v, level, inputs0, inputs1, t);
      }
    }
  }

  lemma InputOfLevel(v: Levels, level: nat, inputs0: Files, inputs1: Files, f: Table)
    requires LevelsOk(v) && GoodChoice(v, level, inputs0, inputs1) && f in inputs1
    ensures f in v[level + 1] && f.Valid()
  {
    OverlappingMembers(v[level + 1], Some(HullLo(inputs0)), Some(HullHi(inputs0)));
  }

  lemma AfterSharesNoKey(v: Levels, level: nat, inputs0: Files, inputs1: Files, h: Table, f: Table)
    requires LevelsOk(v) && GoodChoice(v, level, inputs0, inputs1) && inputs1 != [] && NoBoundaryFile(v[level + 1], LargestKey(inputs1))
    requires h in v[level + 1] && f in inputs1 && Less(LargestKey(inputs1), h.smallest)
    ensures Newer(h.entries, f.entries)
  {
    hide LevelsOrdered, Level0Ordered, UniqueNumbers, Covered, LargestKey;
    InputOfLevel(v, level, inputs0, inputs1, f);
    ValidTableRange(h);
    ValidTableRange(f);
    KeyRangeIsTight(inputs1);
    assert !StartsAtBoundary(LargestKey(inputs1), h);
  }

  /** A boundary file holds an entry older than the last one of the inputs, for one key. */
  lemma BoundaryFileIsOlder(v: Levels, level: nat, inputs0: Files, inputs1: Files, t: Table)
    requires LevelsOk(v) && GoodChoice(v, level, inputs0, inputs1) && inputs1 != []
    requires t in v[level + 1] && StartsAtBoundary(LargestKey(inputs1), t)
    ensures t !in inputs1 && exists g :: g in inputs1 && !Newer(t.entries, g.entries)
  {
    hide LevelsOrdered, Level0Ordered, UniqueNumbers, Covered, LargestKey;
    KeyRangeIsTight(inputs1);
    var g :| g in inputs1 && g.largest == LargestKey(inputs1);
    InputOfLevel(v, level, inputs0, inputs1, g);
    ValidTableRange(t);
    assert t in inputs1 ==> !Less(LargestKey(inputs1), t.largest);
    var y :| y in g.entries && y.key == g.largest;
    var x :| x in t.entries && x.key == t.smallest;
    assert x.key.seqno <= y.key.seqno;
    assert !Newer(t.entries, g.entries);
  }
}

/** What a compaction drops, and why no reader at or above the smallest live snapshot
    can tell the difference. */
module CompactionDrop {
  import opened DbFormat
  import opened Tables

  ghost predicate Sorted(input: seq<Entry>) {
    forall i, j :: 0 <= i < j < |input| ==> Less(input[i].key, input[j].key)
  }

  ghost function SetOf(input: seq<Entry>): (es: set<Entry>)
    ensures forall e :: e in es <==> e in input
  {
    set e | e in input
  }

  // ----- the rule of the compaction loop, entry by entry -----

  /** last_sequence_for_key when the loop reaches entry i. */
  function LastSequenceForKey(input: seq<Entry>, i: nat): nat
    requires i < |input|
  {
    if i > 0 && input[i - 1].key.ukey == input[i].key.ukey then input[i - 1].key.seqno else MAX_SEQUENCE
  }

  predicate DropAt(input: seq<Entry>, i: nat, snapshot: nat, v: Levels, level: nat)
    requires i < |input|
  {
    || LastSequenceForKey(input, i) <= snapshot
    || (input[i].key.kind.Deletion? && input[i].key.seqno <= snapshot && BaseLevel(v, level, input[i].key.ukey))
  }

  /** What the loop has kept of the first n entries. */
  function Kept(input: seq<Entry>, n: nat, snapshot: nat, v: Levels, level: nat): seq<Entry>
    requires n <= |input|
  {
    if n == 0 then []
    else
      var before := Kept(input, n - 1, snapshot, v, level);
      if DropAt(input, n - 1, snapshot, v, level) then before else before + [input[n - 1]]
  }

  function Concat(outputs: seq<seq<Entry>>): seq<Entry> {
    if outputs == [] then [] else Concat(outputs[..|outputs| - 1]) + outputs[|outputs| - 1]
  }

  lemma {:induction false} ChunkInConcat(chunks: seq<seq<Entry>>, i: nat, x: Entry)
    requires i < |chunks| && x in chunks[i]
    ensures x in Concat(chunks)
  {
    if i < |chunks| - 1 {
      ChunkInConcat(chunks[..|chunks| - 1], i, x);
    }
  }

  lemma {:induction false} ConcatInChunk(chunks: seq<seq<Entry>>, x: Entry) returns (i: nat)
    requires x in Concat(chunks)
    ensures i < |chunks| && x in chunks[i]
  {
    if x in chunks[|chunks| - 1] {
      i := |chunks| - 1;
    } else {
      i := ConcatInChunk(chunks[..|chunks| - 1], x);
    }
  }

  // ----- the same rule on sets -----

  /** Hidden from every snapshot >= snapshot by a newer entry of the input. */
  ghost predicate Hidden(input: set<Entry>, snapshot: nat, e: Entry) {
    exists n :: n in input && n.key.ukey == e.key.ukey && e.key.seqno < n.key.seqno <= snapshot
  }

  /** A deletion marker with nothing below it left to hide. */
  ghost predicate Obsolete(snapshot: nat, base: set<UserKey>, e: Entry) {
    e.key.kind.Deletion? && e.key.seqno <= snapshot && e.key.ukey in base
  }

  ghost function KeptSet(input: set<Entry>, snapshot: nat, base: set<UserKey>): (kept: set<Entry>)
    ensures kept <= input
  {
    set e | e in input && !Hidden(input, snapshot, e) && !Obsolete(snapshot, base, e)
  }

  ghost function BaseKeys(input: set<Entry>, v: Levels, level: nat): set<UserKey> {
    set e | e in input && BaseLevel(v, level, e.key.ukey) :: e.key.ukey
  }

  ghost predicate DistinctInput(input: seq<Entry>) {
    && Sorted(input)
    && Distinct(SetOf(input))
  }

  /** What is kept: everything newer than the snapshot, and for each key the entry a reader at
      the snapshot reads, unless that is a deletion marker with nothing below. */
  lemma KeptIff(input: set<Entry>, snapshot: nat, base: set<UserKey>, e: Entry)
    requires Distinct(input)
    ensures e in KeptSet(input, snapshot, base) <==>
      && e in input
      && (e.key.seqno > snapshot || (Newest(input, e.key.ukey, snapshot, e) && !(e.key.kind.Deletion? && e.key.ukey in base)))
  {
    if e in input && e.key.seqno <= snapshot && !Hidden(input, snapshot, e) {
      forall x | Visible(input, e.key.ukey, snapshot, x) ensures x.key.seqno <= e.key.seqno {
      }
    }
    if e in input && e.key.seqno <= snapshot && Newest(input, e.key.ukey, snapshot, e) {
      forall n | n in input && n.key.ukey == e.key.ukey && n.key.seqno <= snapshot ensures n.key.seqno <= e.key.seqno {
        assert Visible(input, e.key.ukey, snapshot, n);
      }
    }
  }

  /** One step of the loop agrees with the rule on sets. */
  lemma DropAtIsDropped(input: seq<Entry>, i: nat, snapshot: nat, v: Levels, level: nat)
    requires DistinctInput(input) && i < |input| && snapshot < MAX_SEQUENCE
    ensures DropAt(input, i, snapshot, v, level) <==>
      input[i] !in KeptSet(SetOf(input), snapshot, BaseKeys(SetOf(input), v, level))
  {
    var es, e := SetOf(input), input[i];
    assert e in es;
    if LastSequenceForKey(input, i) <= snapshot {
      assert Less(input[i - 1].key, e.key) && input[i - 1] in es;
      assert input[i - 1].key.seqno != e.key.seqno;
    }
    if n :| n in es && n.key.ukey == e.key.ukey && e.key.seqno < n.key.seqno <= snapshot {
      var j :| 0 <= j < |input| && input[j] == n;
      assert Less(n.key, e.key) && j < i;
      assert input[i - 1].key.ukey == e.key.ukey && input[i - 1].key.seqno <= n.key.seqno;
    }
  }

  /** What is kept of the first n entries is, in order, what the step rule does not drop. */
  lemma {:induction false} KeptMembers(input: seq<Entry>, n: nat, snapshot: nat, v: Levels, level: nat)
    requires Sorted(input) && n <= |input|
    ensures Sorted(Kept(input, n, snapshot, v, level))
    ensures forall e :: e in Kept(input, n, snapshot, v, level) <==>
      exists i :: 0 <= i < n && input[i] == e && !DropAt(input, i, snapshot, v, level)
  {
    if n > 0 {
      KeptMembers(input, n - 1, snapshot, v, level);
      var before := Kept(input, n - 1, snapshot, v, level);
      forall x | x in before ensures Less(x.key, input[n - 1].key) {
        var i :| 0 <= i < n - 1 && input[i] == x && !DropAt(input, i, snapshot, v, level);
      }
    }
  }

  /** The whole loop keeps exactly the entries the rule on sets keeps, in order. */
  lemma KeptIsKeptSet(input: seq<Entry>, snapshot: nat, v: Levels, level: nat)
    requires DistinctInput(input) && snapshot < MAX_SEQUENCE
    ensures Sorted(Kept(input, |input|, snapshot, v, level))
    ensures SetOf(Kept(input, |input|, snapshot, v, level))
      == KeptSet(SetOf(input), snapshot, BaseKeys(SetOf(input), v, level))
  {
    KeptMembers(input, |input|, snapshot, v, level);
    var kept, keptSet := Kept(input, |input|, snapshot, v, level), KeptSet(SetOf(input), snapshot, BaseKeys(SetOf(input), v, level));
    forall e | e in kept ensures e in keptSet {
      var i :| 0 <= i < |input| && input[i] == e && !DropAt(input, i, snapshot, v, level);
      DropAtIsDropped(input, i, snapshot, v, level);
    }
    forall e | e in keptSet ensures e in kept {
      var i :| 0 <= i < |input| && input[i] == e;
      DropAtIsDropped(input, i, snapshot, v, level);
    }
  }

  /** With a snapshot at the last representable sequence number the first entry of each
      user key already counts as hidden, so the loop keeps nothing at all: the bound
      in the theorems below is exact. */
  lemma {:induction false} NothingSurvivesMaxSnapshot(input: seq<Entry>, n: nat, snapshot: nat, v: Levels, level: nat)
    requires n <= |input| && snapshot >= MAX_SEQUENCE
    requires forall e :: e in input ==> e.key.seqno <= MAX_SEQUENCE
    ensures Kept(input, n, snapshot, v, level) == []
  {
    if n > 0 {
      NothingSurvivesMaxSnapshot(input, n - 1, snapshot, v, level);
    }
  }

  // ----- readers -----

  /** A deletion marker that no snapshot sees covered, of a key no deeper level covers, with
      a value next below it that is not among the inputs. */
  ghost predicate Resurrects(rest: set<Entry>, input: set<Entry>, snapshot: nat, base: set<UserKey>, k: UserKey) {
    exists e, older :: e in input && Obsolete(snapshot, base, e) && Newest(rest + input, k, snapshot, e)
      && Newest(rest, k, e.key.seqno, older) && older.key.kind.Put?
  }

  /** What is left to read below a marker. */
  lemma ReadBelow(rest: set<Entry>, k: UserKey, s: nat)
    requires Distinct(rest)
    ensures Read(rest, k, s).Found? <==> exists older :: Newest(rest, k, s, older) && older.key.kind.Put?
  {
    if older :| Newest(rest, k, s, older) {
      ReadNewest(rest, k, s, older);
    }
  }

  /** Every user key reads the same before and after, at every snapshot a reader may hold. */
  ghost predicate SameView(before: set<Entry>, after: set<Entry>, snapshot: nat) {
    forall k, s :: s >= snapshot ==> Read(before, k, s) == Read(after, k, s)
  }

  lemma DistinctSubset(es: set<Entry>, fs: set<Entry>)
    requires Distinct(es) && fs <= es
    ensures Distinct(fs)
  {
  }

  lemma ShadowedIsHidden(input: set<Entry>, snapshot: nat, e: Entry, x: Entry)
    requires Distinct(input) && e in input && x in input && x != e
    requires x.key.ukey == e.key.ukey && x.key.seqno <= e.key.seqno <= snapshot
    ensures Hidden(input, snapshot, x)
  {
  }

  /** The newest entry at s is dropped only as an obsolete deletion marker, and then the
      rest of the database below it is what remains visible. */
  lemma DroppedNewest(rest: set<Entry>, input: set<Entry>, snapshot: nat, base: set<UserKey>, k: UserKey, s: nat, e: Entry)
    requires Distinct(rest + input) && rest !! input && s >= snapshot
    requires Newest(rest + input, k, s, e) && e in input && e !in KeptSet(input, snapshot, base)
    ensures Obsolete(snapshot, base, e) && Newest(rest + input, k, snapshot, e)
    ensures Read(rest + KeptSet(input, snapshot, base), k, s) == Read(rest, k, e.key.seqno)
  {
    var kept := KeptSet(input, snapshot, base);
    assert !Hidden(input, snapshot, e) by {
      if n :| n in input && n.key.ukey == e.key.ukey && e.key.seqno < n.key.seqno <= snapshot {
        assert Visible(rest + input, k, s, n);
      }
    }
    forall x | Visible(rest + input, k, snapshot, x) ensures x.key.seqno <= e.key.seqno {
      assert Visible(rest + input, k, s, x);
    }
    forall x | Visible(rest + kept, k, s, x) ensures Visible(rest, k, e.key.seqno, x) {
      assert Visible(rest + input, k, s, x);
      if x in input && x != e {
        ShadowedIsHidden(input, snapshot, e, x);
      }
    }
    DistinctSubset(rest + input, rest + kept);
    DistinctSubset(rest + input, rest);
    ReadSame(rest + kept, rest, k, s, e.key.seqno);
  }

  /** A kept newest entry is still the newest. */
  lemma KeptNewest(rest: set<Entry>, input: set<Entry>, kept: set<Entry>, k: UserKey, s: nat, e: Entry)
    requires Distinct(rest + input) && kept <= input
    requires Newest(rest + input, k, s, e) && (e in rest || e in kept)
    ensures Read(rest + kept, k, s) == Read(rest + input, k, s)
  {
    forall x | Visible(rest + kept, k, s, x) ensures x.key.seqno <= e.key.seqno {
      assert Visible(rest + input, k, s, x);
    }
    assert Newest(rest + kept, k, s, e);
    DistinctSubset(rest + input, rest + kept);
    ReadNewest(rest + kept, k, s, e);
    ReadNewest(rest + input, k, s, e);
  }

  lemma OneReadKept(rest: set<Entry>, input: set<Entry>, snapshot: nat, base: set<UserKey>, k: UserKey, s: nat)
    requires Distinct(rest + input) && rest !! input && s >= snapshot
    requires !Resurrects(rest, input, snapshot, base, k)
    ensures Read(rest + input, k, s) == Read(rest + KeptSet(input, snapshot, base), k, s)
  {
    var kept := KeptSet(input, snapshot, base);
    if x :| Visible(rest + input, k, s, x) {
      NewestExists(rest + input, k, s, x);
      var e :| Newest(rest + input, k, s, e);
      if e in rest || e in kept {
        KeptNewest(rest, input, kept, k, s, e);
      } else {
        DroppedNewest(rest, input, snapshot, base, k, s, e);
        ReadNewest(rest + input, k, s, e);
        DistinctSubset(rest + input, rest);
        ReadBelow(rest, k, e.key.seqno);
      }
    } else {
      forall x ensures !Visible(rest + kept, k, s, x) {
        assert !Visible(rest + input, k, s, x);
      }
      ReadAbsent(rest + input, k, s);
      ReadAbsent(rest + kept, k, s);
    }
  }

  /** Exactly when a compaction keeps every reader's view. */
  lemma ViewKeptIffNothingResurrects(rest: set<Entry>, input: set<Entry>, snapshot: nat, base: set<UserKey>)
    requires Distinct(rest + input) && rest !! input
    ensures SameView(rest + input, rest + KeptSet(input, snapshot, base), snapshot)
      <==> forall k :: !Resurrects(rest, input, snapshot, base, k)
  {
    if forall k :: !Resurrects(rest, input, snapshot, base, k) {
      forall k, s | s >= snapshot
        ensures Read(rest + input, k, s) == Read(rest + KeptSet(input, snapshot, base), k, s)
      {
        OneReadKept(rest, input, snapshot, base, k, s);
      }
    }
    forall k | Resurrects(rest, input, snapshot, base, k)
      ensures !SameView(rest + input, rest + KeptSet(input, snapshot, base), snapshot)
    {
      var e, older :| e in input && Obsolete(snapshot, base, e) && Newest(rest + input, k, snapshot, e)
        && Newest(rest, k, e.key.seqno, older) && older.key.kind.Put?;
      DistinctSubset(rest + input, rest);
      ReadBelow(rest, k, e.key.seqno);
      DroppedNewest(rest, input, snapshot, base, k, snapshot, e);
      ReadNewest(rest + input, k, snapshot, e);
      assert Read(rest + input, k, snapshot) != Read(rest + KeptSet(input, snapshot, base), k, snapshot);
    }
  }

  /** No entry outside the inputs is older than an input entry of a base-level key. */
  ghost predicate NothingOlderLeft(rest: set<Entry>, input: set<Entry>, base: set<UserKey>) {
    forall e, r :: e in input && r in rest && e.key.ukey in base && r.key.ukey == e.key.ukey
      ==> r.key.seqno > e.key.seqno
  }

  /** The compaction theorem. */
  lemma CompactionKeepsView(rest: set<Entry>, input: set<Entry>, snapshot: nat, base: set<UserKey>)
    requires Distinct(rest + input) && rest !! input && NothingOlderLeft(rest, input, base)
    ensures SameView(rest + input, rest + KeptSet(input, snapshot, base), snapshot)
  {
    ViewKeptIffNothingResurrects(rest, input, snapshot, base);
  }
}

/** Point lookup in one sorted list of entries, as the memtable and the table files do it:
    seek the lookup key and look at one entry. */
module SortedGet {
  import opened DbFormat
  import opened CompactionDrop
  import opened Cursors
  import opened Lookups

  function AtSeek(entries: seq<Entry>, k: UserKey, s: nat): Lookup {
    var p := SeekPos(entries, LookupKey(k, s));
    if p < |entries| && entries[p].key.ukey == k then Hit(entries[p]) else Miss
  }

  /** The entry the seek lands on is the newest visible one of its user key, and if it is
      another key's then the key has none. */
  lemma SeekAnswers(entries: seq<Entry>, k: UserKey, s: nat)
    requires Sorted(entries)
    ensures Answers(AtSeek(entries, k, s), SetOf(entries), k, s)
  {
    hide SeekPos;
    var p := SeekPos(entries, LookupKey(k, s));
    if p < |entries| && entries[p].key.ukey == k {
      LookupKeySplitsVisible(entries[p].key, k, s);
      assert entries[p] in entries;
    }
    forall x | Visible(SetOf(entries), k, s, x)
      ensures p < |entries| && entries[p].key.ukey == k && x.key.seqno <= entries[p].key.seqno
    {
      VisibleIsAfter(entries, k, s, x);
    }
  }

  lemma VisibleIsAfter(entries: seq<Entry>, k: UserKey, s: nat, x: Entry)
    requires Sorted(entries) && Visible(SetOf(entries), k, s, x)
    ensures
      var p := SeekPos(entries, LookupKey(k, s));
      p < |entries| && entries[p].key.ukey == k && x.key.seqno <= entries[p].key.seqno
  {
    hide SeekPos;
    var p, i := SeekPos(entries, LookupKey(k, s)), 0;
    i :| 0 <= i < |entries| && entries[i] == x;
    LookupKeySplitsVisible(x.key, k, s);
    SeekPosBelow(entries, LookupKey(k, s), i);
    assert p < i ==> Less(entries[p].key, entries[i].key);
  }
}

/** The memtable: entries in a skip list, one seek per lookup. */
module MemTables {
  import opened DbFormat
  import opened CompactionDrop
  import opened Cursors
  import opened SkipList
  import opened SortedGet
  import opened Lookups

  class MemTable {
    const table: SkipList

    ghost predicate Valid()
      reads table, table.nodes
    {
      table.Valid()
    }

    /** The set of entries, as the read specification sees the memtable. */
    ghost function Contents(): set<Entry>
      reads table
    {
      SetOf(table.Entries())
    }

    constructor ()
      ensures Valid() && fresh(table) && fresh(table.nodes) && Contents() == {}
    {
      table := new SkipList();
    }

    /** Height is what the random number generator says. */
    method Add(seqno: nat, kind: Kind, ukey: UserKey, value: Value, height: nat)
      requires Valid() && 1 <= height <= MAX_HEIGHT
      requires forall e :: e in Contents() ==> e.key != InternalKey(ukey, seqno, kind)
      modifies table, table.nodes
      ensures Valid() && Contents() == old(Contents()) + {Entry(InternalKey(ukey, seqno, kind), value)}
      ensures forall n: Node :: n in table.nodes ==> n in old(table.nodes) || fresh(n)
    {
      var e := Entry(InternalKey(ukey, seqno, kind), value);
      ghost var es := table.Entries();
      table.Insert(e, height);
      SetWith(es, SeekPos(es, e.key), e);
    }

    lemma SetWith(es: seq<Entry>, place: nat, e: Entry)
      requires place <= |es|
      ensures SetOf(WithNode(es, place, e)) == SetOf(es) + {e}
    {
      var after := WithNode(es, place, e);
      forall x ensures x in after <==> x in es || x == e {
        if x in es {
          var i :| 0 <= i < |es| && es[i] == x;
          assert after[Shifted(place, i)] == x;
        }
        if x == e {
          assert after[place] == x;
        }
      }
    }

    /** The newest visible entry of the key, or none. */
    method Get(k: UserKey, s: nat) returns (r: Lookup)
      requires Valid()
      ensures Answers(r, Contents(), k, s)
      ensures Distinct(Contents()) && r.Hit? ==> ResultOf(r) == Read(Contents(), k, s)
    {
      hide Less, SeekPos, SkipList.Valid, Answers, Read;
      table.SortedEntries();
      table.Basics();
      var iter := new Iterator(table);
      iter.Seek(LookupKey(k, s));
      r := Miss;
      if iter.Valid() && iter.node.key.key.ukey == k {
        r := Hit(iter.node.key);
      }
      SeekAnswers(table.Entries(), k, s);
      assert r == AtSeek(table.Entries(), k, s);
      if Distinct(Contents()) {
        AnswersIsRead(r, Contents(), k, s);
      }
    }
  }
}

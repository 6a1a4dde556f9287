/** A cursor over a sorted list of entries: what every internal iterator is meant to be.
    Position |entries| stands for "not valid". */
module Cursors {
  import opened DbFormat
  import opened CompactionDrop

  /** The first position whose key is not below the target. */
  function SeekPos(entries: seq<Entry>, target: InternalKey): (pos: nat)
    ensures pos <= |entries|
    ensures forall i :: 0 <= i < pos ==> Less(entries[i].key, target)
    ensures pos < |entries| ==> !Less(entries[pos].key, target)
  {
    if entries == [] || !Less(entries[0].key, target) then 0 else 1 + SeekPos(entries[1..], target)
  }

  lemma SeekPosUnique(es: seq<Entry>, target: InternalKey, pos: nat)
    requires pos <= |es| && (forall i :: 0 <= i < pos ==> Less(es[i].key, target))
    requires pos < |es| ==> !Less(es[pos].key, target)
    ensures SeekPos(es, target) == pos
  {
    hide Less;
  }

  /** In a sorted list, entries below the target are before the place sought, and the
      others are not. */
  lemma SeekPosBeyond(es: seq<Entry>, target: InternalKey, i: nat)
    requires Sorted(es) && i < |es| && Less(es[i].key, target)
    ensures i < SeekPos(es, target)
  {
    hide Less;
    if SeekPos(es, target) < i {
      CompareIsTotalOrder(es[SeekPos(es, target)].key, es[i].key, target);
    }
  }

  lemma SeekPosBelow(es: seq<Entry>, target: InternalKey, i: nat)
    requires i < |es| && !Less(es[i].key, target)
    ensures SeekPos(es, target) <= i
  {
    hide Less;
  }

  function PrevPos(length: nat, pos: nat): nat {
    if pos == 0 then length else pos - 1
  }

  function LastPos(length: nat): nat {
    PrevPos(length, length)
  }

  class ListIterator {
    const entries: seq<Entry>
    var pos: nat

    ghost predicate Ok()
      reads this
    {
      Sorted(entries) && pos <= |entries|
    }

    constructor (entries: seq<Entry>)
      requires Sorted(entries)
      ensures Ok() && this.entries == entries && pos == |entries|
    {
      this.entries := entries;
      pos := |entries|;
    }

    predicate Valid()
      reads this
    {
      pos < |entries|
    }

    function Key(): InternalKey
      requires Valid()
      reads this
    {
      entries[pos].key
    }

    function Value(): Value
      requires Valid()
      reads this
    {
      entries[pos].value
    }

    method SeekToFirst()
      modifies this
      ensures pos == 0
    {
      pos := 0;
    }

    method SeekToLast()
      modifies this
      ensures pos == LastPos(|entries|)
    {
      pos := PrevPos(|entries|, |entries|);
    }

    method Seek(target: InternalKey)
      requires Ok()
      modifies this
      ensures Ok() && pos == SeekPos(entries, target)
    {
      hide Less;
      var lo, hi := 0, |entries|;
      while lo < hi
        invariant lo <= hi <= |entries|
        invariant forall i :: 0 <= i < lo ==> Less(entries[i].key, target)
        invariant hi < |entries| ==> !Less(entries[hi].key, target)
      {
        var mid := (lo + hi) / 2;
        if Less(entries[mid].key, target) {
          forall i | 0 <= i < mid ensures Less(entries[i].key, target) {
            CompareIsTotalOrder(entries[i].key, entries[mid].key, target);
          }
          lo := mid + 1;
        } else {
          hi := mid;
        }
      }
      pos := lo;
    }

    method Next()
      requires Ok() && Valid()
      modifies this
      ensures Ok() && pos == old(pos) + 1
    {
      pos := pos + 1;
    }

    method Prev()
      requires Ok() && Valid()
      modifies this
      ensures Ok() && pos == PrevPos(|entries|, old(pos))
    {
      pos := PrevPos(|entries|, pos);
    }
  }
}

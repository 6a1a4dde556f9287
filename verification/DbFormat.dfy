/** Internal keys, entries and the read specification of the whole engine.

    A database holds entries (user key, sequence number, kind, value).  A read at
    snapshot s of user key k answers with the newest entry of k whose sequence
    number is at most s; a deletion marker answers "not found". */
module DbFormat {

  /** User keys under the user comparator.  Byte strings are countable and every
      countable total order embeds in the reals, so a key is its rank there. */
  type UserKey = real

  type Value = seq<nat>

  datatype Kind = Deletion | Put

  const MAX_SEQUENCE: nat := 0xFF_FFFF_FFFF_FFFF

  datatype InternalKey = InternalKey(ukey: UserKey, seqno: nat, kind: Kind)

  datatype Entry = Entry(key: InternalKey, value: Value)

  /** The tag: sequence number and kind packed into one number. */
  function Pack(k: InternalKey): nat {
    k.seqno * 256 + if k.kind.Put? then 1 else 0
  }

  /** Internal key order: user key ascending, then tag descending. */
  function Compare(a: InternalKey, b: InternalKey): int {
    if a.ukey < b.ukey then -1
    else if a.ukey > b.ukey then 1
    else if Pack(a) > Pack(b) then -1
    else if Pack(a) < Pack(b) then 1
    else 0
  }

  predicate Less(a: InternalKey, b: InternalKey) {
    Compare(a, b) < 0
  }

  /** The comparator is a strict total order whose ties are equal keys, and for one
      user key it lists newer entries first. */
  lemma CompareIsTotalOrder(a: InternalKey, b: InternalKey, c: InternalKey)
    ensures Compare(a, b) == 0 <==> a == b
    ensures Compare(a, b) == -Compare(b, a)
    ensures Less(a, b) && Less(b, c) ==> Less(a, c)
    ensures a.ukey == b.ukey && a.seqno > b.seqno ==> Less(a, b)
  {
  }

  function LookupKey(k: UserKey, s: nat): InternalKey {
    InternalKey(k, s, Put)
  }

  /** An entry of user key k is visible at snapshot s exactly when it does not come
      before the lookup key (k, s) in internal key order. */
  lemma LookupKeySplitsVisible(e: InternalKey, k: UserKey, s: nat)
    requires e.ukey == k
    ensures e.seqno <= s <==> !Less(e, LookupKey(k, s))
  {
  }

  // ----- the read specification -----

  /** No two entries share user key and sequence number. */
  ghost predicate Distinct(es: set<Entry>) {
    forall a, b :: a in es && b in es && a.key.ukey == b.key.ukey && a.key.seqno == b.key.seqno ==> a == b
  }

  ghost predicate Visible(es: set<Entry>, k: UserKey, s: nat, e: Entry) {
    e in es && e.key.ukey == k && e.key.seqno <= s
  }

  ghost predicate Newest(es: set<Entry>, k: UserKey, s: nat, e: Entry) {
    && Visible(es, k, s, e)
    && forall x :: Visible(es, k, s, x) ==> x.key.seqno <= e.key.seqno
  }

  datatype Answer = Found(value: Value) | NotFound

  function AnswerOf(e: Entry): Answer {
    if e.key.kind.Put? then Found(e.value) else NotFound
  }

  ghost function TheNewest(es: set<Entry>, k: UserKey, s: nat): (e: Entry)
    requires exists e :: Newest(es, k, s, e)
    ensures Newest(es, k, s, e)
  {
    var e :| Newest(es, k, s, e);
    e
  }

  ghost function Read(es: set<Entry>, k: UserKey, s: nat): Answer {
    if exists e :: Newest(es, k, s, e) then AnswerOf(TheNewest(es, k, s)) else NotFound
  }

  lemma {:induction false} NewestExists(es: set<Entry>, k: UserKey, s: nat, e: Entry)
    requires Visible(es, k, s, e)
    ensures exists m :: Newest(es, k, s, m)
    decreases es
  {
    if x :| Visible(es, k, s, x) && x.key.seqno > e.key.seqno {
      assert Visible(es - {e}, k, s, x);
      NewestExists(es - {e}, k, s, x);
      var m :| Newest(es - {e}, k, s, m);
      assert Visible(es - {e}, k, s, m);
      forall y | Visible(es, k, s, y) ensures y.key.seqno <= m.key.seqno {
        if y != e {
          assert Visible(es - {e}, k, s, y);
        }
      }
      assert Newest(es, k, s, m);
    } else {
      assert Newest(es, k, s, e);
    }
  }

  /** The newest visible entry decides the answer. */
  lemma ReadNewest(es: set<Entry>, k: UserKey, s: nat, e: Entry)
    requires Distinct(es) && Newest(es, k, s, e)
    ensures Read(es, k, s) == AnswerOf(e)
  {
    var m := TheNewest(es, k, s);
    assert Visible(es, k, s, m) && Visible(es, k, s, e);
  }

  lemma ReadAbsent(es: set<Entry>, k: UserKey, s: nat)
    requires forall e :: !Visible(es, k, s, e)
    ensures Read(es, k, s) == NotFound
  {
  }

  /** Reading only depends on the visible entries of the key. */
  lemma ReadSame(es: set<Entry>, fs: set<Entry>, k: UserKey, s: nat, t: nat)
    requires Distinct(es) && Distinct(fs)
    requires forall e :: Visible(es, k, s, e) <==> Visible(fs, k, t, e)
    ensures Read(es, k, s) == Read(fs, k, t)
  {
    if e :| Visible(es, k, s, e) {
      NewestExists(es, k, s, e);
      var m :| Newest(es, k, s, m);
      assert Newest(fs, k, t, m);
      ReadNewest(es, k, s, m);
      ReadNewest(fs, k, t, m);
    } else {
      ReadAbsent(es, k, s);
      ReadAbsent(fs, k, t);
    }
  }

  // ----- layers -----

  /** Every entry of a is newer than every entry of b for the same user key. */
  ghost predicate Newer(a: set<Entry>, b: set<Entry>) {
    forall x, y :: x in a && y in b && x.key.ukey == y.key.ukey ==> x.key.seqno > y.key.seqno
  }

  /** Searching the newer layer first and stopping at any hit is reading the union. */
  lemma ReadLayered(a: set<Entry>, b: set<Entry>, k: UserKey, s: nat)
    requires Newer(a, b) && Distinct(a) && Distinct(b)
    ensures Distinct(a + b)
    ensures Read(a + b, k, s) == if exists e :: Visible(a, k, s, e) then Read(a, k, s) else Read(b, k, s)
  {
    if e :| Visible(a, k, s, e) {
      NewestExists(a, k, s, e);
      var m :| Newest(a, k, s, m);
      assert Newest(a + b, k, s, m);
      ReadNewest(a, k, s, m);
      ReadNewest(a + b, k, s, m);
    } else {
      forall e ensures Visible(a + b, k, s, e) <==> Visible(b, k, s, e) {
        if Visible(a + b, k, s, e) && e in a {
          assert Visible(a, k, s, e);
        }
      }
      ReadSame(a + b, b, k, s, s);
    }
  }
}

/** What looking a user key up in one place may answer, and the lookup in a memtable. */
module Lookups {
  import opened DbFormat

  datatype Lookup = Hit(e: Entry) | Miss

  /** Hit is the newest visible entry, Miss means there is none. */
  ghost predicate Answers(r: Lookup, es: set<Entry>, k: UserKey, s: nat) {
    match r
    case Hit(e) => Newest(es, k, s, e)
    case Miss => forall e :: !Visible(es, k, s, e)
  }

  function ResultOf(r: Lookup): Answer {
    if r.Hit? then AnswerOf(r.e) else NotFound
  }

  lemma AnswersIsRead(r: Lookup, es: set<Entry>, k: UserKey, s: nat)
    requires Distinct(es) && Answers(r, es, k, s)
    ensures ResultOf(r) == Read(es, k, s)
  {
    match r {
      case Hit(e) => ReadNewest(es, k, s, e);
      case Miss => ReadAbsent(es, k, s);
    }
  }

  /** The newest visible entry of the key in a memtable. */
  method GetFrom(es: set<Entry>, k: UserKey, s: nat) returns (r: Lookup)
    ensures Answers(r, es, k, s)
  {
    r := Miss;
    var rest := es;
    while rest != {}
      invariant rest <= es
      invariant r.Hit? ==> Visible(es, k, s, r.e)
      invariant forall x :: Visible(es, k, s, x) && x !in rest ==> r.Hit? && x.key.seqno <= r.e.key.seqno
      decreases rest
    {
      var e :| e in rest;
      rest := rest - {e};
      if e.key.ukey == k && e.key.seqno <= s && (r.Miss? || r.e.key.seqno < e.key.seqno) {
        r := Hit(e);
      }
    }
  }
}

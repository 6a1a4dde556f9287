/** Comparators: what a user-supplied one has to promise, and the one the database builds
    from it for internal keys. */
module Comparators {
  import opened Coding

  /** Does one key come before another? */
  type Order = (Bytes, Bytes) -> bool

  datatype Comparator = Comparator(less: Order, separator: (Bytes, Bytes) -> Bytes, successor: Bytes -> Bytes)

  ghost predicate Transitive(less: Order) {
    forall a, b, c :: less(a, b) && less(b, c) ==> less(a, c)
  }

  /** Only equal keys are neither before nor after each other. */
  ghost predicate Total(less: Order) {
    && (forall a :: !less(a, a))
    && (forall a, b :: less(a, b) || less(b, a) || a == b)
  }

  /** A separator of start and limit lies in [start, limit); where there is nothing to
      separate, start stays. */
  ghost predicate Separates(c: Comparator) {
    forall start, limit ::
      if c.less(start, limit) then !c.less(c.separator(start, limit), start) && c.less(c.separator(start, limit), limit)
      else c.separator(start, limit) == start
  }

  ghost predicate Succeeds(c: Comparator) {
    forall key :: !c.less(c.successor(key), key)
  }

  ghost predicate Honest(c: Comparator) {
    Transitive(c.less) && Total(c.less) && Separates(c) && Succeeds(c)
  }

  // ----- internal keys: a user key and eight bytes of sequence number and type -----

  const SEEK_TAG: uint64 := 0xFF_FFFF_FFFF_FFFF * 256 + 1

  predicate IsInternalKey(key: Bytes) {
    |key| >= 8
  }

  function UserKey(key: Bytes): Bytes {
    if |key| < 8 then [] else key[..|key| - 8]
  }

  function Tag(key: Bytes): uint64 {
    if |key| < 8 then 0 else DecodeFixed64(key[|key| - 8..])
  }

  function WithTag(ukey: Bytes, tag: uint64): (key: Bytes)
    ensures IsInternalKey(key) && UserKey(key) == ukey
  {
    ukey + EncodeFixed64(tag)
  }

  predicate InternalLess(less: Order, a: Bytes, b: Bytes) {
    less(UserKey(a), UserKey(b)) || (!less(UserKey(b), UserKey(a)) && Tag(a) > Tag(b))
  }

  /** A user key that got shorter but larger is followed by the earliest possible tag. */
  function Shortened(less: Order, key: Bytes, tmp: Bytes): (short: Bytes)
    ensures short == key || (UserKey(short) == tmp && less(UserKey(key), tmp))
    ensures IsInternalKey(key) ==> IsInternalKey(short)
  {
    if |tmp| < |UserKey(key)| && less(UserKey(key), tmp) then WithTag(tmp, SEEK_TAG) else key
  }

  function Internal(user: Comparator): Comparator {
    Comparator(
      (a, b) => InternalLess(user.less, a, b),
      (start, limit) => Shortened(user.less, start, user.separator(UserKey(start), UserKey(limit))),
      key => Shortened(user.less, key, user.successor(UserKey(key))))
  }

  lemma InternalTransitive(user: Comparator)
    requires Honest(user)
    ensures Transitive(Internal(user).less)
  {
    var less := user.less;
    forall a, b, c | InternalLess(less, a, b) && InternalLess(less, b, c) ensures InternalLess(less, a, c) {
      var x, y, z := UserKey(a), UserKey(b), UserKey(c);
      assert !less(x, y) && !less(y, x) ==> x == y;
      assert !less(y, z) && !less(z, y) ==> y == z;
    }
  }

  /** A separator of two internal keys is the first one or has a user key strictly between
      theirs. */
  lemma InternalSeparator(user: Comparator, start: Bytes, limit: Bytes)
    requires Honest(user) && InternalLess(user.less, start, limit)
    ensures
      var sep := Internal(user).separator(start, limit);
      sep == start || (user.less(UserKey(start), UserKey(sep)) && user.less(UserKey(sep), UserKey(limit)))
  {
    hide DecodeFixed64, EncodeFixed64;
    assert user.less(UserKey(start), UserKey(limit)) || UserKey(start) == UserKey(limit);
  }

  lemma InternalSuccessor(user: Comparator, key: Bytes)
    ensures
      var next := Internal(user).successor(key);
      next == key || user.less(UserKey(key), UserKey(next))
  {
    hide DecodeFixed64, EncodeFixed64;
    assert Internal(user).successor(key) == Shortened(user.less, key, user.successor(UserKey(key)));
  }

  /** What is after a is after a's successors too, or they are. */
  ghost predicate Weak(less: Order) {
    forall a, b, c :: less(a, b) ==> less(a, c) || less(c, b)
  }

  lemma InternalWeak(user: Comparator)
    requires Honest(user)
    ensures Weak(Internal(user).less)
  {
    var less := user.less;
    forall a, b, c | InternalLess(less, a, b) ensures InternalLess(less, a, c) || InternalLess(less, c, b) {
      var x, y, z := UserKey(a), UserKey(b), UserKey(c);
      assert less(x, y) || x == y;
      assert less(x, z) || less(z, x) || x == z;
      assert less(y, z) || less(z, y) || y == z;
    }
  }

  /** So the internal comparator keeps the promises of a comparator, except that keys with
      equal user key and tag only count as one when they have eight bytes or more. */
  lemma InternalSeparates(user: Comparator)
    requires Honest(user)
    ensures Transitive(Internal(user).less) && Separates(Internal(user)) && Succeeds(Internal(user))
  {
    InternalTransitive(user);
    var c := Internal(user);
    forall start, limit | c.less(start, limit)
      ensures !c.less(c.separator(start, limit), start) && c.less(c.separator(start, limit), limit)
    {
      InternalSeparator(user, start, limit);
    }
    forall start, limit | !c.less(start, limit) ensures c.separator(start, limit) == start {
      assert !user.less(UserKey(start), UserKey(limit));
    }
    forall key ensures !c.less(c.successor(key), key) {
      InternalSuccessor(user, key);
    }
  }

  // ----- the built-in comparator -----

  predicate BytewiseLess(a: Bytes, b: Bytes) {
    b != [] && (a == [] || a[0] < b[0] || (a[0] == b[0] && BytewiseLess(a[1..], b[1..])))
  }

  function BytewiseSeparator(start: Bytes, limit: Bytes): Bytes {
    var n := CommonPrefix(start, limit);
    if n < |start| && n < |limit| && start[n] < 255 && start[n] + 1 < limit[n] then start[..n] + [start[n] + 1] else start
  }

  function BytewiseSuccessor(key: Bytes): Bytes {
    if key == [] then [] else if key[0] != 255 then [key[0] + 1] else [key[0]] + BytewiseSuccessor(key[1..])
  }

  const BYTEWISE := Comparator((a, b) => BytewiseLess(a, b), (a, b) => BytewiseSeparator(a, b), key => BytewiseSuccessor(key))

  lemma {:induction false} BytewiseIsOrder(a: Bytes, b: Bytes, c: Bytes)
    ensures !BytewiseLess(a, a)
    ensures BytewiseLess(a, b) || BytewiseLess(b, a) || a == b
    ensures BytewiseLess(a, b) && BytewiseLess(b, c) ==> BytewiseLess(a, c)
    decreases |a| + |b| + |c|
  {
    if a != [] {
      BytewiseIsOrder(a[1..], if b == [] then b else b[1..], if c == [] then c else c[1..]);
      assert b != [] && a[0] == b[0] && a[1..] == b[1..] ==> a == [a[0]] + a[1..] == [b[0]] + b[1..] == b;
    }
  }

  /** Keys that agree up to some byte are ordered by that byte. */
  lemma {:induction false} DifferAt(a: Bytes, b: Bytes, n: nat)
    requires n < |a| && n < |b| && a[..n] == b[..n] && a[n] != b[n]
    ensures BytewiseLess(a, b) <==> a[n] < b[n]
  {
    if n > 0 {
      assert a[0] == a[..n][0] == b[..n][0] == b[0];
      assert a[1..][..n - 1] == a[..n][1..] && b[1..][..n - 1] == b[..n][1..];
      DifferAt(a[1..], b[1..], n - 1);
    }
  }

  lemma BytewiseSeparates(start: Bytes, limit: Bytes)
    ensures
      var sep := BytewiseSeparator(start, limit);
      if BytewiseLess(start, limit) then !BytewiseLess(sep, start) && BytewiseLess(sep, limit) else sep == start
  {
    hide CommonPrefix, BytewiseLess;
    var n, sep := CommonPrefix(start, limit), BytewiseSeparator(start, limit);
    if sep == start {
      BytewiseIsOrder(start, start, start);
    } else {
      assert sep[..n] == start[..n];
      DifferAt(sep, start, n);
      DifferAt(sep, limit, n);
      DifferAt(start, limit, n);
    }
  }

  /** A proper prefix comes before the whole. */
  lemma {:induction false} PrefixIsLess(a: Bytes, b: Bytes)
    requires a < b
    ensures BytewiseLess(a, b)
  {
    if a != [] {
      assert a[0] == b[0] && a[1..] < b[1..];
      PrefixIsLess(a[1..], b[1..]);
    }
  }

  /** No key as long as what two keys share lies between them. */
  lemma NoShorterBetween(start: Bytes, limit: Bytes, n: nat, t: Bytes)
    requires n < |start| && n < |limit| && start[..n] == limit[..n] && |t| <= n
    ensures BytewiseLess(t, start) || !BytewiseLess(t, limit)
  {
    hide BytewiseLess, CommonPrefix;
    var j := CommonPrefix(t, start);
    if j == |t| {
      assert t == start[..|t|];
      PrefixIsLess(t, start);
    } else {
      assert start[j] == start[..n][j] == limit[..n][j] == limit[j];
      assert start[..j] == start[..n][..j] == limit[..n][..j] == limit[..j];
      DifferAt(t, start, j);
      DifferAt(t, limit, j);
    }
  }

  /** A separator that is not the key itself is as short as any key from it up to the limit. */
  lemma SeparatorIsShortest(start: Bytes, limit: Bytes, t: Bytes)
    requires BytewiseSeparator(start, limit) != start && !BytewiseLess(t, start) && BytewiseLess(t, limit)
    ensures |BytewiseSeparator(start, limit)| <= |t|
  {
    hide BytewiseLess, CommonPrefix;
    var n := CommonPrefix(start, limit);
    if |t| <= n {
      NoShorterBetween(start, limit, n, t);
    }
  }

  /** A successor is as short as any key at or after the key. */
  lemma {:induction false} SuccessorIsShortest(key: Bytes, t: Bytes)
    requires !BytewiseLess(t, key)
    ensures |BytewiseSuccessor(key)| <= |t|
  {
    if key != [] && key[0] == 255 {
      assert t != [] && t[0] == 255;
      SuccessorIsShortest(key[1..], t[1..]);
    }
  }

  lemma {:induction false} BytewiseSucceeds(key: Bytes)
    ensures !BytewiseLess(BytewiseSuccessor(key), key)
  {
    if key != [] && key[0] == 255 {
      BytewiseSucceeds(key[1..]);
    }
  }

  /** The built-in comparator is honest. */
  lemma BytewiseIsHonest()
    ensures Honest(BYTEWISE)
  {
    hide BytewiseLess, BytewiseSeparator, BytewiseSuccessor;
    var c := BYTEWISE;
    forall a, b, d ensures !c.less(a, a) && (c.less(a, b) || c.less(b, a) || a == b) && (c.less(a, b) && c.less(b, d) ==> c.less(a, d)) {
      BytewiseIsOrder(a, b, d);
    }
    forall start, limit
      ensures if c.less(start, limit) then !c.less(c.separator(start, limit), start) && c.less(c.separator(start, limit), limit)
        else c.separator(start, limit) == start
    {
      BytewiseSeparates(start, limit);
    }
    forall key ensures !c.less(c.successor(key), key) {
      BytewiseSucceeds(key);
    }
  }

  /** FindShortestSeparator of the built-in comparator, byte by byte. */
  method FindShortestSeparator(start: Bytes, limit: Bytes) returns (sep: Bytes)
    ensures sep == BytewiseSeparator(start, limit)
  {
    var minLength := if |start| < |limit| then |start| else |limit|;
    var diffIndex := 0;
    while diffIndex < minLength && start[diffIndex] == limit[diffIndex]
      invariant diffIndex <= minLength && start[..diffIndex] == limit[..diffIndex]
    {
      assert start[..diffIndex + 1] == start[..diffIndex] + [start[diffIndex]];
      assert limit[..diffIndex + 1] == limit[..diffIndex] + [limit[diffIndex]];
      diffIndex := diffIndex + 1;
    }
    CommonPrefixUnique(start, limit, diffIndex);
    sep := start;
    if diffIndex < minLength {
      var diffByte := start[diffIndex];
      if diffByte < 255 && diffByte + 1 < limit[diffIndex] {
        sep := sep[diffIndex := diffByte + 1];
        sep := sep[..diffIndex + 1];
        assert sep == start[..diffIndex] + [diffByte + 1];
      }
    }
  }

  method FindShortSuccessor(key: Bytes) returns (next: Bytes)
    ensures next == BytewiseSuccessor(key)
  {
    hide BytewiseSuccessor;
    next := key;
    for i := 0 to |key|
      invariant next == key && forall j :: 0 <= j < i ==> key[j] == 255
    {
      if key[i] != 255 {
        next := next[i := key[i] + 1];
        next := next[..i + 1];
        SuccessorAt(key, i);
        assert next == key[..i] + [key[i] + 1];
        return;
      }
    }
    SuccessorAt(key, |key|);
  }

  /** The successor raises the first byte that can be raised. */
  lemma {:induction false} SuccessorAt(key: Bytes, i: nat)
    requires i <= |key| && (forall j :: 0 <= j < i ==> key[j] == 255) && (i < |key| ==> key[i] != 255)
    ensures BytewiseSuccessor(key) == if i < |key| then key[..i] + [key[i] + 1] else key
  {
    if i > 0 {
      SuccessorAt(key[1..], i - 1);
      assert key == [key[0]] + key[1..];
      assert key[..i] == [key[0]] + key[1..][..i - 1];
    }
  }
}

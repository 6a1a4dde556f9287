/** Keys as numbers: the place of a byte string in the order of the user comparator. */
module Ranks {
  import opened Coding
  import opened Comparators

  /** Byte strings are countable and every countable total order embeds in the reals. */
  type Rank = Bytes -> real

  ghost predicate Ordered(rank: Rank, less: Order) {
    forall a, b :: less(a, b) <==> rank(a) < rank(b)
  }

  /** Different keys have different ranks, as they do under a total order. */
  ghost predicate Injective(rank: Rank) {
    forall a, b :: rank(a) == rank(b) ==> a == b
  }

  lemma OrderedIsInjective(rank: Rank, less: Order)
    requires Ordered(rank, less) && Total(less)
    ensures Injective(rank)
  {
    forall a, b | rank(a) == rank(b) ensures a == b {
      assert less(a, b) || less(b, a) || a == b;
    }
  }

  /** A byte string as the digits, raised by one, of a fraction to base 257. */
  function BytewiseRank(key: Bytes): (r: real)
    ensures 0.0 <= r < 1.0 && (key != [] ==> 0.0 < r)
  {
    if key == [] then 0.0 else Digit(key[0], BytewiseRank(key[1..]))
  }

  function Digit(b: byte, rest: real): (r: real)
    requires 0.0 <= rest < 1.0
    ensures 0.0 < r < 1.0
  {
    (b as real + 1.0 + rest) / 257.0
  }

  lemma DigitOrder(a: byte, x: real, b: byte, y: real)
    requires 0.0 <= x < 1.0 && 0.0 <= y < 1.0
    ensures Digit(a, x) < Digit(b, y) <==> a < b || (a == b && x < y)
  {
  }

  /** The order of the built-in comparator is the order of these fractions. */
  lemma {:induction false} BytewiseRankOrder(a: Bytes, b: Bytes)
    ensures BytewiseLess(a, b) <==> BytewiseRank(a) < BytewiseRank(b)
  {
    hide Digit;
    if a != [] && b != [] {
      DigitOrder(a[0], BytewiseRank(a[1..]), b[0], BytewiseRank(b[1..]));
      BytewiseRankOrder(a[1..], b[1..]);
    }
  }

  lemma BytewiseIsOrdered()
    ensures Ordered(BytewiseRank, BYTEWISE.less)
  {
    hide BytewiseRank, BytewiseLess;
    forall a, b ensures BYTEWISE.less(a, b) <==> BytewiseRank(a) < BytewiseRank(b) {
      BytewiseRankOrder(a, b);
    }
  }
}

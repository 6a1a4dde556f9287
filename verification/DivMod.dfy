/** Quotients and remainders. */
module DivMod {
  lemma {:induction false} MultipleAtLeast(x: nat, d: nat)
    requires x > 0
    ensures x * d >= d
  {
    if x > 1 {
      MultipleAtLeast(x - 1, d);
      assert x * d == (x - 1) * d + d;
    }
  }

  lemma Distribute(a: int, b: int, d: int)
    ensures (a - b) * d == a * d - b * d && (a + b) * d == a * d + b * d
  {
  }

  lemma QuotientUnique(q: nat, r: nat, q': nat, r': nat, d: nat)
    requires r < d && r' < d && q * d + r == q' * d + r'
    ensures q == q' && r == r'
  {
    Distribute(q, q', d);
    Distribute(q', q, d);
    if q > q' {
      MultipleAtLeast(q - q', d);
      assert false;
    } else if q < q' {
      MultipleAtLeast(q' - q, d);
      assert false;
    }
  }

  lemma DivModUnique(n: nat, d: nat, q: nat, r: nat)
    requires r < d && n == q * d + r
    ensures n / d == q && n % d == r
  {
    QuotientUnique(n / d, n % d, q, r, d);
  }

  /** A remainder in two stages: dividing by d and then by e is dividing by their product. */
  lemma DivTwice(n: nat, d: nat, e: nat)
    requires d > 0 && e > 0
    ensures e * d > 0
    ensures n / d / e == n / (e * d) && n % (e * d) == n / d % e * d + n % d
  {
    var q, r := n / d, n % d;
    var q2, r2 := q / e, q % e;
    assert q == q2 * e + r2;
    assert n == q * d + r;
    Distribute(q2 * e, r2, d);
    assert q2 * e * d == q2 * (e * d);
    MultipleAtLeast(e - r2, d);
    Distribute(e, r2, d);
    DivModUnique(n, e * d, q2, r2 * d + r);
  }
}

/** Single bits of a 32-bit word. */
module Bits {
  const ALL_BITS: bv32 := 0xFFFF_FFFF

  predicate Bit(w: bv32, k: bv8) {
    k < 32 && (w >> k) & 1 == 1
  }

  function SetBit(w: bv32, k: bv8): bv32
    requires k < 32
  {
    w | (1 << k)
  }

  lemma SetBitBits(w: bv32, k: bv8, j: bv8)
    requires k < 32 && j < 32
    ensures Bit(SetBit(w, k), j) <==> j == k || Bit(w, j)
  {
  }

  function Index(k: nat): (i: bv8)
    requires k < 32
  {
    k as bv8
  }

  function Number(i: bv8): nat {
    i as nat
  }

  lemma ValueOfIndex(k: nat)
    requires k < 32
    ensures Index(k) < 32 && Number(Index(k)) == k
  {
  }

  lemma IndexInjective(a: nat, b: nat)
    requires a < 32 && b < 32
    ensures Index(a) < 32 && Index(b) < 32
    ensures Index(a) == Index(b) <==> a == b
  {
    hide Index, Number;
    ValueOfIndex(a);
    ValueOfIndex(b);
  }

  lemma ValueOrder(i: bv8, j: bv8)
    ensures i < j <==> Number(i) < Number(j)
  {
  }

  lemma IndexOnto(i: bv8)
    requires i < 32
    ensures Number(i) < 32 && Index(Number(i)) == i
  {
  }

  /** A word that is not zero has a bit set. */
  lemma SomeBit(x: bv32) returns (j: bv8)
    requires x != 0
    ensures j < 32 && Bit(x, j)
  {
    j := if x & 0xFFFF != 0 then 0 else 16;
    j := if (x >> j) & 0xFF != 0 then j else j + 8;
    j := if (x >> j) & 0xF != 0 then j else j + 4;
    j := if (x >> j) & 0x3 != 0 then j else j + 2;
    j := if (x >> j) & 0x1 != 0 then j else j + 1;
  }

  lemma DifferAt(w: bv32, t: bv32, j: bv8)
    requires Bit(w ^ t, j)
    ensures Bit(w, j) != Bit(t, j)
  {
  }

  lemma LowBitsAre(n: bv8, j: bv8)
    requires 0 < n <= 32 && j < 32
    ensures Bit(ALL_BITS >> (32 - n), j) <==> j < n
  {
  }

  lemma SameWord(w: bv32, t: bv32)
    ensures w != t ==> w ^ t != 0
  {
  }

  /** A word is the n low bits exactly when its bits are those below n. */
  lemma IsLowBits(w: bv32, n: bv8)
    requires 0 < n <= 32
    ensures w == ALL_BITS >> (32 - n) <==> forall k: bv8 :: k < 32 ==> (Bit(w, k) <==> k < n)
  {
    hide Bit;
    var t := ALL_BITS >> (32 - n);
    if w == t {
      forall k: bv8 | k < 32 ensures Bit(w, k) <==> k < n {
        LowBitsAre(n, k);
      }
    } else {
      SameWord(w, t);
      var j := SomeBit(w ^ t);
      DifferAt(w, t, j);
      LowBitsAre(n, j);
      assert Bit(w, j) != (j < n);
    }
  }
}

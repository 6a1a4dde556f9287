/** Variable-length integers of the Protocol Buffers wire format, as nanopb writes and
    reads them. */
module PbVarint {
  import opened Options
  import opened Coding
  import opened DivMod

  const TWO_31 := 0x8000_0000

  const TWO_63 := 0x8000_0000_0000_0000

  type int64 = n: int | -TWO_63 <= n < TWO_63

  /** A cast to uint64_t. */
  function AsUnsigned(n: int64): uint64 {
    if n < 0 then n + TWO_64 else n
  }

  /** A cast to int64_t. */
  function AsSigned(n: uint64): int64 {
    if n >= TWO_63 then n - TWO_64 else n
  }

  // ----- zigzag -----

  /** ~x of a 64-bit word. */
  function Complement(n: uint64): uint64 {
    TWO_64 - 1 - n
  }

  function Zigzag(n: int64): uint64 {
    var shifted := AsUnsigned(n) * 2 % TWO_64;
    if n < 0 then Complement(shifted) else shifted
  }

  function Unzigzag(n: uint64): int64 {
    if n % 2 == 1 then AsSigned(Complement(n / 2)) else AsSigned(n / 2)
  }

  /** Zigzag numbers the integers 0, -1, 1, -2, ... and undoes itself. */
  lemma ZigzagRoundTrip(n: int64)
    ensures Zigzag(n) == if n >= 0 then 2 * n else -2 * n - 1
    ensures Unzigzag(Zigzag(n)) == n
  {
  }

  /** Every 64-bit word is the number of an integer. */
  lemma UnzigzagRoundTrip(n: uint64)
    ensures Zigzag(Unzigzag(n)) == n
  {
  }

  // ----- 64 bits -----

  /** pb_decode_varint: at most ten bytes, bits past the word lost. */
  function DecodeUint64(input: Bytes): (r: Option<(uint64, Bytes)>)
    ensures r.Some? ==> |r.value.1| < |input|
  {
    var v := GetVarint64(input);
    if v.None? then None else Some((v.value.value, input[v.value.size..]))
  }

  lemma Uint64RoundTrip(n: uint64, tail: Bytes)
    ensures DecodeUint64(EncodeVarint(n) + tail) == Some((n, tail))
    ensures |EncodeVarint(n)| <= 10
  {
    GetVarint64Encoded(n, tail);
    Varint64Size(n);
    assert (EncodeVarint(n) + tail)[|EncodeVarint(n)|..] == tail;
  }

  // ----- 32 bits, with sign-extended negative numbers -----

  /** The decoder's loop after its first byte: what is known of the result, the bit
      position of the next byte and the bytes ahead. */
  function Decode32From(result: uint32, bitpos: nat, input: Bytes): (r: Option<(uint32, Bytes)>)
    requires bitpos > 0 && bitpos % 7 == 0 && (bitpos < 32 ==> result < Power128(bitpos / 7))
    ensures r.Some? ==> |r.value.1| < |input|
    decreases input
  {
    if input == [] then None
    else
      var b: int := input[0];
      var low := b % 128;
      if bitpos >= 32 && low != 0 && (result < TWO_31 || b != SignExtension(bitpos)) then None
      else
        var result' := if bitpos >= 32 then result else Or32(result, bitpos, low);
        if b >= 128 then
          OrBound(result, bitpos, low);
          Decode32From(result', bitpos + 7, input[1..])
        else if bitpos == 28 && low >= 16 then None
        else Some((result', input[1..]))
  }

  function SignExtension(bitpos: nat): nat {
    if bitpos < 63 then 0xFF else 0x01
  }

  /** result | (low << bitpos) in 32 bits, for a result that ends below bitpos. */
  function Or32(result: uint32, bitpos: nat, low: nat): uint32
    requires 0 < bitpos < 32 && bitpos % 7 == 0 && result < Power128(bitpos / 7) && low < 128
  {
    OrBound(result, bitpos, low);
    if bitpos == 28 then result + low % 16 * 0x1000_0000 else result + low * Power128(bitpos / 7)
  }

  lemma OrBound(result: uint32, bitpos: nat, low: nat)
    requires 0 < bitpos && bitpos % 7 == 0 && low < 128
    requires bitpos < 32 ==> result < Power128(bitpos / 7)
    ensures 0 < bitpos < 28 ==> result + low * Power128(bitpos / 7) < Power128((bitpos + 7) / 7) <= Power128(4)
    ensures bitpos == 28 ==> result + low % 16 * 0x1000_0000 < TWO_32
  {
    SmallPowers();
  }

  lemma SmallPowers()
    ensures Power128(0) == 1 && Power128(1) == 0x80 && Power128(2) == 0x4000 && Power128(3) == 0x20_0000 && Power128(4) == 0x1000_0000
    ensures Power128(5) == 0x8_0000_0000
  {
    assert Power128(2) == 128 * Power128(1);
    assert Power128(3) == 128 * Power128(2);
    assert Power128(4) == 128 * Power128(3);
    assert Power128(5) == 128 * Power128(4);
  }

  function DecodeUint32(input: Bytes): (r: Option<(uint32, Bytes)>)
    ensures r.Some? ==> |r.value.1| < |input|
  {
    if input == [] then None
    else if input[0] < 128 then Some((input[0], input[1..]))
    else
      SmallPowers();
      Decode32From(input[0] - 128, 7, input[1..])
  }

  // ----- which encodings the 32-bit decoder takes -----

  /** One more byte that is not the last. */
  lemma Decode32Step(result: uint32, k: nat, m: nat, tail: Bytes)
    requires 1 <= k < 4 && result < Power128(k) && m >= 128
    ensures
      var result' := result + m % 128 * Power128(k);
      && result' < Power128(k + 1) <= Power128(4) == 0x1000_0000
      && Decode32From(result, 7 * k, EncodeVarint(m) + tail) == Decode32From(result', 7 * (k + 1), EncodeVarint(m / 128) + tail)
  {
    hide EncodeVarint, Or32, Power128, Decode32From;
    SmallPowers();
    MoreBytes(m, tail);
    OrIsSum(result, k, m % 128);
    OneMoreByte(result, 7 * k, EncodeVarint(m) + tail);
  }

  lemma OneMoreByte(result: uint32, bitpos: nat, input: Bytes)
    requires 0 < bitpos < 28 && bitpos % 7 == 0 && result < Power128(bitpos / 7)
    requires input != [] && input[0] >= 128
    requires Or32(result, bitpos, input[0] % 128) < Power128((bitpos + 7) / 7)
    ensures Decode32From(result, bitpos, input) == Decode32From(Or32(result, bitpos, input[0] % 128), bitpos + 7, input[1..])
  {
    hide Or32, Power128, SignExtension;
  }

  /** A number of more than one byte: its lowest group with the top bit set, and the rest. */
  lemma MoreBytes(m: nat, tail: Bytes)
    requires m >= 128
    ensures
      var input := EncodeVarint(m) + tail;
      input != [] && input[0] == m % 128 + 128 && input[1..] == EncodeVarint(m / 128) + tail
  {
    assert EncodeVarint(m) == [m % 128 + 128] + EncodeVarint(m / 128);
    FirstByte(m % 128 + 128, EncodeVarint(m / 128), tail);
  }

  lemma FirstByte(b: byte, rest: Bytes, tail: Bytes)
    ensures [b] + rest + tail == [b] + (rest + tail)
    ensures ([b] + rest + tail)[0] == b && ([b] + rest + tail)[1..] == rest + tail
  {
  }

  lemma OrIsSum(result: uint32, k: nat, low: nat)
    requires 1 <= k < 4 && result < Power128(k) && low < 128
    ensures 7 * k < 28 && 7 * k % 7 == 0 && 7 * k / 7 == k && (7 * k + 7) / 7 == k + 1 && (7 * k + 7) % 7 == 0
    ensures Or32(result, 7 * k, low) == result + low * Power128(k)
    ensures result + low * Power128(k) < Power128(k + 1) <= Power128(4)
  {
    hide Power128;
    SmallPowers();
    OrBound(result, 7 * k, low);
  }

  lemma Decode32Last(result: uint32, k: nat, m: nat, tail: Bytes)
    requires 1 <= k <= 4 && result < Power128(k) && m < 128 && (k == 4 ==> m < 16)
    ensures
      var n := result + m * Power128(k);
      n < TWO_32 && Decode32From(result, 7 * k, EncodeVarint(m) + tail) == Some((n, tail))
  {
    SmallPowers();
    OrBound(result, 7 * k, m);
    assert (EncodeVarint(m) + tail)[1..] == tail;
  }

  /** The bytes past bit 35 of a sign extension: n groups of seven equal bits and the top
      bit.  Groups of zeros pass as well as groups of ones. */
  predicate PassesAsExtension(m: nat, n: nat) {
    if n == 0 then m == 1 else (m % 128 == 0 || m % 128 == 127) && PassesAsExtension(m / 128, n - 1)
  }

  lemma {:induction false} Decode32Extension(result: uint32, n: nat, m: nat, tail: Bytes)
    requires n <= 4 && 1 <= m < 2 * Power128(n)
    ensures Decode32From(result, 63 - 7 * n, EncodeVarint(m) + tail)
      == if result >= TWO_31 && PassesAsExtension(m, n) then Some((result, tail)) else None
    decreases n
  {
    SmallPowers();
    var input := EncodeVarint(m) + tail;
    if m < 128 {
      assert input[1..] == tail;
      assert n > 0 ==> m / 128 == 0 && !PassesAsExtension(0, n - 1) by {
        ZeroDoesNotPass(n);
      }
    } else {
      assert input[1..] == EncodeVarint(m / 128) + tail;
      assert n > 0;
      Decode32Extension(result, n - 1, m / 128, tail);
    }
  }

  lemma {:induction false} ZeroDoesNotPass(n: nat)
    ensures n > 0 ==> !PassesAsExtension(0, n - 1)
  {
    if n > 1 {
      ZeroDoesNotPass(n - 1);
    }
  }

  lemma SixteenDivides(m: nat)
    ensures m % 128 % 16 == m % 16 && (m >= 0x10 && m < 128 ==> m % 128 >= 16)
  {
    assert m == 16 * (8 * (m / 128) + m % 128 / 16) + m % 128 % 16;
    DivModUnique(m, 16, 8 * (m / 128) + m % 128 / 16, m % 128 % 16);
  }

  /** Bits above the word: only a sign extension gets past. */
  lemma Decode32Large(result: uint32, m: nat, tail: Bytes)
    requires result < Power128(4) && 16 <= m < 0x10_0000_0000
    ensures
      var word := result + m % 16 * 0x1000_0000;
      && word < TWO_32
      && Decode32From(result, 28, EncodeVarint(m) + tail)
           == if m >= 128 && word >= TWO_31 && PassesAsExtension(m / 128, 4) then Some((word, tail)) else None
  {
    SmallPowers();
    var input := EncodeVarint(m) + tail;
    OrBound(result, 28, m % 128);
    SixteenDivides(m);
    if m >= 128 {
      assert input[1..] == EncodeVarint(m / 128) + tail;
      Decode32Extension(result + m % 16 * 0x1000_0000, 4, m / 128, tail);
    }
  }

  /** The 32-bit decoder on the encoder's output, for every 64-bit number: numbers below
      2^32 come back, larger ones come back cut to 32 bits if they pass for a
      sign-extended negative number, and all others are refused. */
  lemma Decode32Exactly(n: uint64, tail: Bytes)
    ensures DecodeUint32(EncodeVarint(n) + tail)
      == if n < TWO_32 then Some((n, tail))
         else if n % TWO_32 >= TWO_31 && PassesAsExtension(n / 0x8_0000_0000, 4) then Some((n % TWO_32, tail))
         else None
  {
    hide Decode32From;
    SmallPowers();
    Decode32Starts(n, tail);
    if n >= 128 {
      Decode32Reads(n, n % 0x80, 1, tail);
    }
  }

  lemma Decode32Starts(n: uint64, tail: Bytes)
    ensures Power128(1) == 128
    ensures DecodeUint32(EncodeVarint(n) + tail)
      == if n < 128 then Some((n, tail)) else Decode32From(n % 128, 7, EncodeVarint(n / 128) + tail)
  {
    SmallPowers();
    var input := EncodeVarint(n) + tail;
    if n < 128 {
      assert input[1..] == tail;
    } else {
      assert input[1..] == EncodeVarint(n / 128) + tail;
    }
  }

  /** One group more of a number. */
  lemma NextGroup(n: nat, k: nat)
    ensures n / Power128(k + 1) == n / Power128(k) / 128
    ensures n % Power128(k + 1) == n % Power128(k) + n / Power128(k) % 128 * Power128(k)
  {
    DivTwice(n, Power128(k), 128);
  }

  lemma WholeNumber(n: nat, k: nat)
    requires n / Power128(k) < 128
    ensures n == n % Power128(k) + n / Power128(k) * Power128(k)
  {
  }

  /** The decoder after k bytes of the encoding of n. */
  lemma {:induction false} Decode32Reads(n: uint64, low: uint32, k: nat, tail: Bytes)
    requires 1 <= k <= 4 && n >= Power128(k) && low == n % Power128(k)
    ensures Decode32From(low, 7 * k, EncodeVarint(n / Power128(k)) + tail)
      == if n < TWO_32 then Some((n, tail))
         else if n % TWO_32 >= TWO_31 && PassesAsExtension(n / 0x8_0000_0000, 4) then Some((n % TWO_32, tail))
         else None
    decreases 4 - k
  {
    hide Decode32From, EncodeVarint, PassesAsExtension, Power128;
    SmallPowers();
    var m := n / Power128(k);
    if k == 4 && n >= TWO_32 {
      Decode32Top(n, tail);
    } else if m < 128 {
      WholeNumber(n, k);
      Decode32Last(low, k, m, tail);
    } else {
      MoreThanFour(n, k);
      Decode32Step(low, k, m, tail);
      NextGroup(n, k);
      Decode32Reads(n, n % Power128(k + 1), k + 1, tail);
    }
  }

  lemma MoreThanFour(n: nat, k: nat)
    requires 1 <= k <= 4 && n / Power128(k) >= 128 && (k == 4 ==> n < TWO_32)
    ensures k < 4 && n >= Power128(k + 1)
  {
    hide Power128;
    SmallPowers();
  }

  lemma Decode32Top(n: uint64, tail: Bytes)
    requires n >= TWO_32
    ensures 0x1000_0000 == Power128(4)
    ensures Decode32From(n % 0x1000_0000, 28, EncodeVarint(n / 0x1000_0000) + tail)
      == if n % TWO_32 >= TWO_31 && PassesAsExtension(n / 0x8_0000_0000, 4) then Some((n % TWO_32, tail)) else None
  {
    hide Decode32From;
    SmallPowers();
    DivTwice(n, 0x1000_0000, 128);
    DivTwice(n, 0x1000_0000, 16);
    Decode32Large(n % 0x1000_0000, n / 0x1000_0000, tail);
    if n < 0x8_0000_0000 {
      ZeroDoesNotPass(5);
    }
  }

  /** Sign-extended 32-bit numbers come back. */
  lemma Decode32Negative(i: int, tail: Bytes)
    requires -TWO_31 <= i < 0
    ensures DecodeUint32(EncodeVarint(AsUnsigned(i)) + tail) == Some((i + TWO_32, tail))
  {
    hide DecodeUint32, EncodeVarint, PassesAsExtension;
    var n := AsUnsigned(i);
    Decode32Exactly(n, tail);
    DivModUnique(n, TWO_32, TWO_32 - 1, i + TWO_32);
    DivModUnique(n, 0x8_0000_0000, 0x1FFF_FFFF, i + 0x8_0000_0000);
    AllOnesPass();
  }

  lemma AllOnesPass()
    ensures PassesAsExtension(0x1FFF_FFFF, 4)
  {
    assert PassesAsExtension(1, 0);
    assert PassesAsExtension(0xFF, 1);
    assert PassesAsExtension(0x7FFF, 2);
    assert PassesAsExtension(0x3F_FFFF, 3);
  }

  /** Everything from 2^32 up to 2^63 is refused. */
  lemma Decode32Refuses(n: uint64, tail: Bytes)
    requires TWO_32 <= n < TWO_63
    ensures DecodeUint32(EncodeVarint(n) + tail) == None
  {
    Decode32Exactly(n, tail);
    TopBitNeeded(n / 0x8_0000_0000, 4);
    SmallPowers();
  }

  lemma {:induction false} TopBitNeeded(m: nat, n: nat)
    requires m < Power128(n)
    ensures !PassesAsExtension(m, n)
  {
    if n > 0 {
      TopBitNeeded(m / 128, n - 1);
    }
  }

  /** Not only sign extensions get past: here the groups above bit 35 are zeros. */
  lemma Decode32TakesMore(tail: Bytes)
    ensures DecodeUint32(EncodeVarint(0x8000_0000_8000_0000) + tail) == Some((TWO_31, tail))
  {
    Decode32Exactly(0x8000_0000_8000_0000, tail);
    assert PassesAsExtension(1, 0);
    assert PassesAsExtension(0x80, 1);
    assert PassesAsExtension(0x4000, 2);
    assert PassesAsExtension(0x20_0000, 3);
    assert PassesAsExtension(0x1000_0000, 4);
  }
}

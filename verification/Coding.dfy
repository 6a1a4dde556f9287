/** Bytes, fixed-width and variable-length integers. */
module Coding {
  import opened Options

  type byte = b: int | 0 <= b < 256

  type Bytes = seq<byte>

  const TWO_32 := 0x1_0000_0000

  const TWO_64 := 0x1_0000_0000_0000_0000

  type uint32 = n: nat | n < TWO_32

  type uint64 = n: nat | n < TWO_64

  function Zeros(n: nat): (bs: Bytes)
    ensures |bs| == n
  {
    seq(n, _ => 0)
  }

  // ----- fixed width, least significant byte first -----

  function EncodeFixed32(n: uint32): (bs: Bytes)
    ensures |bs| == 4
  {
    [n % 256, n / 0x100 % 256, n / 0x1_0000 % 256, n / 0x100_0000]
  }

  function DecodeFixed32(bs: Bytes): (n: uint32)
    requires |bs| == 4
  {
    var b0: int, b1: int, b2: int, b3: int := bs[0], bs[1], bs[2], bs[3];
    b0 + 0x100 * b1 + 0x1_0000 * b2 + 0x100_0000 * b3
  }

  lemma LowByte(m: nat)
    ensures m == m % 0x100 + 0x100 * (m / 0x100)
  {
  }

  lemma NextByte(n: nat)
    ensures n / 0x1_0000 == n / 0x100 / 0x100
  {
  }

  lemma LastByte(n: nat)
    ensures n / 0x100_0000 == n / 0x1_0000 / 0x100
  {
  }

  lemma Fixed32RoundTrip(n: uint32)
    ensures DecodeFixed32(EncodeFixed32(n)) == n
  {
    LowByte(n);
    LowByte(n / 0x100);
    NextByte(n);
    LowByte(n / 0x1_0000);
    LastByte(n);
  }

  function EncodeFixed64(n: uint64): (bs: Bytes)
    ensures |bs| == 8
  {
    EncodeFixed32(n % TWO_32) + EncodeFixed32(n / TWO_32)
  }

  function DecodeFixed64(bs: Bytes): (n: uint64)
    requires |bs| == 8
  {
    DecodeFixed32(bs[..4]) + TWO_32 * DecodeFixed32(bs[4..])
  }

  lemma Fixed64RoundTrip(n: uint64)
    ensures DecodeFixed64(EncodeFixed64(n)) == n
  {
    Fixed32RoundTrip(n % TWO_32);
    Fixed32RoundTrip(n / TWO_32);
    assert EncodeFixed64(n)[..4] == EncodeFixed32(n % TWO_32) && EncodeFixed64(n)[4..] == EncodeFixed32(n / TWO_32);
  }

  // ----- arrays of fixed-width integers -----

  predicate AllFit(ns: seq<nat>) {
    forall j :: 0 <= j < |ns| ==> ns[j] < TWO_32
  }

  function Fixed32Array(ns: seq<nat>): (bs: Bytes)
    requires AllFit(ns)
    ensures |bs| == 4 * |ns|
  {
    if ns == [] then [] else Fixed32Array(ns[..|ns| - 1]) + EncodeFixed32(ns[|ns| - 1])
  }

  lemma {:induction false} Fixed32At(ns: seq<nat>, j: nat)
    requires AllFit(ns) && j < |ns|
    ensures Fixed32Array(ns)[4 * j..4 * j + 4] == EncodeFixed32(ns[j])
    decreases |ns|
  {
    hide EncodeFixed32;
    var front := ns[..|ns| - 1];
    if j < |front| {
      Fixed32At(front, j);
      assert Fixed32Array(ns)[..4 * |front|] == Fixed32Array(front);
      assert Fixed32Array(ns)[4 * j..4 * j + 4] == Fixed32Array(ns)[..4 * |front|][4 * j..4 * j + 4];
    }
  }

  lemma Fixed32Start(data: Bytes)
    ensures Fixed32Array([]) == [] && data + Fixed32Array([]) == data
  {
  }

  lemma Fixed32Next(data: Bytes, ns: seq<nat>, i: nat)
    requires AllFit(ns) && i < |ns|
    ensures AllFit(ns[..i + 1])
    ensures data + Fixed32Array(ns[..i + 1]) == data + Fixed32Array(ns[..i]) + EncodeFixed32(ns[i])
  {
    hide EncodeFixed32;
    assert ns[..i + 1][..i] == ns[..i];
  }

  // ----- varints: seven bits a byte, the top bit says that more follow -----

  function EncodeVarint(n: nat): (bs: Bytes)
    ensures |bs| > 0
  {
    if n < 128 then [n] else [n % 128 + 128] + EncodeVarint(n / 128)
  }

  datatype Varint = Varint(value: nat, size: nat)

  /** Decodes a varint of at most limit bytes at the front of the input. */
  function DecodeVarint(input: Bytes, limit: nat): (r: Option<Varint>)
    ensures r.Some? ==> 0 < r.value.size <= |input| && r.value.size <= limit
  {
    if limit == 0 || input == [] then None
    else if input[0] < 128 then Some(Varint(input[0], 1))
    else
      var rest := DecodeVarint(input[1..], limit - 1);
      if rest.None? then None else Some(Varint(input[0] - 128 + 128 * rest.value.value, rest.value.size + 1))
  }

  /** Decoding gives back the number and the exact number of bytes, whatever follows. */
  lemma {:induction false} VarintRoundTrip(n: nat, rest: Bytes, limit: nat)
    requires |EncodeVarint(n)| <= limit
    ensures DecodeVarint(EncodeVarint(n) + rest, limit) == Some(Varint(n, |EncodeVarint(n)|))
  {
    if n >= 128 {
      VarintRoundTrip(n / 128, rest, limit - 1);
      assert (EncodeVarint(n) + rest)[1..] == EncodeVarint(n / 128) + rest;
    }
  }

  function Power128(k: nat): (p: nat)
    ensures p > 0
  {
    if k == 0 then 1 else 128 * Power128(k - 1)
  }

  lemma {:induction false} VarintSize(n: nat, k: nat)
    requires k > 0 && n < Power128(k)
    ensures |EncodeVarint(n)| <= k
  {
    if n >= 128 {
      assert k > 1 by {
        assert Power128(1) == 128 * Power128(0);
      }
      VarintSize(n / 128, k - 1);
    }
  }

  lemma Varint32Size(n: uint32)
    ensures |EncodeVarint(n)| <= 5
  {
    assert Power128(5) == 128 * (128 * (128 * (128 * (128 * Power128(0)))));
    VarintSize(n, 5);
  }

  lemma Varint64Size(n: uint64)
    ensures |EncodeVarint(n)| <= 10
  {
    assert Power128(10) == 128 * (128 * (128 * (128 * (128 * Power128(5)))));
    assert Power128(5) == 128 * (128 * (128 * (128 * (128 * Power128(0)))));
    VarintSize(n, 10);
  }

  /** Bits past the word are lost, as when shifting them in. */
  function GetVarint32(input: Bytes): (r: Option<Varint>)
    ensures r.Some? ==> r.value.value < TWO_32 && 0 < r.value.size <= |input|
  {
    var v := DecodeVarint(input, 5);
    if v.None? then None else Some(v.value.(value := v.value.value % TWO_32))
  }

  function GetVarint64(input: Bytes): (r: Option<Varint>)
    ensures r.Some? ==> r.value.value < TWO_64 && 0 < r.value.size <= |input|
  {
    var v := DecodeVarint(input, 10);
    if v.None? then None else Some(v.value.(value := v.value.value % TWO_64))
  }

  lemma GetVarint32Encoded(n: uint32, rest: Bytes)
    ensures GetVarint32(EncodeVarint(n) + rest) == Some(Varint(n, |EncodeVarint(n)|))
  {
    Varint32Size(n);
    VarintRoundTrip(n, rest, 5);
  }

  lemma GetVarint64Encoded(n: uint64, rest: Bytes)
    ensures GetVarint64(EncodeVarint(n) + rest) == Some(Varint(n, |EncodeVarint(n)|))
  {
    Varint64Size(n);
    VarintRoundTrip(n, rest, 10);
  }

  // ----- length-prefixed strings -----

  function LengthPrefixed(s: Bytes): Bytes {
    EncodeVarint(|s|) + s
  }

  /** The string at the front of the input and what follows it. */
  function GetLengthPrefixed(input: Bytes): (r: Option<(Bytes, Bytes)>)
    ensures r.Some? ==> |r.value.1| < |input|
  {
    var len := GetVarint32(input);
    if len.None? || |input| - len.value.size < len.value.value then None
    else Some((input[len.value.size..][..len.value.value], input[len.value.size..][len.value.value..]))
  }

  lemma LengthPrefixedRoundTrip(s: Bytes, rest: Bytes)
    requires |s| < TWO_32
    ensures GetLengthPrefixed(LengthPrefixed(s) + rest) == Some((s, rest))
  {
    GetVarint32Encoded(|s|, s + rest);
    var all := EncodeVarint(|s|) + (s + rest);
    assert LengthPrefixed(s) + rest == all;
    assert all[|EncodeVarint(|s|)|..] == s + rest;
  }

  // ----- common prefixes -----

  /** The length of the common prefix of two strings. */
  function CommonPrefix(a: Bytes, b: Bytes): (n: nat)
    ensures n <= |a| && n <= |b| && a[..n] == b[..n]
    ensures n < |a| && n < |b| ==> a[n] != b[n]
  {
    if a == [] || b == [] || a[0] != b[0] then 0
    else
      var n := 1 + CommonPrefix(a[1..], b[1..]);
      assert a[..n] == [a[0]] + a[1..][..n - 1] && b[..n] == [b[0]] + b[1..][..n - 1];
      n
  }

  lemma {:induction false} CommonPrefixUnique(a: Bytes, b: Bytes, n: nat)
    requires n <= |a| && n <= |b| && a[..n] == b[..n] && (n < |a| && n < |b| ==> a[n] != b[n])
    ensures CommonPrefix(a, b) == n
  {
    if n > 0 {
      assert a[0] == a[..n][0] == b[..n][0] == b[0];
      assert a[1..][..n - 1] == a[..n][1..] && b[1..][..n - 1] == b[..n][1..];
      CommonPrefixUnique(a[1..], b[1..], n - 1);
    }
  }
}

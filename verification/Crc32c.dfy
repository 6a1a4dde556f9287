/** Checksums: any function of the bytes covered, masked when stored. */
module Crc32c {
  import opened Coding

  type Crc = Bytes -> uint32

  // ----- stored checksums are masked: rotated right by 15 bits, plus a constant -----

  const MASK_DELTA: uint32 := 0xa282ead8

  function Mask(crc: uint32): uint32 {
    (crc / 0x8000 + crc % 0x8000 * 0x2_0000 + MASK_DELTA) % TWO_32
  }

  function Unmask(masked: uint32): uint32 {
    var rot := (masked - MASK_DELTA) % TWO_32;
    rot / 0x2_0000 + rot % 0x2_0000 * 0x8000
  }

  lemma UnmaskMask(crc: uint32)
    ensures Unmask(Mask(crc)) == crc
  {
    var hi, lo := crc / 0x8000, crc % 0x8000;
    var rot := hi + lo * 0x2_0000;
    assert hi < 0x2_0000 && rot < TWO_32;
    assert (Mask(crc) - MASK_DELTA) % TWO_32 == rot;
    assert rot / 0x2_0000 == lo && rot % 0x2_0000 == hi;
  }
}

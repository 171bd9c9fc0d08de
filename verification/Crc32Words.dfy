/** 32-bit machine words and bytes as coefficients. */
module Crc32Words {
  import opened Crc32Poly

  /** The word whose only coefficient is number i, counted from the top; zero from 32 on. */
  function Mask(i: nat): bv32 {
    if i == 0 then 0x8000_0000 else Mask(i - 1) >> 1
  }

  predicate Has(w: bv32, m: bv32) {
    w & m != 0
  }

  predicate Coefficient(w: bv32, i: nat) {
    Has(w, Mask(i))
  }

  /** The coefficients a word holds, from bit 31 down. */
  function Poly(w: bv32): Register {
    seq(32, i requires 0 <= i => Coefficient(w, i))
  }

  function ByteMask(i: nat): bv8 {
    (Mask(i) >> 24) as bv8
  }

  predicate ByteCoefficient(b: bv8, i: nat) {
    b & ByteMask(i) != 0
  }

  /** A byte, most significant bit first. */
  function ByteBits(b: bv8): (r: seq<bool>)
    ensures |r| == 8
  {
    seq(8, i requires 0 <= i => ByteCoefficient(b, i))
  }
}

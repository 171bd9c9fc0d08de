/** Shifting a machine word left moves every coefficient up by one place. */
module Crc32Shift {
  import opened Crc32Words

  lemma WordShift(w: bv32, m: bv32, next: bv32)
    requires m >> 1 == next
    ensures Has(w << 1, m) <==> Has(w, next)
  {
  }

  lemma MaskNext(i: nat)
    ensures Mask(i + 1) == Mask(i) >> 1
  {
  }

  lemma ShiftByMasks(w: bv32, i: nat, m: bv32, next: bv32)
    requires m >> 1 == next && m == Mask(i) && next == Mask(i + 1)
    ensures Coefficient(w << 1, i) <==> Coefficient(w, i + 1)
  {
    WordShift(w, m, next);
  }

  lemma CoefficientShift(w: bv32, i: nat)
    ensures Coefficient(w << 1, i) <==> Coefficient(w, i + 1)
  {
    MaskNext(i);
    ShiftByMasks(w, i, Mask(i), Mask(i + 1));
  }

  lemma EightShifts(w0: bv32, w1: bv32, w2: bv32, w3: bv32, w4: bv32, w5: bv32, w6: bv32, w7: bv32, w8: bv32)
    requires w1 == w0 << 1 && w2 == w1 << 1 && w3 == w2 << 1 && w4 == w3 << 1
    requires w5 == w4 << 1 && w6 == w5 << 1 && w7 == w6 << 1 && w8 == w7 << 1
    ensures w8 == w0 << 8
  {
  }
}

/** What XOR, shifting and the table lookup of src/arch/arm_cortexm/rp2040/boot2/compCrc32.c mean for the
    coefficients a machine word holds. */
module Crc32Bridge {
  import opened Crc32Poly
  import opened Crc32Words
  import opened Crc32Shift
  import opened Crc32Table

  // ----- facts about words alone -----

  lemma WordXor(x: bv32, y: bv32, m: bv32)
    requires m & (m - 1) == 0
    ensures (x ^ y) & m != 0 <==> (x & m != 0) != (y & m != 0)
  {
  }

  lemma WordOfByte(b: bv8, m: bv32)
    ensures ((b as bv32) << 24) & m != 0 <==> b & ((m >> 24) as bv8) != 0
  {
  }

  lemma WordTopByte(s: bv32, b: bv8, m: bv32)
    requires m & (m - 1) == 0 && m & 0x00FF_FFFF == 0
    ensures (((s >> 24) as bv8) ^ b) & ((m >> 24) as bv8) != 0 <==> (s & m != 0) != (b & ((m >> 24) as bv8) != 0)
  {
  }

  lemma HalfPower(m: bv32)
    requires m & (m - 1) == 0
    ensures (m >> 1) & ((m >> 1) - 1) == 0
  {
  }

  lemma NoMask(w: bv32, b: bv8)
    ensures w & 0 == 0 && b & 0 == 0
  {
  }

  // ----- masks -----

  lemma {:induction false} MaskPower(i: nat)
    ensures Mask(i) & (Mask(i) - 1) == 0
  {
    if i > 0 {
      MaskPower(i - 1);
      HalfPower(Mask(i - 1));
    }
  }

  // The masks, byte by byte.

  lemma Masks0()
    ensures Mask(0) == 0x8000_0000
    ensures Mask(1) == 0x4000_0000
    ensures Mask(2) == 0x2000_0000
    ensures Mask(3) == 0x1000_0000
    ensures Mask(4) == 0x0800_0000
    ensures Mask(5) == 0x0400_0000
    ensures Mask(6) == 0x0200_0000
    ensures Mask(7) == 0x0100_0000
  {
    assert Mask(0) == 0x8000_0000;
    assert Mask(1) == 0x4000_0000;
    assert Mask(2) == 0x2000_0000;
    assert Mask(3) == 0x1000_0000;
    assert Mask(4) == 0x0800_0000;
    assert Mask(5) == 0x0400_0000;
    assert Mask(6) == 0x0200_0000;
  }

  lemma Masks1()
    ensures Mask(8) == 0x0080_0000
    ensures Mask(9) == 0x0040_0000
    ensures Mask(10) == 0x0020_0000
    ensures Mask(11) == 0x0010_0000
    ensures Mask(12) == 0x0008_0000
    ensures Mask(13) == 0x0004_0000
    ensures Mask(14) == 0x0002_0000
    ensures Mask(15) == 0x0001_0000
  {
    Masks0();
    assert Mask(8) == 0x0080_0000;
    assert Mask(9) == 0x0040_0000;
    assert Mask(10) == 0x0020_0000;
    assert Mask(11) == 0x0010_0000;
    assert Mask(12) == 0x0008_0000;
    assert Mask(13) == 0x0004_0000;
    assert Mask(14) == 0x0002_0000;
  }

  lemma Masks2()
    ensures Mask(16) == 0x0000_8000
    ensures Mask(17) == 0x0000_4000
    ensures Mask(18) == 0x0000_2000
    ensures Mask(19) == 0x0000_1000
    ensures Mask(20) == 0x0000_0800
    ensures Mask(21) == 0x0000_0400
    ensures Mask(22) == 0x0000_0200
    ensures Mask(23) == 0x0000_0100
  {
    Masks1();
    assert Mask(16) == 0x0000_8000;
    assert Mask(17) == 0x0000_4000;
    assert Mask(18) == 0x0000_2000;
    assert Mask(19) == 0x0000_1000;
    assert Mask(20) == 0x0000_0800;
    assert Mask(21) == 0x0000_0400;
    assert Mask(22) == 0x0000_0200;
  }

  lemma Masks3()
    ensures Mask(24) == 0x0000_0080
    ensures Mask(25) == 0x0000_0040
    ensures Mask(26) == 0x0000_0020
    ensures Mask(27) == 0x0000_0010
    ensures Mask(28) == 0x0000_0008
    ensures Mask(29) == 0x0000_0004
    ensures Mask(30) == 0x0000_0002
    ensures Mask(31) == 0x0000_0001
  {
    Masks2();
    assert Mask(24) == 0x0000_0080;
    assert Mask(25) == 0x0000_0040;
    assert Mask(26) == 0x0000_0020;
    assert Mask(27) == 0x0000_0010;
    assert Mask(28) == 0x0000_0008;
    assert Mask(29) == 0x0000_0004;
    assert Mask(30) == 0x0000_0002;
  }

  lemma MaskTop(i: nat)
    requires i < 8
    ensures Mask(i) & 0x00FF_FFFF == 0
  {
    Masks0();
  }

  lemma MaskBelow(i: nat)
    requires 8 <= i < 32
    ensures Mask(i) >> 24 == 0
  {
    if i < 16 {
      Masks1();
    } else if i < 24 {
      Masks2();
    } else {
      Masks3();
    }
  }

  lemma MaskBeyond()
    ensures Mask(32) == 0
  {
    Masks3();
  }

  // ----- what they mean for coefficients -----

  lemma CoefficientXor(x: bv32, y: bv32, i: nat)
    ensures Coefficient(x ^ y, i) <==> Coefficient(x, i) != Coefficient(y, i)
  {
    MaskPower(i);
    WordXor(x, y, Mask(i));
  }

  lemma PolyXor(x: bv32, y: bv32)
    ensures Poly(x ^ y) == Xor(Poly(x), Poly(y))
  {
    forall i | 0 <= i < 32 ensures Poly(x ^ y)[i] == Xor(Poly(x), Poly(y))[i] {
      CoefficientXor(x, y, i);
    }
  }

  lemma PolyShift(w: bv32)
    ensures Poly(w << 1) == Poly(w)[1..] + [false]
  {
    forall i | 0 <= i < 32 ensures Poly(w << 1)[i] == (Poly(w)[1..] + [false])[i] {
      CoefficientShift(w, i);
      if i == 31 {
        MaskBeyond();
        NoMask(w, 0);
      }
    }
  }

  lemma PolyShift8(w: bv32)
    ensures Poly(w << 8) == Poly(w)[8..] + Zeros(8)
  {
    var w1 := w << 1;
    var w2 := w1 << 1;
    var w3 := w2 << 1;
    var w4 := w3 << 1;
    var w5 := w4 << 1;
    var w6 := w5 << 1;
    var w7 := w6 << 1;
    PolyShifts(w, w1, w2, w3, w4);
    PolyShifts(w4, w5, w6, w7, w7 << 1);
    EightShifts(w, w1, w2, w3, w4, w5, w6, w7, w7 << 1);
    ShiftTwice(Poly(w), Poly(w4), Poly(w << 8));
  }

  /** Four shifts in a row, with the words in between named. */
  lemma PolyShifts(w0: bv32, w1: bv32, w2: bv32, w3: bv32, w4: bv32)
    requires w1 == w0 << 1 && w2 == w1 << 1 && w3 == w2 << 1 && w4 == w3 << 1
    ensures Poly(w4) == Poly(w0)[4..] + Zeros(4)
  {
    PolyShift(w0);
    PolyShift(w1);
    PolyShift(w2);
    PolyShift(w3);
    ShiftFour(Poly(w0), Poly(w1), Poly(w2), Poly(w3), Poly(w4));
  }

  lemma ShiftFour(p0: Register, p1: Register, p2: Register, p3: Register, p4: Register)
    requires p1 == p0[1..] + [false] && p2 == p1[1..] + [false]
    requires p3 == p2[1..] + [false] && p4 == p3[1..] + [false]
    ensures p4 == p0[4..] + Zeros(4)
  {
  }

  lemma ShiftTwice(p: Register, q: Register, r: Register)
    requires q == p[4..] + Zeros(4) && r == q[4..] + Zeros(4)
    ensures r == p[8..] + Zeros(8)
  {
  }

  lemma CoefficientOfByte(b: bv8, i: nat)
    requires i < 32
    ensures Coefficient((b as bv32) << 24, i) <==> i < 8 && ByteCoefficient(b, i)
  {
    WordOfByte(b, Mask(i));
    if i >= 8 {
      MaskBelow(i);
      NoMask(0, b);
    }
  }

  lemma PolyOfByte(b: bv8)
    ensures Poly((b as bv32) << 24) == ByteBits(b) + Zeros(24)
  {
    forall i | 0 <= i < 32 ensures Poly((b as bv32) << 24)[i] == (ByteBits(b) + Zeros(24))[i] {
      CoefficientOfByte(b, i);
    }
  }

  lemma IndexCoefficient(s: bv32, b: bv8, i: nat)
    requires i < 8
    ensures ByteCoefficient(((s >> 24) as bv8) ^ b, i) <==> Coefficient(s, i) != ByteCoefficient(b, i)
  {
    MaskPower(i);
    MaskTop(i);
    WordTopByte(s, b, Mask(i));
  }

  lemma IndexBits(s: bv32, b: bv8)
    ensures ByteBits(((s >> 24) as bv8) ^ b) == Xor(Poly(s)[..8], ByteBits(b))
  {
    forall i | 0 <= i < 8 ensures ByteBits(((s >> 24) as bv8) ^ b)[i] == Xor(Poly(s)[..8], ByteBits(b))[i] {
      IndexCoefficient(s, b, i);
    }
  }

  lemma Polynomial0(i: nat)
    requires 0 <= i < 8
    ensures Coefficient(0x04C1_1DB7, i) == POLYNOMIAL[i] && Coefficient(0xFFFF_FFFF, i)
  {
    Masks0();
  }

  lemma Polynomial1(i: nat)
    requires 8 <= i < 16
    ensures Coefficient(0x04C1_1DB7, i) == POLYNOMIAL[i] && Coefficient(0xFFFF_FFFF, i)
  {
    Masks1();
  }

  lemma Polynomial2(i: nat)
    requires 16 <= i < 24
    ensures Coefficient(0x04C1_1DB7, i) == POLYNOMIAL[i] && Coefficient(0xFFFF_FFFF, i)
  {
    Masks2();
  }

  lemma Polynomial3(i: nat)
    requires 24 <= i < 32
    ensures Coefficient(0x04C1_1DB7, i) == POLYNOMIAL[i] && Coefficient(0xFFFF_FFFF, i)
  {
    Masks3();
  }

  lemma CoefficientOfPolynomial(i: nat)
    requires i < 32
    ensures Coefficient(0x04C1_1DB7, i) == POLYNOMIAL[i] && Coefficient(0xFFFF_FFFF, i)
  {
    if i < 8 {
      Polynomial0(i);
    } else if i < 16 {
      Polynomial1(i);
    } else if i < 24 {
      Polynomial2(i);
    } else {
      Polynomial3(i);
    }
  }

  // ----- stepping -----

  /** The word step is the register step. */
  lemma PolyStep(w: bv32)
    ensures Poly(BitStep(w)) == Step(Poly(w))
  {
    PolyShift(w);
    if Top(w) {
      PolyXor(w << 1, 0x04C1_1DB7);
      assert Poly(0x04C1_1DB7) == POLYNOMIAL by {
        forall i | 0 <= i < 32 ensures Poly(0x04C1_1DB7)[i] == POLYNOMIAL[i] {
          CoefficientOfPolynomial(i);
        }
      }
    }
  }

  lemma PolyByteStep(w: bv32)
    ensures Poly(ByteStep(w)) == Iter(8, Poly(w))
  {
    var w4 := BitStep(BitStep(BitStep(BitStep(w))));
    PolyFourSteps(w);
    PolyFourSteps(w4);
    IterAdd(4, 4, Poly(w));
  }

  lemma PolyFourSteps(w: bv32)
    ensures Poly(BitStep(BitStep(BitStep(BitStep(w))))) == Iter(4, Poly(w))
  {
    PolyStep(w);
    PolyStep(BitStep(w));
    PolyStep(BitStep(BitStep(w)));
    PolyStep(BitStep(BitStep(BitStep(w))));
    IterFour(Poly(w));
  }

  lemma IterFour(s: Register)
    ensures Iter(4, s) == Step(Step(Step(Step(s))))
  {
    assert Iter(4, s) == Iter(3, Step(s)) == Iter(2, Step(Step(s))) == Iter(1, Step(Step(Step(s))));
  }

  // ----- the table step -----

  /** The body of the loop of calculate_crc32: feed the eight bits of a byte. */
  method TableRound(crc: bv32, b: bv8) returns (next: bv32)
    ensures Poly(next) == FeedBits(Poly(crc), ByteBits(b))
  {
    var idx := ((crc >> 24) as bv8) ^ b;
    var entry := Lookup(idx);
    next := (crc << 8) ^ entry;
    IndexBits(crc, b);
    ShiftedXor(crc, entry);
    RoundAlgebra(Poly(crc), ByteBits(b));
  }

  method Lookup(i: bv8) returns (entry: bv32)
    ensures Poly(entry) == Iter(8, ByteBits(i) + Zeros(24))
  {
    TablePoly(i);
    entry := Table(i);
  }

  lemma ShiftedXor(s: bv32, t: bv32)
    ensures Poly((s << 8) ^ t) == Xor(Poly(s)[8..] + Zeros(8), Poly(t))
  {
    PolyXor(s << 8, t);
    PolyShift8(s);
  }

  lemma TablePoly(i: bv8)
    ensures Poly(Table(i)) == Iter(8, ByteBits(i) + Zeros(24))
  {
    TableEntry(i);
    PolyByteStep((i as bv32) << 24);
    PolyOfByte(i);
  }

  /** The same round on registers: the top eight coefficients meet the byte, the rest only shift. */
  lemma RoundAlgebra(s: Register, byte: seq<bool>)
    requires |byte| == 8
    ensures FeedBits(s, byte) == Xor(s[8..] + Zeros(8), Iter(8, Xor(s[..8], byte) + Zeros(24)))
  {
    FeedAtOnce(s, byte);
    var index, rest: Register := Xor(s[..8], byte) + Zeros(24), Zeros(8) + s[8..];
    assert Xor(s, byte + Zeros(24)) == Xor(rest, index);
    IterXor(8, rest, index);
    IterShifts(8, rest);
    assert rest[8..] == s[8..];
  }
}

/** The boot-sector checksum of src/arch/arm_cortexm/rp2040/boot2/compCrc32.c: CRC-32 with polynomial
    0x04C11DB7, initial value 0xFFFFFFFF, no reflection and no final XOR (RP2040 Datasheet, section
    2.8.1.3.1). */
module Crc32 {
  import opened Crc32Poly
  import opened Crc32Words
  import opened Crc32Bridge
  import opened Crc32Table

  function Bits(data: seq<bv8>): (r: seq<bool>)
    ensures |r| == 8 * |data|
  {
    if data == [] then [] else ByteBits(data[0]) + Bits(data[1..])
  }

  /** 0xFFFFFFFF */
  function Init(): (r: Register)
    ensures forall i :: 0 <= i < 32 ==> r[i]
  {
    seq(32, _ => true)
  }

  /** The checksum of the standard, bit by bit. */
  function Crc(data: seq<bv8>): Register {
    FeedBits(Init(), Bits(data))
  }

  lemma {:induction false} BitsAppend(a: seq<bv8>, b: seq<bv8>)
    ensures Bits(a + b) == Bits(a) + Bits(b)
    decreases |a|
  {
    if a == [] {
      assert a + b == b;
    } else {
      assert (a + b)[0] == a[0] && (a + b)[1..] == a[1..] + b;
      BitsAppend(a[1..], b);
      assert Bits(a + b) == ByteBits(a[0]) + (Bits(a[1..]) + Bits(b));
    }
  }

  lemma CrcAppend(a: seq<bv8>, b: seq<bv8>)
    ensures Crc(a + b) == FeedBits(Crc(a), Bits(b))
  {
    BitsAppend(a, b);
    FeedAppend(Init(), Bits(a), Bits(b));
  }

  /** calculate_crc32: the table-driven loop computes the bit-by-bit checksum. */
  method CalculateCrc32(data: array<bv8>, len: nat) returns (crc: bv32)
    requires len <= data.Length
    ensures Poly(crc) == Crc(data[..len])
  {
    crc := 0xFFFF_FFFF;
    InitWord();
    assert data[..0] == [];
    for i := 0 to len
      invariant Poly(crc) == Crc(data[..i])
    {
      CrcNext(data[..i], data[i]);
      assert data[..i + 1] == data[..i] + [data[i]];
      crc := TableRound(crc, data[i]);
    }
  }

  lemma InitWord()
    ensures Poly(0xFFFF_FFFF) == Init()
  {
    forall i | 0 <= i < 32 ensures Poly(0xFFFF_FFFF)[i] == Init()[i] {
      CoefficientOfPolynomial(i);
    }
  }

  lemma CrcNext(data: seq<bv8>, b: bv8)
    ensures Crc(data + [b]) == FeedBits(Crc(data), ByteBits(b))
  {
    CrcAppend(data, [b]);
    assert Bits([b]) == ByteBits(b) + Bits([]) == ByteBits(b);
  }

  // ----- what the checksum means and detects -----

  /** 0x46AF6449: the word that becomes 0xFFFFFFFF after 32 steps. */
  lemma DivisionStart()
    ensures Iter(32, Poly(0x46AF_6449)) == Init()
  {
    StartWords();
    PolyByteStep(0x46AF_6449);
    PolyByteStep(0x8164_74C5);
    PolyByteStep(0x09B9_3859);
    PolyByteStep(0x9BF1_A90F);
    FourBytes(Poly(0x46AF_6449));
    InitWord();
  }

  lemma StartWords()
    ensures ByteStep(0x46AF_6449) == 0x8164_74C5 && ByteStep(0x8164_74C5) == 0x09B9_3859
    ensures ByteStep(0x09B9_3859) == 0x9BF1_A90F && ByteStep(0x9BF1_A90F) == 0xFFFF_FFFF
  {
  }

  lemma FourBytes(s: Register)
    ensures Iter(32, s) == Iter(8, Iter(8, Iter(8, Iter(8, s))))
  {
    IterAdd(8, 24, s);
    IterAdd(8, 16, Iter(8, s));
    IterAdd(8, 8, Iter(8, Iter(8, s)));
  }

  /** The checksum is the remainder of the message, followed by 32 zero bits, in a long division by the
      polynomial that starts from 0x46AF6449. */
  lemma CrcIsRemainder(data: seq<bv8>)
    ensures Crc(data) == Remainder(Poly(0x46AF_6449), Bits(data) + Zeros(32))
  {
    DivisionStart();
    FeedIsDivision(Poly(0x46AF_6449), Bits(data));
  }

  lemma {:induction false} BitsInjective(a: seq<bv8>, b: seq<bv8>)
    requires Bits(a) == Bits(b)
    ensures a == b
    decreases |a|
  {
    assert |a| == |b|;
    if a != [] {
      assert Bits(a)[..8] == ByteBits(a[0]) && Bits(b)[..8] == ByteBits(b[0]);
      assert Bits(a)[8..] == Bits(a[1..]) && Bits(b)[8..] == Bits(b[1..]);
      ByteFromBits(a[0], b[0]);
      BitsInjective(a[1..], b[1..]);
    }
  }

  lemma ByteFromBits(x: bv8, y: bv8)
    requires ByteBits(x) == ByteBits(y)
    ensures x == y
  {
    var a, b := ByteBits(x), ByteBits(y);
    assert a[0] == b[0] && a[1] == b[1] && a[2] == b[2] && a[3] == b[3];
    assert a[4] == b[4] && a[5] == b[5] && a[6] == b[6] && a[7] == b[7];
    SameBits(x, y);
  }

  lemma SameBits(x: bv8, y: bv8)
    ensures x & 0x80 == y & 0x80 && x & 0x40 == y & 0x40 && x & 0x20 == y & 0x20 && x & 0x10 == y & 0x10
            && x & 0x08 == y & 0x08 && x & 0x04 == y & 0x04 && x & 0x02 == y & 0x02 && x & 0x01 == y & 0x01
            ==> x == y
  {
  }

  /** Two different inputs of one length that differ only inside one window of 32 consecutive bits never
      have the same checksum. */
  lemma BurstErrorsDetected(a: seq<bv8>, b: seq<bv8>, lo: nat)
    requires |a| == |b| && a != b
    requires forall i :: 0 <= i < 8 * |a| && Bits(a)[i] != Bits(b)[i] ==> lo <= i < lo + 32
    ensures Crc(a) != Crc(b)
  {
    if Bits(a) == Bits(b) {
      BitsInjective(a, b);
    }
    BurstDetected(Init(), Bits(a), Bits(b), lo);
  }

  /** Continuing over four more bytes gives zero exactly when they are the checksum so far, most
      significant byte first. */
  lemma OwnBytesGiveZero(data: seq<bv8>, check: seq<bv8>)
    requires |check| == 4
    ensures Crc(data + check) == Zeros(32) <==> Bits(check) == Crc(data)
  {
    CrcAppend(data, check);
    OwnChecksum(Crc(data), Bits(check));
  }
}

/** Bytes, C integer widths and the little-endian readers of src/lib/util/hexutils.h. */
module Bytes {

  const TWO16: int := 0x1_0000
  const TWO31: int := 0x8000_0000
  const TWO32: int := 0x1_0000_0000

  type byte = x: int | 0 <= x < 256
  type u8 = byte
  type u16 = x: int | 0 <= x < 0x1_0000
  type u32 = x: int | 0 <= x < 0x1_0000_0000

  function Min(a: int, b: int): int {
    if a < b then a else b
  }

  /** read_le16 on a buffer, at an offset the caller keeps inside it. */
  function Le16(s: seq<byte>, o: nat): u16
    requires o + 2 <= |s|
  {
    var b0: int, b1: int := s[o], s[o + 1];
    b0 + 0x100 * b1
  }

  /** read_le32 on a buffer, at an offset the caller keeps inside it. */
  function Le32(s: seq<byte>, o: nat): u32
    requires o + 4 <= |s|
  {
    var b0: int, b1: int, b2: int, b3: int := s[o], s[o + 1], s[o + 2], s[o + 3];
    b0 + 0x100 * b1 + 0x1_0000 * b2 + 0x100_0000 * b3
  }

  /** The n low bytes of v, lowest first. */
  function LowBytes(v: nat, n: nat): (s: seq<byte>)
    ensures |s| == n
    decreases n
  {
    if n == 0 then [] else [v % 0x100] + LowBytes(v / 0x100, n - 1)
  }

  /** The four bytes a little-endian machine stores for v. */
  function Enc32(v: u32): (s: seq<byte>)
    ensures |s| == 4
    ensures Le32(s, 0) == v
  {
    FourBytes(v);
    LowBytes(v, 4)
  }

  lemma FourBytes(v: u32)
    ensures Le32(LowBytes(v, 4), 0) == v
  {
    var q1 := v / 0x100;
    var q2 := q1 / 0x100;
    var q3 := q2 / 0x100;
    assert LowBytes(q3, 1) == [q3];
    assert LowBytes(q2, 2) == [q2 % 0x100, q3];
    assert LowBytes(q1, 3) == [q1 % 0x100, q2 % 0x100, q3];
    assert LowBytes(v, 4) == [v % 0x100, q1 % 0x100, q2 % 0x100, q3];
  }

  /** A number as the formats of the card and of executables hold it. */
  function Write16(v: u16): (s: seq<byte>)
    ensures |s| == 2
  {
    LowBytes(v, 2)
  }

  function Write32(v: u32): (s: seq<byte>)
    ensures |s| == 4
  {
    LowBytes(v, 4)
  }

  // Numbers written low byte first are read back.

  lemma HalfAt(s: seq<byte>, o: nat, v: nat)
    requires o + 2 <= |s| && v < 0x1_0000 && s[o..o + 2] == LowBytes(v, 2)
    ensures Le16(s, o) == v
  {
    assert LowBytes(v / 0x100, 1) == [v / 0x100];
    assert LowBytes(v, 2) == [v % 0x100, v / 0x100];
    assert s[o] == s[o..o + 2][0] && s[o + 1] == s[o..o + 2][1];
  }

  lemma WordAt(s: seq<byte>, o: nat, v: u32)
    requires o + 4 <= |s| && s[o..o + 4] == LowBytes(v, 4)
    ensures Le32(s, o) == v
  {
    FourBytes(v);
    var w := LowBytes(v, 4);
    assert s[o] == w[0] && s[o + 1] == w[1] && s[o + 2] == w[2] && s[o + 3] == w[3];
  }

  lemma SubSlice(s: seq<byte>, o: nat, n: nat, a: nat, b: nat)
    requires a <= b <= n && o + n <= |s|
    ensures s[o..o + n][a..b] == s[o + a..o + b]
  {
    var x, y := s[o..o + n][a..b], s[o + a..o + b];
    forall i | 0 <= i < b - a ensures x[i] == y[i] {
      assert x[i] == s[o + (a + i)];
    }
  }

  /** The bytes of m with data written over them from address a on. */
  function Splice(m: seq<byte>, a: nat, data: seq<byte>): (r: seq<byte>)
    requires a + |data| <= |m|
    ensures |r| == |m|
    ensures forall i :: 0 <= i < |m| ==> r[i] == if a <= i < a + |data| then data[i - a] else m[i]
  {
    m[..a] + data + m[a + |data|..]
  }

  lemma SpliceTwice(m: seq<byte>, a: nat, x: seq<byte>, y: seq<byte>)
    requires a + |x| + |y| <= |m|
    ensures Splice(Splice(m, a, x), a + |x|, y) == Splice(m, a, x + y)
  {
  }
}

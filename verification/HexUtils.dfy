/** The number printers of src/lib/util/hexutils.c, against readers of decimal and hexadecimal numbers. */
module HexUtils {
  import opened Bytes
  import opened FatNameReading

  const ZERO: byte := 0x30

  // ----- readers -----

  predicate IsDigit(c: byte) {
    ZERO <= c < ZERO + 10
  }

  /** The number that decimal digits denote, the last one counting once. */
  function ReadDec(s: seq<byte>): int {
    if s == [] then 0 else 10 * ReadDec(s[..|s| - 1]) + (s[|s| - 1] - ZERO)
  }

  lemma ReadLast(s: seq<byte>, c: byte)
    ensures ReadDec(s + [c]) == 10 * ReadDec(s) + (c - ZERO)
    ensures ReadHex(s + [c]) == 16 * ReadHex(s) + HexValue(c)
  {
    assert (s + [c])[..|s|] == s;
  }

  function HexValue(c: byte): int {
    if c < 0x41 then c - ZERO else c - 0x41 + 10
  }

  function ReadHex(s: seq<byte>): int {
    if s == [] then 0 else 16 * ReadHex(s[..|s| - 1]) + HexValue(s[|s| - 1])
  }

  predicate IsHexDigit(c: byte) {
    IsDigit(c) || 0x41 <= c < 0x47
  }

  /** A string of so many hexadecimal digits, with capital letters, that reads as n. */
  ghost predicate HexWrites(s: seq<byte>, n: nat, k: nat) {
    |s| == k && (forall i :: 0 <= i < |s| ==> IsHexDigit(s[i])) && ReadHex(s) == n
  }

  /** The usual way to write n: digits, none of them a needless leading zero. */
  ghost predicate Writes(s: seq<byte>, n: nat) {
    && s != [] && (forall i :: 0 <= i < |s| ==> IsDigit(s[i]))
    && (|s| > 1 ==> s[0] != ZERO) && ReadDec(s) == n
  }

  // ----- decimal -----

  /** The digits of n; no digits for zero. */
  function Decimal(n: nat): (s: seq<byte>)
    ensures forall i :: 0 <= i < |s| ==> IsDigit(s[i])
    ensures n > 0 ==> s != [] && s[0] != ZERO
  {
    if n == 0 then [] else Decimal(n / 10) + [ZERO + n % 10]
  }

  lemma {:induction false} DecimalReads(n: nat)
    ensures ReadDec(Decimal(n)) == n
  {
    if n > 0 {
      DecimalReads(n / 10);
      assert Decimal(n)[..|Decimal(n)| - 1] == Decimal(n / 10);
    }
  }

  function Pow10(k: nat): nat {
    if k == 0 then 1 else 10 * Pow10(k - 1)
  }

  lemma {:induction false} DecimalLength(n: nat, k: nat)
    requires n < Pow10(k)
    ensures |Decimal(n)| <= k
  {
    if n > 0 {
      DecimalLength(n / 10, k - 1);
    }
  }

  /** A string of digits that starts with no zero is the decimal form of what it denotes. */
  lemma {:induction false} DecimalUnique(s: seq<byte>)
    requires forall i :: 0 <= i < |s| ==> IsDigit(s[i])
    requires s != [] ==> s[0] != ZERO
    ensures ReadDec(s) >= 0 && (s != [] ==> ReadDec(s) > 0) && s == Decimal(ReadDec(s))
    decreases |s|
  {
    if s != [] {
      var t, d := s[..|s| - 1], s[|s| - 1] - ZERO;
      assert IsDigit(s[|s| - 1]);
      DecimalUnique(t);
      DecimalLonger(s, t, d, ReadDec(t));
    }
  }

  lemma DecimalLonger(s: seq<byte>, t: seq<byte>, d: nat, m: nat)
    requires d < 10 && s == t + [ZERO + d] && s[0] != ZERO
    requires (t != [] ==> m > 0) && ReadDec(t) == m && t == Decimal(m)
    ensures ReadDec(s) == 10 * m + d > 0 && s == Decimal(10 * m + d)
  {
    ReadLast(t, ZERO + d);
    DecimalStep(m, d);
  }

  lemma DecimalStep(m: nat, d: nat)
    requires d < 10 && 10 * m + d > 0
    ensures Decimal(10 * m + d) == Decimal(m) + [ZERO + d]
  {
    assert (10 * m + d) / 10 == m && (10 * m + d) % 10 == d;
  }

  /** Digits that read as n end in the character of n % 10, counted from 0x30, and the others read as n / 10. */
  lemma DigitsEnd(s: seq<byte>, n: nat)
    requires s != [] && (forall i :: 0 <= i < |s| ==> IsDigit(s[i])) && ReadDec(s) == n
    ensures s[|s| - 1] == 0x30 + n % 10 && ReadDec(s[..|s| - 1]) == n / 10
  {
    var t, d := s[..|s| - 1], s[|s| - 1] - ZERO;
    assert IsDigit(s[|s| - 1]);
    assert ReadDec(s) == 10 * ReadDec(t) + d;
    DigitsPositive(t);
  }

  lemma {:induction false} DigitsPositive(s: seq<byte>)
    requires forall i :: 0 <= i < |s| ==> IsDigit(s[i])
    ensures ReadDec(s) >= 0
  {
    if s != [] {
      assert IsDigit(s[|s| - 1]);
      DigitsPositive(s[..|s| - 1]);
    }
  }

  /** Without needless zeros there are no more of them than n needs. */
  lemma DecimalEnds(s: seq<byte>, n: nat)
    requires Writes(s, n)
    ensures s[|s| - 1] == 0x30 + n % 10
    ensures if n < 10 then |s| == 1 else |s| > 1 && Writes(s[..|s| - 1], n / 10)
  {
    DigitsEnd(s, n);
    if |s| > 1 {
      DecimalUnique(s[..|s| - 1]);
    } else {
      assert s[..0] == [];
    }
  }

  /** So each number is written in one way. */
  lemma WritesUnique(s: seq<byte>, t: seq<byte>, n: nat)
    requires Writes(s, n) && Writes(t, n)
    ensures s == t
  {
    WrittenForm(s, n);
    WrittenForm(t, n);
  }

  lemma WrittenForm(s: seq<byte>, n: nat)
    requires Writes(s, n)
    ensures s == if n == 0 then [ZERO] else Decimal(n)
  {
    if s[0] == ZERO {
      assert s == [ZERO];
      assert ReadDec(s[..0]) == 0;
    } else {
      DecimalUnique(s);
    }
  }

  /** intToDec: the string that writes n, of at most ten digits, and a NUL. */
  method IntToDec(str: array<byte>, n0: u32) returns (ghost s: seq<byte>)
    requires str.Length >= 11
    modifies str
    ensures Writes(s, n0) && |s| <= 10 && Holds(str[..], s)
  {
    if n0 == 0 {
      str[0] := ZERO;
      str[1] := 0;
      s := [ZERO];
      assert s[..0] == [] && str[..1] == s;
      return;
    }
    var n: nat := n0;
    s := Decimal(n0);
    DecimalReads(n0);
    TenDigits(n0);
    var i := 0;
    var temp := new byte[12];
    while n > 0
      invariant 0 <= i && |Decimal(n)| + i == |s| && s[..|Decimal(n)|] == Decimal(n)
      invariant forall k :: 0 <= k < i ==> temp[k] == s[|s| - 1 - k]
    {
      LastDigit(n, s, i);
      temp[i] := n % 10 + ZERO;
      i := i + 1;
      n := n / 10;
    }
    var j := 0;
    while i > 0
      invariant 0 <= i && i + j == |s| && str[..j] == s[..j]
      invariant forall k :: 0 <= k < i ==> temp[k] == s[|s| - 1 - k]
    {
      i := i - 1;
      str[j] := temp[i];
      j := j + 1;
    }
    str[j] := 0;
    assert str[..j] == s[..j] == s;
  }

  lemma TenDigits(n: u32)
    ensures |Decimal(n)| <= 10
  {
    assert Pow10(5) == 100_000;
    assert Pow10(10) == 100_000 * Pow10(5);
    DecimalLength(n, 10);
  }

  lemma LastDigit(n: nat, s: seq<byte>, i: nat)
    requires n > 0 && |Decimal(n)| + i == |s| && s[..|Decimal(n)|] == Decimal(n)
    ensures |Decimal(n / 10)| + i + 1 == |s| && s[..|Decimal(n / 10)|] == Decimal(n / 10)
    ensures s[|s| - 1 - i] == ZERO + n % 10
  {
    var d := Decimal(n);
    assert d == Decimal(n / 10) + [ZERO + n % 10];
    assert s[..|d| - 1] == d[..|d| - 1];
    assert s[|d| - 1] == d[|d| - 1];
  }

  /** byteToDec: always three digits. */
  method ByteToDec(str: array<byte>, n: u8) returns (ghost s: seq<byte>)
    requires str.Length >= 4
    modifies str
    ensures |s| == 3 && (forall i :: 0 <= i < 3 ==> IsDigit(s[i])) && ReadDec(s) == n && Holds(str[..], s)
  {
    str[2] := n % 10 + ZERO;
    str[1] := n / 10 % 10 + ZERO;
    str[0] := n / 100 % 10 + ZERO;
    str[3] := 0;
    s := ThreeDigits(n);
    ThreeDigitsRead(n);
  }

  function ThreeDigits(n: byte): (s: seq<byte>)
    ensures forall i :: 0 <= i < |s| ==> IsDigit(s[i])
  {
    [n / 100 % 10 + ZERO, n / 10 % 10 + ZERO, n % 10 + ZERO]
  }

  lemma ThreeDigitsRead(n: byte)
    ensures ReadDec(ThreeDigits(n)) == n
  {
    var a, b, c := n / 100 % 10, n / 10 % 10, n % 10;
    ReadTwo(a + ZERO, b + ZERO);
    ReadLast([a + ZERO, b + ZERO], c + ZERO);
    assert [a + ZERO, b + ZERO] + [c + ZERO] == ThreeDigits(n);
  }

  lemma ReadTwo(a: byte, b: byte)
    ensures ReadDec([a, b]) == 10 * (a - ZERO) + (b - ZERO)
    ensures ReadHex([a, b]) == 16 * HexValue(a) + HexValue(b)
  {
    ReadLast([], a);
    assert [] + [a] == [a];
    ReadLast([a], b);
    assert [a] + [b] == [a, b];
  }

  // ----- hexadecimal -----

  function HexDigits(): (s: seq<byte>)
    ensures |s| == 16 && forall d :: 0 <= d < 16 ==> HexValue(s[d]) == d && IsHexDigit(s[d])
  {
    [0x30, 0x31, 0x32, 0x33, 0x34, 0x35, 0x36, 0x37, 0x38, 0x39, 0x41, 0x42, 0x43, 0x44, 0x45, 0x46]
  }

  /** The last k hexadecimal digits of n. */
  function Hex(n: nat, k: nat): (s: seq<byte>)
    ensures |s| == k && forall i :: 0 <= i < k ==> IsHexDigit(s[i])
    decreases k
  {
    if k == 0 then [] else Hex(n / 16, k - 1) + [HexDigits()[n % 16]]
  }

  function Pow16(k: nat): nat {
    if k == 0 then 1 else 16 * Pow16(k - 1)
  }

  lemma {:induction false} HexReads(n: nat, k: nat)
    requires n < Pow16(k)
    ensures ReadHex(Hex(n, k)) == n
    decreases k
  {
    if k > 0 {
      HexReads(n / 16, k - 1);
      assert Hex(n, k)[..k - 1] == Hex(n / 16, k - 1);
      assert HexValue(HexDigits()[n % 16]) == n % 16;
    }
  }

  /** A string of hexadecimal digits is the form of what it denotes. */
  lemma {:induction false} HexForm(s: seq<byte>)
    requires forall i :: 0 <= i < |s| ==> IsHexDigit(s[i])
    ensures ReadHex(s) >= 0 && s == Hex(ReadHex(s), |s|)
    decreases |s|
  {
    if s != [] {
      var t, c := s[..|s| - 1], s[|s| - 1];
      assert IsHexDigit(c);
      HexForm(t);
      HexLonger(s, t, c, ReadHex(t));
    }
  }

  lemma HexLonger(s: seq<byte>, t: seq<byte>, c: byte, m: nat)
    requires IsHexDigit(c) && s == t + [c] && ReadHex(t) == m && t == Hex(m, |t|)
    ensures ReadHex(s) >= 0 && s == Hex(ReadHex(s), |s|)
  {
    ReadLast(t, c);
    DigitOfValue(c);
    HexStep(m, HexValue(c), |t|);
  }

  lemma HexStep(m: nat, v: nat, k: nat)
    requires v < 16
    ensures Hex(16 * m + v, k + 1) == Hex(m, k) + [HexDigits()[v]]
  {
    assert (16 * m + v) / 16 == m && (16 * m + v) % 16 == v;
  }

  lemma DigitOfValue(c: byte)
    requires IsHexDigit(c)
    ensures 0 <= HexValue(c) < 16 && HexDigits()[HexValue(c)] == c
  {
  }

  /** Such a string ends in the character of n % 16, from 0x30 on for the digits and from 0x41 on for the
      letters, behind the string of n / 16. */
  lemma HexEnds(s: seq<byte>, n: nat, k: nat)
    requires HexWrites(s, n, k) && k > 0
    ensures s[k - 1] == if n % 16 < 10 then 0x30 + n % 16 else 0x41 + (n % 16 - 10)
    ensures HexWrites(s[..k - 1], n / 16, k - 1)
  {
    var t, d := s[..k - 1], HexValue(s[k - 1]);
    assert IsHexDigit(s[k - 1]);
    assert ReadHex(s) == 16 * ReadHex(t) + d;
    HexForm(t);
    assert n / 16 == ReadHex(t) && n % 16 == d;
  }

  /** So there is one such string for each number and length. */
  lemma HexWritesUnique(s: seq<byte>, t: seq<byte>, n: nat, k: nat)
    requires HexWrites(s, n, k) && HexWrites(t, n, k)
    ensures s == t
  {
    HexForm(s);
    HexForm(t);
  }

  /** A right shift, bit by bit. */
  function Shr(n: nat, k: nat): nat
    decreases k
  {
    if k == 0 then n else Shr(n / 2, k - 1)
  }

  lemma ShrNibble(n: nat, k: nat)
    requires k >= 4
    ensures Shr(n, k) == Shr(n / 16, k - 4)
  {
    assert n / 2 / 2 / 2 / 2 == n / 16;
    assert Shr(n, k) == Shr(n / 2, k - 1) == Shr(n / 2 / 2, k - 2) == Shr(n / 2 / 2 / 2, k - 3);
  }

  lemma {:induction false} HexAt(n: nat, k: nat, i: nat)
    requires i < k
    ensures Hex(n, k)[i] == HexDigits()[Shr(n, 4 * (k - 1 - i)) % 16]
    decreases k
  {
    if i < k - 1 {
      ShrNibble(n, 4 * (k - 1 - i));
      HexAt(n / 16, k - 1, i);
    }
  }

  /** hexToStr: eight digits that read as n, and a NUL. */
  method HexToStr(str: array<byte>, n: u32) returns (ghost s: seq<byte>)
    requires str.Length >= 9
    modifies str
    ensures HexWrites(s, n, 8) && Holds(str[..], s)
  {
    EightNibbles();
    s := Nibbles(n, 8);
    var i := 0;
    while i < 8
      invariant 0 <= i <= 8 && str[..i] == s[..i]
    {
      assert Nibble(s, n, 8, i);
      str[i] := HexDigits()[Shr(n, 28 - i * 4) % 16];
      i := i + 1;
    }
    str[8] := 0;
  }

  /** Digit i of k is the nibble that the shift brings to the end. */
  predicate Nibble(s: seq<byte>, n: nat, k: nat, i: nat)
    requires i < |s| && i < k
  {
    s[i] == HexDigits()[Shr(n, 4 * (k - 1 - i)) % 16]
  }

  lemma Nibbles(n: nat, k: nat) returns (s: seq<byte>)
    requires n < Pow16(k)
    ensures HexWrites(s, n, k) && forall i :: 0 <= i < k ==> Nibble(s, n, k, i)
  {
    s := Hex(n, k);
    HexReads(n, k);
    forall i | 0 <= i < k ensures Nibble(s, n, k, i) {
      HexAt(n, k, i);
    }
  }

  lemma EightNibbles()
    ensures Pow16(8) == TWO32
  {
    assert Pow16(4) == 0x1_0000;
    assert Pow16(8) == 0x1_0000 * Pow16(4);
  }

  /** byteToStr: two digits. */
  method ByteToStr(str: array<byte>, n: u8) returns (ghost s: seq<byte>)
    requires str.Length >= 3
    modifies str
    ensures HexWrites(s, n, 2) && Holds(str[..], s)
  {
    str[0] := HexDigits()[n / 16 % 16];
    str[1] := HexDigits()[n % 16];
    str[2] := 0;
    s := str[..2];
    ReadTwo(s[0], s[1]);
    assert s == [s[0], s[1]];
  }
}

/** CRC-32 as arithmetic on polynomials over GF(2): the checksum bit by bit, its algebra, and the errors
    it detects. A register holds the coefficients of x^31 down to x^0. */
module Crc32Poly {

  type Register = s: seq<bool> | |s| == 32 witness seq(32, _ => false)

  /** 0x04C11DB7 (the coefficient of x^32 is implied). */
  const POLYNOMIAL: Register := [
    false, false, false, false, false, true, false, false,
    true, true, false, false, false, false, false, true,
    false, false, false, true, true, true, false, true,
    true, false, true, true, false, true, true, true]

  function Zeros(n: nat): (r: seq<bool>)
    ensures |r| == n && forall i :: 0 <= i < n ==> !r[i]
  {
    seq(n, _ => false)
  }

  function Xor(a: seq<bool>, b: seq<bool>): (r: seq<bool>)
    requires |a| == |b|
    ensures |r| == |a| && forall i :: 0 <= i < |r| ==> (r[i] <==> a[i] != b[i])
  {
    seq(|a|, i requires 0 <= i < |a| => a[i] != b[i])
  }

  /** Multiply by x modulo the polynomial. */
  function Step(s: Register): Register {
    if s[0] then Xor(s[1..] + [false], POLYNOMIAL) else s[1..] + [false]
  }

  /** Shift one message bit in: subtract the polynomial when the bit that leaves differs from it. */
  function Feed(s: Register, b: bool): Register {
    if s[0] != b then Xor(s[1..] + [false], POLYNOMIAL) else s[1..] + [false]
  }

  function FeedBits(s: Register, bits: seq<bool>): Register
    decreases |bits|
  {
    if bits == [] then s else FeedBits(Feed(s, bits[0]), bits[1..])
  }

  /** n multiplications by x. */
  function Iter(n: nat, s: Register): Register {
    if n == 0 then s else Iter(n - 1, Step(s))
  }

  /** Long division: bring down the next coefficient, subtract the divisor if it goes. */
  function Remainder(r: Register, dividend: seq<bool>): Register
    decreases |dividend|
  {
    if dividend == [] then r else Remainder(Xor(Step(r), Zeros(31) + [dividend[0]]), dividend[1..])
  }

  // ----- linearity -----

  lemma XorSelf(a: seq<bool>)
    ensures Xor(a, a) == Zeros(|a|)
  {
  }

  lemma XorOfShifts(a: Register, b: Register)
    ensures Xor(a[1..] + [false], b[1..] + [false]) == Xor(a, b)[1..] + [false]
  {
  }

  lemma XorRegroup(a: Register, b: Register, p: Register)
    ensures Xor(Xor(a, p), Xor(b, p)) == Xor(a, b)
    ensures Xor(Xor(a, p), b) == Xor(Xor(a, b), p) == Xor(a, Xor(b, p))
  {
  }

  lemma StepXor(a: Register, b: Register)
    ensures Step(Xor(a, b)) == Xor(Step(a), Step(b))
  {
    XorOfShifts(a, b);
    XorRegroup(a[1..] + [false], b[1..] + [false], POLYNOMIAL);
  }

  lemma {:induction false} IterXor(n: nat, a: Register, b: Register)
    ensures Iter(n, Xor(a, b)) == Xor(Iter(n, a), Iter(n, b))
  {
    if n > 0 {
      StepXor(a, b);
      IterXor(n - 1, Step(a), Step(b));
    }
  }

  lemma {:induction false} IterStep(n: nat, s: Register)
    ensures Iter(n, Step(s)) == Step(Iter(n, s))
  {
    if n > 0 {
      IterStep(n - 1, Step(s));
    }
  }

  lemma {:induction false} IterAdd(m: nat, n: nat, s: Register)
    ensures Iter(m + n, s) == Iter(n, Iter(m, s))
  {
    if m > 0 {
      IterAdd(m - 1, n, Step(s));
    }
  }

  /** A step that pops no bit is a plain shift. */
  lemma {:induction false} IterShifts(n: nat, s: Register)
    requires n <= 32 && forall i :: 0 <= i < n ==> !s[i]
    ensures Iter(n, s) == s[n..] + Zeros(n)
  {
    if n > 0 {
      IterShifts(n - 1, Step(s));
      assert Step(s) == s[1..] + [false];
      assert s[n..] + Zeros(n) == Step(s)[n - 1..] + Zeros(n - 1);
    } else {
      assert s[0..] + Zeros(0) == s;
    }
  }

  lemma FeedIsStep(s: Register, b: bool)
    ensures Feed(s, b) == Step(Xor(s, [b] + Zeros(31)))
  {
    var t := Xor(s, [b] + Zeros(31));
    assert t[1..] == s[1..];
  }

  lemma {:induction false} FeedAppend(s: Register, a: seq<bool>, b: seq<bool>)
    ensures FeedBits(s, a + b) == FeedBits(FeedBits(s, a), b)
    decreases |a|
  {
    if a == [] {
      assert a + b == b;
    } else {
      assert (a + b)[0] == a[0] && (a + b)[1..] == a[1..] + b;
      FeedAppend(Feed(s, a[0]), a[1..], b);
    }
  }

  /** Up to 32 message bits can be added into the register first and stepped through afterwards. */
  lemma {:induction false} FeedAtOnce(s: Register, bits: seq<bool>)
    requires |bits| <= 32
    ensures FeedBits(s, bits) == Iter(|bits|, Xor(s, bits + Zeros(32 - |bits|)))
    decreases |bits|
  {
    if bits == [] {
      assert bits + Zeros(32) == Zeros(32);
      assert Xor(s, Zeros(32)) == s;
    } else {
      FeedFirst(s, bits);
      FeedAtOnce(Feed(s, bits[0]), bits[1..]);
    }
  }

  lemma FeedFirst(s: Register, bits: seq<bool>)
    requires 0 < |bits| <= 32
    ensures Xor(Feed(s, bits[0]), bits[1..] + Zeros(33 - |bits|)) == Step(Xor(s, bits + Zeros(32 - |bits|)))
  {
    var n := |bits|;
    var first, rest := [bits[0]] + Zeros(31), [false] + bits[1..] + Zeros(32 - n);
    FeedIsStep(s, bits[0]);
    assert rest[1..] + [false] == bits[1..] + Zeros(33 - n);
    StepXor(Xor(s, first), rest);
    assert Xor(Xor(s, first), rest) == Xor(s, bits + Zeros(32 - n));
  }

  // ----- the checksum is a remainder -----

  /** The unit polynomial after 32 steps is the divisor. */
  lemma UnitTo32()
    ensures Iter(32, Zeros(31) + [true]) == Step([true] + Zeros(31))
  {
    var u: Register := Zeros(31) + [true];
    IterShifts(31, u);
    IterAdd(31, 1, u);
    assert u[31..] + Zeros(31) == [true] + Zeros(31);
    assert Iter(1, Iter(31, u)) == Step(Iter(31, u));
  }

  lemma {:induction false} DivideZeros(n: nat, r: Register)
    ensures Remainder(r, Zeros(n)) == Iter(n, r)
  {
    if n > 0 {
      assert Zeros(n)[1..] == Zeros(n - 1);
      assert Xor(Step(r), Zeros(31) + [false]) == Step(r);
      DivideZeros(n - 1, Step(r));
    }
  }

  lemma FeedLater(t: Register, b: bool)
    ensures Feed(Iter(32, t), b) == Iter(32, Xor(Step(t), Zeros(31) + [b]))
  {
    FeedIsStep(Iter(32, t), b);
    StepXor(Iter(32, t), [b] + Zeros(31));
    IterStep(32, t);
    IterXor(32, Step(t), Zeros(31) + [b]);
    if b {
      UnitTo32();
    } else {
      IterShifts(32, Zeros(31) + [false]);
      assert Zeros(31) + [false] == Zeros(32) && [false] + Zeros(31) == Zeros(32);
      assert Iter(32, Zeros(32)) == Zeros(32);
      assert Step(Zeros(32)) == Zeros(32);
    }
  }

  /** Feeding a message is dividing the message followed by 32 zero coefficients: the register that
      would have been reached 32 steps later is what the division starts from. */
  lemma {:induction false} FeedIsDivision(t: Register, bits: seq<bool>)
    ensures FeedBits(Iter(32, t), bits) == Remainder(t, bits + Zeros(32))
    decreases |bits|
  {
    if bits == [] {
      assert bits + Zeros(32) == Zeros(32);
      DivideZeros(32, t);
    } else {
      FeedLater(t, bits[0]);
      FeedIsDivision(Xor(Step(t), Zeros(31) + [bits[0]]), bits[1..]);
      assert (bits + Zeros(32))[1..] == bits[1..] + Zeros(32);
    }
  }

  // ----- error detection -----

  /** Different registers stay different. */
  lemma FeedInjective(s: Register, t: Register, b: bool)
    requires Feed(s, b) == Feed(t, b)
    ensures s == t
  {
    assert POLYNOMIAL[31];
    var s', t' := Feed(s, b), Feed(t, b);
    assert s'[31] <==> s[0] != b;
    assert t'[31] <==> t[0] != b;
    forall i | 0 < i < 32 ensures s[i] == t[i] {
      assert s'[i - 1] == t'[i - 1];
    }
  }

  lemma {:induction false} FeedBitsInjective(s: Register, t: Register, bits: seq<bool>)
    requires FeedBits(s, bits) == FeedBits(t, bits)
    ensures s == t
    decreases |bits|
  {
    if bits != [] {
      FeedBitsInjective(Feed(s, bits[0]), Feed(t, bits[0]), bits[1..]);
      FeedInjective(s, t, bits[0]);
    }
  }

  /** The m lowest coefficients of the two registers agree. */
  ghost predicate AgreeLow(s: Register, t: Register, m: nat)
    requires m <= 32
  {
    forall i :: 32 - m <= i < 32 ==> s[i] == t[i]
  }

  /** One step backwards, whatever the two bits fed were: agreement shrinks by one coefficient. */
  lemma AgreeBefore(s: Register, t: Register, b: bool, c: bool, m: nat)
    requires m <= 31 && AgreeLow(Feed(s, b), Feed(t, c), m + 1)
    ensures AgreeLow(s, t, m)
  {
    assert POLYNOMIAL[31];
    var s', t' := Feed(s, b), Feed(t, c);
    assert s'[31] <==> s[0] != b;
    assert t'[31] <==> t[0] != c;
    forall i | 32 - m <= i < 32 ensures s[i] == t[i] {
      assert s'[i - 1] == t'[i - 1];
    }
  }

  /** If two messages that agree from bit m on end in the same register, they started m bits earlier
      from registers agreeing in the lowest 32 - m coefficients. */
  lemma {:induction false} AgreeAtStart(s: Register, t: Register, a: seq<bool>, b: seq<bool>, m: nat)
    requires m <= 31 && |a| == |b| && forall i :: m <= i < |a| ==> a[i] == b[i]
    requires FeedBits(s, a) == FeedBits(t, b)
    ensures AgreeLow(s, t, 32 - m)
    decreases |a|
  {
    if m == 0 {
      assert a == b;
      FeedBitsInjective(s, t, a);
    } else if a != [] {
      AgreeAtStart(Feed(s, a[0]), Feed(t, b[0]), a[1..], b[1..], m - 1);
      AgreeBefore(s, t, a[0], b[0], 32 - m);
    }
  }

  /** The constant term of the polynomial is 1, so two different bits leave different constant terms. */
  lemma DiffersLow(s: Register, b: bool, c: bool)
    requires b != c
    ensures !AgreeLow(Feed(s, b), Feed(s, c), 1)
  {
    assert POLYNOMIAL[31];
    assert Feed(s, b)[31] != Feed(s, c)[31];
  }

  /** Two different messages of one length whose differences all lie in some window of 32 consecutive
      bits never have the same checksum. */
  lemma {:induction false} BurstDetected(s: Register, a: seq<bool>, b: seq<bool>, lo: int)
    requires |a| == |b| && a != b
    requires forall i :: 0 <= i < |a| && a[i] != b[i] ==> lo <= i < lo + 32
    ensures FeedBits(s, a) != FeedBits(s, b)
    decreases |a|
  {
    if a[0] == b[0] {
      assert a == [a[0]] + a[1..] && b == [b[0]] + b[1..];
      BurstDetected(Feed(s, a[0]), a[1..], b[1..], lo - 1);
    } else if FeedBits(s, a) == FeedBits(s, b) {
      DiffersLow(s, a[0], b[0]);
      AgreeAtStart(Feed(s, a[0]), Feed(s, b[0]), a[1..], b[1..], 31);
    }
  }

  /** Only the checksum itself, appended, brings the register to zero. */
  lemma OwnChecksum(s: Register, w: Register)
    ensures FeedBits(s, w) == Zeros(32) <==> w == s
  {
    FeedAtOnce(s, s);
    assert s + Zeros(0) == s;
    XorSelf(s);
    IterShifts(32, Zeros(32));
    assert Iter(32, Zeros(32)) == Zeros(32);
    if w != s {
      BurstDetected(s, s, w, 0);
    }
  }
}

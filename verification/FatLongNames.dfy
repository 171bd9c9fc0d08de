/** What names the directory scan reports (Microsoft FAT Specification, sections 6.1, 7.1 and 7.2). */
module FatLongNames {
  import opened Bytes
  import opened FatNames
  import opened FatRecords

  // ----- how a long name is stored -----

  /** The UTF-16 units of a stored name: as many as twenty records hold, although a proper name has at most
      255. */
  predicate NameUnits(units: seq<u16>) {
    0 < |units| <= 260 && forall i :: 0 <= i < |units| ==> units[i] != 0x0000 && units[i] != 0xFFFF
  }

  /** How many long-name records a name takes: thirteen units each. */
  function PartCount(units: seq<u16>): nat {
    (|units| + 12) / 13
  }

  /** Unit j of the stored form: the name, one terminator, padding. */
  function Stored(units: seq<u16>, j: nat): u16 {
    if j < |units| then units[j] else if j == |units| then 0 else 0xFFFF
  }

  /** r is record number k of the run that stores a name whose short record has this checksum. */
  ghost predicate StoresPart(r: Record, units: seq<u16>, k: nat, sum: byte)
    requires 1 <= k
  {
    && Number(r) == k && (IsLast(r) <==> k == PartCount(units))
    && IsLong(r) && r[0] != 0xE5 && r[13] == sum
    && StoresFrom(Units(r, 1, 5), units, 13 * (k - 1))
    && StoresFrom(Units(r, 14, 6), units, 13 * (k - 1) + 5)
    && StoresFrom(Units(r, 28, 2), units, 13 * (k - 1) + 11)
  }

  /** u holds the stored units from unit a on. */
  ghost predicate StoresFrom(u: seq<u16>, units: seq<u16>, a: nat) {
    forall i :: 0 <= i < |u| ==> u[i] == Stored(units, a + i)
  }

  function NarrowAll(units: seq<u16>): (s: seq<byte>)
    ensures |s| == |units| && forall i :: 0 <= i < |s| ==> s[i] == Narrow(units[i])
  {
    seq(|units|, i requires 0 <= i < |units| => Narrow(units[i]))
  }

  /** The units that record number k holds. */
  function PartUnits(units: seq<u16>, k: nat): seq<u16>
    requires 1 <= k && 13 * (k - 1) <= |units|
  {
    units[13 * (k - 1)..Min(13 * k, |units|)]
  }

  // ----- reading one record -----

  lemma {:induction false} LongCharsStop(u: seq<u16>, m: nat)
    requires m <= |u| && (forall i :: 0 <= i < m ==> !Stops(u[i])) && (m < |u| ==> Stops(u[m]))
    ensures LongChars(u) == NarrowAll(u[..m])
    decreases |u|
  {
    if m > 0 {
      LongCharsStop(u[1..], m - 1);
      assert u[1..][..m - 1] == u[..m][1..];
      assert NarrowAll(u[..m]) == [Narrow(u[0])] + NarrowAll(u[..m][1..]);
    }
  }

  /** One run of units of the record: it holds units a.. of the name, the first m of them real. */
  lemma RunChars(u: seq<u16>, units: seq<u16>, a: nat)
    requires NameUnits(units) && StoresFrom(u, units, a)
    ensures LongChars(u) == NarrowAll(units[Min(a, |units|)..Min(a + |u|, |units|)])
  {
    if a < |units| {
      var m := Min(|u|, |units| - a);
      UnitsInside(u, units, a, m);
      LongCharsStop(u, m);
    } else {
      UnitsBeyond(u, units, a);
      LongCharsStop(u, 0);
    }
  }

  lemma UnitsInside(u: seq<u16>, units: seq<u16>, a: nat, m: nat)
    requires NameUnits(units) && StoresFrom(u, units, a)
    requires a < |units| && m == Min(|u|, |units| - a)
    ensures u[..m] == units[a..Min(a + |u|, |units|)]
    ensures (forall i :: 0 <= i < m ==> !Stops(u[i])) && (m < |u| ==> Stops(u[m]))
  {
    forall i | 0 <= i < m ensures !Stops(u[i]) && u[i] == units[a + i] {
    }
    if m < |u| {
      assert u[m] == Stored(units, a + m);
    }
  }

  lemma UnitsBeyond(u: seq<u16>, units: seq<u16>, a: nat)
    requires StoresFrom(u, units, a) && a >= |units|
    ensures u[..0] == units[|units|..|units|] && (0 < |u| ==> Stops(u[0]))
  {
    if u != [] {
      assert u[0] == Stored(units, a + 0);
    }
  }

  lemma NarrowConcat(a: seq<u16>, b: seq<u16>)
    ensures NarrowAll(a) + NarrowAll(b) == NarrowAll(a + b)
  {
  }

  lemma PartChars(r: Record, units: seq<u16>, k: nat, sum: byte)
    requires NameUnits(units) && 1 <= k <= PartCount(units) && StoresPart(r, units, k, sum)
    ensures PartName(r) == NarrowAll(PartUnits(units, k))
  {
    PiecesChars(Units(r, 1, 5), Units(r, 14, 6), Units(r, 28, 2), units, 13 * (k - 1));
  }

  lemma PiecesChars(x: seq<u16>, y: seq<u16>, z: seq<u16>, units: seq<u16>, a: nat)
    requires NameUnits(units) && a <= |units| && |x| == 5 && |y| == 6 && |z| == 2
    requires StoresFrom(x, units, a) && StoresFrom(y, units, a + 5) && StoresFrom(z, units, a + 11)
    ensures LongChars(x) + LongChars(y) + LongChars(z) == NarrowAll(units[a..Min(a + 13, |units|)])
  {
    RunChars(x, units, a);
    RunChars(y, units, a + 5);
    RunChars(z, units, a + 11);
    ThreeRuns(units, a);
  }

  lemma ThreeRuns(units: seq<u16>, a: nat)
    requires a <= |units|
    ensures var n := |units|;
            NarrowAll(units[Min(a, n)..Min(a + 5, n)]) + NarrowAll(units[Min(a + 5, n)..Min(a + 11, n)])
            + NarrowAll(units[Min(a + 11, n)..Min(a + 13, n)]) == NarrowAll(units[a..Min(a + 13, n)])
  {
    var n := |units|;
    var p, q, r := units[a..Min(a + 5, n)], units[Min(a + 5, n)..Min(a + 11, n)], units[Min(a + 11, n)..Min(a + 13, n)];
    NarrowConcat(p, q);
    NarrowConcat(p + q, r);
    assert p + q + r == units[a..Min(a + 13, n)];
  }

  // ----- reading the whole run -----

  /** Part buffers k and above hold the name's parts. */
  ghost predicate HoldsParts(l: Lfn, units: seq<u16>, k: nat) {
    && |l.parts| == MAX_PARTS
    && forall j :: k <= j < PartCount(units) && j < MAX_PARTS && 13 * j <= |units|
                   ==> l.parts[j] == NarrowAll(PartUnits(units, j + 1))
  }

  /** The run has been read down to record number k + 1. */
  ghost predicate Midway(l: Lfn, units: seq<u16>, k: nat, sum: byte) {
    HoldsParts(l, units, k) && l.found == PartCount(units) - k && (k < PartCount(units) ==> l.sum == sum)
  }

  /** Records i.. are numbers k, k - 1, ..., 1 of the run. */
  ghost predicate Run(recs: seq<Record>, i: nat, units: seq<u16>, k: nat, sum: byte)
    decreases k
  {
    k == 0 || (i < |recs| && StoresPart(recs[i], units, k, sum) && Run(recs, i + 1, units, k - 1, sum))
  }

  lemma PartNumbers(units: seq<u16>, k: nat)
    requires NameUnits(units) && 1 <= k <= PartCount(units)
    ensures PartCount(units) <= MAX_PARTS && 13 * (k - 1) < |units| && |units| <= 13 * PartCount(units)
  {
  }

  /** The state after k long-name records from record i on. */
  function Collect(recs: seq<Record>, i: nat, l: Lfn, k: nat): (l': Lfn)
    requires i + k <= |recs| && |l.parts| == MAX_PARTS
    ensures |l'.parts| == MAX_PARTS
    decreases k
  {
    if k == 0 then l else Collect(recs, i + 1, LfnStep(l, recs[i]), k - 1)
  }

  /** A long-name record that the scan does not stop at. */
  predicate Passed(r: Record) {
    IsLong(r) && !IsEnd(r) && !IsDeleted(r)
  }

  lemma {:induction false} RunPassed(recs: seq<Record>, i: nat, units: seq<u16>, k: nat, sum: byte)
    requires Run(recs, i, units, k, sum) && i + k <= |recs|
    ensures forall j :: i <= j < i + k ==> Passed(recs[j])
    decreases k
  {
    if k > 0 {
      PartIsLong(recs[i], units, k, sum);
      RunPassed(recs, i + 1, units, k - 1, sum);
    }
  }

  /** The scan passes over long-name records, collecting them. */
  lemma {:induction false} ScanPasses(recs: seq<Record>, i: nat, l: Lfn, k: nat)
    requires i + k <= |recs| && |l.parts| == MAX_PARTS && forall j :: i <= j < i + k ==> Passed(recs[j])
    ensures ScanFrom(recs, i, l) == ScanFrom(recs, i + k, Collect(recs, i, l, k))
    decreases k
  {
    if k > 0 {
      var l' := LfnStep(l, recs[i]);
      PassesOne(recs, i, l, l', k);
      ScanPasses(recs, i + 1, l', k - 1);
    }
  }

  lemma PassesOne(recs: seq<Record>, i: nat, l: Lfn, l': Lfn, k: nat)
    requires |l.parts| == MAX_PARTS && 0 < k && i + k <= |recs| && Passed(recs[i]) && l' == LfnStep(l, recs[i])
    ensures |l'.parts| == MAX_PARTS && ScanFrom(recs, i, l) == ScanFrom(recs, i + 1, l')
    ensures Collect(recs, i, l, k) == Collect(recs, i + 1, l', k - 1)
  {
  }

  lemma PartIsLong(r: Record, units: seq<u16>, k: nat, sum: byte)
    requires 1 <= k && StoresPart(r, units, k, sum)
    ensures IsLong(r) && !IsEnd(r) && !IsDeleted(r)
  {
    assert Number(r) == k;
  }

  /** It collects every part, and keeps the checksum. */
  lemma {:induction false} CollectRun(recs: seq<Record>, i: nat, l: Lfn, units: seq<u16>, k: nat, sum: byte)
    requires NameUnits(units) && k <= PartCount(units) && Run(recs, i, units, k, sum) && sum != 0
    requires i + k <= |recs| && Midway(l, units, k, sum)
    ensures Midway(Collect(recs, i, l, k), units, 0, sum)
    decreases k
  {
    if k > 0 {
      StepOnce(recs[i], l, units, k, sum);
      CollectRun(recs, i + 1, LfnStep(l, recs[i]), units, k - 1, sum);
    }
  }

  lemma StepOnce(r: Record, l: Lfn, units: seq<u16>, k: nat, sum: byte)
    requires NameUnits(units) && 1 <= k <= PartCount(units) && StoresPart(r, units, k, sum) && sum != 0
    requires Midway(l, units, k, sum)
    ensures Midway(LfnStep(l, r), units, k - 1, sum)
  {
    PartNumbers(units, k);
    PartChars(r, units, k, sum);
    assert LfnStep(l, r) == Lfn(l.parts[k - 1 := PartName(r)], l.found + 1, sum);
  }

  /** With a zero checksum the collected state never claims a long name. */
  lemma {:induction false} CollectZero(recs: seq<Record>, i: nat, l: Lfn, units: seq<u16>, k: nat)
    requires k <= PartCount(units) && Run(recs, i, units, k, 0) && i + k <= |recs|
    requires |l.parts| == MAX_PARTS && (k == PartCount(units) ==> k > 0) && (k < PartCount(units) ==> l.sum == 0)
    ensures Collect(recs, i, l, k).sum == 0
    decreases k
  {
    if k > 0 {
      StepZero(recs[i], l, units, k);
      CollectZero(recs, i + 1, LfnStep(l, recs[i]), units, k - 1);
    }
  }

  lemma StepZero(r: Record, l: Lfn, units: seq<u16>, k: nat)
    requires 1 <= k <= PartCount(units) && StoresPart(r, units, k, 0)
    requires |l.parts| == MAX_PARTS && (k < PartCount(units) ==> l.sum == 0)
    ensures LfnStep(l, r).sum == 0
  {
  }

  lemma PartPositive(units: seq<u16>)
    requires NameUnits(units)
    ensures PartCount(units) >= 1
  {
  }

  // ----- joining the parts -----

  lemma CutTwice(a: seq<byte>, b: seq<byte>)
    ensures Cut(Cut(a) + b) == Cut(a + b)
  {
  }

  lemma {:induction false} JoinParts(l: Lfn, units: seq<u16>, n: nat)
    requires NameUnits(units) && HoldsParts(l, units, 0) && n <= PartCount(units) && n <= MAX_PARTS
    ensures Joined(l.parts, n) == Cut(NarrowAll(units[..Min(13 * n, |units|)]))
  {
    if n == 0 {
      assert units[..0] == [];
    } else {
      PartNumbers(units, n);
      JoinParts(l, units, n - 1);
      var a := units[..13 * (n - 1)];
      assert l.parts[n - 1] == NarrowAll(PartUnits(units, n));
      CutTwice(NarrowAll(a), l.parts[n - 1]);
      NarrowConcat(a, PartUnits(units, n));
      assert a + PartUnits(units, n) == units[..Min(13 * n, |units|)];
    }
  }

  /** A run of long-name records that is complete, in order and not preceded by stray ones, followed by
      its short record: the scan reports the long name, every unit that is not ASCII as '?' and cut to 255
      characters, if the checksum is not zero and is the short record's; otherwise it reports the short name. */
  lemma LongNameReported(recs: seq<Record>, i: nat, l: Lfn, units: seq<u16>, sum: byte)
    requires NameUnits(units) && |l.parts| == MAX_PARTS && l.found == 0
    requires Run(recs, i, units, PartCount(units), sum)
    requires i + PartCount(units) < |recs| && IsShort(recs[i + PartCount(units)])
    ensures var r := recs[i + PartCount(units)];
            ScanFrom(recs, i, l)
            == Hit(Named(if sum != 0 && SectionSum(r[..11]) == sum then Cut(NarrowAll(units))
                         else ShortName(r[..11]), r),
                   i + PartCount(units) + 1)
  {
    var n := PartCount(units);
    SumIsSection(recs[i + n][..11]);
    PartPositive(units);
    PartNumbers(units, n);
    RunPassed(recs, i, units, n, sum);
    ScanPasses(recs, i, l, n);
    if sum == 0 {
      CollectZero(recs, i, l, units, n);
    } else {
      CollectRun(recs, i, l, units, n, sum);
      WholeName(Collect(recs, i, l, n), units, sum);
    }
  }

  lemma WholeName(l: Lfn, units: seq<u16>, sum: byte)
    requires NameUnits(units) && Midway(l, units, 0, sum)
    ensures l.sum == sum && Joined(l.parts, Min(l.found, MAX_PARTS)) == Cut(NarrowAll(units))
  {
    var n := PartCount(units);
    PartPositive(units);
    PartNumbers(units, n);
    JoinParts(l, units, n);
    assert units[..Min(13 * n, |units|)] == units;
  }

  // ----- short names -----

  /** A padded 8.3 name: a base and an extension without blanks, dots or NULs, padded with blanks. */
  ghost predicate PaddedName(name: seq<byte>) {
    && |name| == 11
    && (forall i :: |BeforeSpace(name[..8])| <= i < 8 ==> name[i] == SPACE)
    && (forall i :: 8 + |BeforeSpace(name[8..])| <= i < 11 ==> name[i] == SPACE)
    && forall i :: 0 <= i < 11 ==> name[i] != DOT && name[i] != 0
  }

  /** Different padded names are reported as different strings. */
  lemma ShortNameInjective(a: seq<byte>, b: seq<byte>)
    requires PaddedName(a) && PaddedName(b) && ShortName(a) == ShortName(b)
    ensures a == b
  {
    ShortCharsWhole(a);
    ShortCharsWhole(b);
    BaseOf(a);
    BaseOf(b);
    SameHalves(BeforeSpace(a[..8]), BeforeSpace(a[8..]), BeforeSpace(b[..8]), BeforeSpace(b[8..]));
    forall i | 0 <= i < 11 ensures a[i] == b[i] {
      PaddedAt(a, i);
      PaddedAt(b, i);
    }
  }

  /** Base and extension, joined by a dot when there is an extension. */
  function Dotted(p: seq<byte>, e: seq<byte>): seq<byte> {
    p + if e == [] then [] else [DOT] + e
  }

  lemma SameHalves(p: seq<byte>, e: seq<byte>, q: seq<byte>, f: seq<byte>)
    requires DOT !in p && DOT !in q && Dotted(p, e) == Dotted(q, f)
    ensures p == q && e == f
  {
    SameBase(p, e, q, f);
    var x, y := Dotted(p, e), Dotted(q, f);
    assert p == x[..|p|] && q == y[..|q|];
    assert e == if |x| == |p| then [] else x[|p| + 1..];
    assert f == if |y| == |q| then [] else y[|q| + 1..];
  }

  lemma SameBase(p: seq<byte>, e: seq<byte>, q: seq<byte>, f: seq<byte>)
    requires DOT !in p && DOT !in q && Dotted(p, e) == Dotted(q, f)
    ensures |p| == |q|
  {
    ShorterBase(p, e, q, f);
    ShorterBase(q, f, p, e);
  }

  lemma ShorterBase(p: seq<byte>, e: seq<byte>, q: seq<byte>, f: seq<byte>)
    requires DOT !in q && Dotted(p, e) == Dotted(q, f)
    ensures |q| <= |p|
  {
    var x := Dotted(p, e);
    assert |x| > |p| ==> x[|p|] == DOT;
    assert q == Dotted(q, f)[..|q|];
  }

  lemma ShortCharsWhole(name: seq<byte>)
    requires PaddedName(name)
    ensures ShortName(name) == ShortChars(name)
  {
    var p, e := BeforeSpace(name[..8]), BeforeSpace(name[8..]);
    assert 0 !in p && 0 !in e;
    NoNulWhole(ShortChars(name));
  }

  lemma BaseOf(name: seq<byte>)
    requires PaddedName(name)
    ensures DOT !in BeforeSpace(name[..8])
    ensures ShortChars(name) == Dotted(BeforeSpace(name[..8]), BeforeSpace(name[8..]))
  {
  }

  lemma PaddedAt(name: seq<byte>, i: nat)
    requires PaddedName(name) && i < 11
    ensures var p, e := BeforeSpace(name[..8]), BeforeSpace(name[8..]);
            name[i] == if i < 8 then if i < |p| then p[i] else SPACE else if i - 8 < |e| then e[i - 8] else SPACE
  {
  }
}

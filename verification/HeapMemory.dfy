/** Block headers as the bytes they occupy (memory_space_t of libc/src/stdlib/heap.c), and what each
    write to one of them does to the block list. */
module HeapMemory {
  import opened Bytes
  import opened HeapBlocks

  datatype Header = Header(prev: nat, next: nat, size: nat, live: bool)

  /** The header stored at address a. */
  function HeaderAt(m: seq<byte>, a: nat): Header {
    if a + HEADER <= |m| then
      Header(Le32(m, a), Le32(m, a + 4), Le32(m, a + 8), m[a + 12] != 0)
    else
      Header(0, 0, 0, false)
  }

  /** The header of block i, read from memory, is hs[i]. */
  ghost predicate ReadsAs(m: seq<byte>, bs: seq<Block>, hs: seq<Header>, i: nat)
    requires i < |bs| && i < |hs|
  {
    hs[i] == HeaderAt(m, bs[i].addr)
  }

  /** hs are the headers of the block list, as memory holds them. */
  ghost predicate View(m: seq<byte>, bs: seq<Block>, hs: seq<Header>) {
    |hs| == |bs| && forall i :: 0 <= i < |bs| ==> ReadsAs(m, bs, hs, i)
  }

  // ----- what headers say about the block list -----

  ghost predicate Describes(h: Header, bs: seq<Block>, i: nat)
    requires i < |bs|
  {
    h.next == NextAddr(bs, i) && h.size == bs[i].size && h.live == bs[i].live
  }

  ghost predicate PointsBack(h: Header, bs: seq<Block>, i: nat)
    requires i < |bs|
  {
    h.prev == PrevAddr(bs, i)
  }

  /** next, size and isAllocated of every header agree with the list. */
  ghost predicate Chained(hs: seq<Header>, bs: seq<Block>) {
    |hs| == |bs| && forall i :: 0 <= i < |bs| ==> Describes(hs[i], bs, i)
  }

  /** prev of every header but the one at x names the block in front. */
  ghost predicate LinkedExcept(hs: seq<Header>, bs: seq<Block>, x: int) {
    |hs| == |bs| && forall i :: 0 <= i < |bs| && i != x ==> PointsBack(hs[i], bs, i)
  }

  /** prev of every header names the block in front: next and prev are inverse. */
  ghost predicate Linked(hs: seq<Header>, bs: seq<Block>) {
    LinkedExcept(hs, bs, -1)
  }

  /** Every prev field is right, or else only that of the block behind the free block k + 1 is wrong:
      merging blocks k and k + 1 will set it right. */
  ghost predicate Mends(hs: seq<Header>, bs: seq<Block>, k: nat) {
    Linked(hs, bs) || (LinkedExcept(hs, bs, k + 2) && k + 1 < |bs| && !bs[k + 1].live)
  }

  // ----- byte frames -----

  /** m' differs from m only in the sixteen header bytes at a. */
  ghost predicate OnlyHeader(m: seq<byte>, m': seq<byte>, a: nat) {
    |m| == |m'| && forall x :: 0 <= x < |m| && !(a <= x < a + HEADER) ==> m[x] == m'[x]
  }

  lemma OnlyHeaderTwice(m0: seq<byte>, m1: seq<byte>, m2: seq<byte>, a: nat)
    requires OnlyHeader(m0, m1, a) && OnlyHeader(m1, m2, a)
    ensures OnlyHeader(m0, m2, a)
  {
  }

  /** m' differs from m in no payload byte of the given blocks and nowhere outside [lo, hi). */
  ghost predicate Keeps(m: seq<byte>, m': seq<byte>, kept: set<Block>, lo: nat, hi: nat) {
    && |m| == |m'|
    && (forall x :: 0 <= x < |m| && (x < lo || hi <= x) ==> m[x] == m'[x])
    && (forall b, x :: b in kept && b.Payload() <= x < b.End() && x < |m| ==> m[x] == m'[x])
  }

  lemma KeepsTransitive(m0: seq<byte>, m1: seq<byte>, m2: seq<byte>, kept: set<Block>, lo: nat, hi: nat)
    requires Keeps(m0, m1, kept, lo, hi) && Keeps(m1, m2, kept, lo, hi)
    ensures Keeps(m0, m2, kept, lo, hi)
  {
  }

  /** n bytes that stood at p in m stand at q in m'. */
  ghost predicate CarriesOver(m: seq<byte>, m': seq<byte>, p: nat, q: nat, n: nat) {
    p + n <= |m| && q + n <= |m'| && m'[q..q + n] == m[p..p + n]
  }

  lemma KeepsSlice(m: seq<byte>, m': seq<byte>, kept: set<Block>, lo: nat, hi: nat, b: Block, n: nat)
    requires Keeps(m, m', kept, lo, hi) && b in kept && n <= b.size && b.Payload() + n <= |m|
    ensures m[b.Payload()..b.Payload() + n] == m'[b.Payload()..b.Payload() + n]
  {
  }

  lemma KeepsFewer(m: seq<byte>, m': seq<byte>, kept: set<Block>, fewer: set<Block>, lo: nat, hi: nat)
    requires Keeps(m, m', kept, lo, hi) && fewer <= kept
    ensures Keeps(m, m', fewer, lo, hi)
  {
  }

  /** Writing a header of the list touches no live payload and nothing outside the region. */
  lemma OnlyHeaderKeeps(m: seq<byte>, m': seq<byte>, bs: seq<Block>, lo: nat, hi: nat, k: nat, kept: set<Block>)
    requires Tiles(bs, lo, hi) && k < |bs| && kept <= LiveBlocks(bs)
    requires OnlyHeader(m, m', bs[k].addr)
    ensures Keeps(m, m', kept, lo, hi)
  {
    Within(bs, lo, hi, k);
    forall b, x | b in kept && b.Payload() <= x < b.End() && x < |m| ensures m[x] == m'[x] {
      var i :| 0 <= i < |bs| && bs[i] == b;
      if i < k {
        Ordered(bs, lo, hi, i, k);
      } else if k < i {
        Ordered(bs, lo, hi, k, i);
      }
    }
  }

  // ----- storing one field -----

  lemma Le32Frame(m: seq<byte>, m': seq<byte>, a: nat)
    requires |m| == |m'| && a + 4 <= |m|
    requires forall i :: a <= i < a + 4 ==> m[i] == m'[i]
    ensures Le32(m, a) == Le32(m', a)
  {
  }

  lemma Le32Stored(m: seq<byte>, a: nat, v: u32)
    requires a + 4 <= |m|
    ensures Le32(Splice(m, a, Enc32(v)), a) == v
  {
    var e := Enc32(v);
    var r := Splice(m, a, e);
    assert r[a] == e[0] && r[a + 1] == e[1] && r[a + 2] == e[2] && r[a + 3] == e[3];
  }

  lemma PutField(m: seq<byte>, a: nat, f: nat, v: u32)
    requires a + HEADER <= |m| && (f == 0 || f == 4 || f == 8)
    ensures var m' := Splice(m, a + f, Enc32(v)); var h := HeaderAt(m, a);
            && OnlyHeader(m, m', a)
            && HeaderAt(m', a) == if f == 0 then h.(prev := v) else if f == 4 then h.(next := v) else h.(size := v)
  {
    var m' := Splice(m, a + f, Enc32(v));
    Le32Stored(m, a + f, v);
    if f != 0 { Le32Frame(m, m', a); }
    if f != 4 { Le32Frame(m, m', a + 4); }
    if f != 8 { Le32Frame(m, m', a + 8); }
  }

  lemma PutLive(m: seq<byte>, a: nat, live: bool)
    requires a + HEADER <= |m|
    ensures var m' := m[a + 12 := if live then 1 else 0];
            OnlyHeader(m, m', a) && HeaderAt(m', a) == HeaderAt(m, a).(live := live)
  {
    var m' := m[a + 12 := if live then 1 else 0];
    Le32Frame(m, m', a);
    Le32Frame(m, m', a + 4);
    Le32Frame(m, m', a + 8);
  }

  lemma HeaderElsewhere(m: seq<byte>, m': seq<byte>, a: nat, b: nat)
    requires OnlyHeader(m, m', a) && (a + HEADER <= b || b + HEADER <= a)
    ensures HeaderAt(m, b) == HeaderAt(m', b)
  {
    if b + HEADER <= |m| {
      Le32Frame(m, m', b);
      Le32Frame(m, m', b + 4);
      Le32Frame(m, m', b + 8);
    }
  }

  /** Writing the header of block k changes that header's reading and no other. */
  lemma ViewUpdate(m: seq<byte>, m': seq<byte>, bs: seq<Block>, hs: seq<Header>, lo: nat, hi: nat, k: nat, h: Header)
    requires Tiles(bs, lo, hi) && k < |bs| && OnlyHeader(m, m', bs[k].addr)
    requires |hs| == |bs| && forall i :: 0 <= i < |bs| && i != k ==> ReadsAs(m, bs, hs, i)
    requires HeaderAt(m', bs[k].addr) == h
    ensures View(m', bs, hs[k := h])
  {
    var hs' := hs[k := h];
    forall i | 0 <= i < |bs| ensures ReadsAs(m', bs, hs', i) {
      if i != k {
        assert ReadsAs(m, bs, hs, i);
        if i < k {
          Ordered(bs, lo, hi, i, k);
        } else {
          Ordered(bs, lo, hi, k, i);
        }
        HeaderElsewhere(m, m', bs[k].addr, bs[i].addr);
      }
    }
  }

  // ----- init -----

  lemma InitialHolds(lo: nat, hi: nat)
    requires lo + HEADER <= hi && lo % 4 == 0
    ensures WellFormed(Initial(lo, hi), lo, hi)
    ensures Chained([Header(0, 0, hi - lo - HEADER, false)], Initial(lo, hi))
    ensures Linked([Header(0, 0, hi - lo - HEADER, false)], Initial(lo, hi))
  {
    assert AlignedAt(Initial(lo, hi), 0);
  }

  // ----- relabelling a block -----

  lemma RetagHolds(hs: seq<Header>, bs: seq<Block>, k: nat, live: bool)
    requires k < |bs| && Chained(hs, bs)
    ensures Chained(hs[k := hs[k].(live := live)], bs[k := bs[k].(live := live)])
    ensures forall x :: LinkedExcept(hs, bs, x) ==>
                          LinkedExcept(hs[k := hs[k].(live := live)], bs[k := bs[k].(live := live)], x)
    ensures Linked(hs[k := hs[k].(live := live)], bs[k := bs[k].(live := live)]) ==> Linked(hs, bs)
  {
    var hs', bs' := hs[k := hs[k].(live := live)], bs[k := bs[k].(live := live)];
    forall i | 0 <= i < |bs|
      ensures Describes(hs'[i], bs', i) && (PointsBack(hs'[i], bs', i) <==> PointsBack(hs[i], bs, i))
    {
      assert Describes(hs[i], bs, i);
    }
  }

  lemma RetagMends(hs: seq<Header>, bs: seq<Block>, k: nat, live: bool)
    requires k < |bs| && Chained(hs, bs) && Mends(hs, bs, k)
    ensures Mends(hs[k := hs[k].(live := live)], bs[k := bs[k].(live := live)], k)
  {
    RetagHolds(hs, bs, k, live);
  }

  // ----- merging -----

  /** The headers of the list after Merge(bs, k), given those before: the header two blocks on points
      back to k, the header at k takes over next and size, and the one between is gone. */
  function MergedHeaders(hs: seq<Header>, bs: seq<Block>, k: nat): seq<Header>
    requires |hs| == |bs| && k + 1 < |bs|
  {
    var back := if k + 2 < |bs| then hs[k + 2 := hs[k + 2].(prev := bs[k].addr)] else hs;
    var joined := back[k := back[k].(next := NextAddr(bs, k + 1), size := bs[k].size + HEADER + bs[k + 1].size)];
    joined[..k + 1] + joined[k + 2..]
  }

  lemma MergeHolds(hs: seq<Header>, bs: seq<Block>, k: nat)
    requires k + 1 < |bs| && !bs[k + 1].live && Chained(hs, bs)
    ensures Chained(MergedHeaders(hs, bs, k), Merge(bs, k))
    ensures LinkedExcept(hs, bs, k + 1) ==> Linked(MergedHeaders(hs, bs, k), Merge(bs, k))
  {
    var r, rs := Merge(bs, k), MergedHeaders(hs, bs, k);
    forall i | 0 <= i < |r|
      ensures Describes(rs[i], r, i)
      ensures LinkedExcept(hs, bs, k + 1) ==> PointsBack(rs[i], r, i)
    {
      var j := if i <= k then i else i + 1;
      assert Describes(hs[j], bs, j);
      assert LinkedExcept(hs, bs, k + 1) ==> PointsBack(hs[j], bs, j);
    }
  }

  /** The merge overwrites the one prev field that may be wrong. */
  lemma MergeMends(hs: seq<Header>, bs: seq<Block>, k: nat)
    requires k + 1 < |bs| && !bs[k + 1].live && Chained(hs, bs) && LinkedExcept(hs, bs, k + 2)
    ensures Linked(MergedHeaders(hs, bs, k), Merge(bs, k))
  {
    var r, rs := Merge(bs, k), MergedHeaders(hs, bs, k);
    forall i | 0 <= i < |r| ensures PointsBack(rs[i], r, i) {
      var j := if i <= k then i else i + 1;
      assert j != k + 2 ==> PointsBack(hs[j], bs, j);
    }
  }

  /** The headers of the shorter list are those of the longer one without the absorbed block. */
  lemma ViewMerged(m: seq<byte>, bs: seq<Block>, hs: seq<Header>, k: nat)
    requires k + 1 < |bs| && !bs[k + 1].live && View(m, bs, hs)
    ensures View(m, Merge(bs, k), hs[..k + 1] + hs[k + 2..])
  {
    var r := Merge(bs, k);
    var rs := hs[..k + 1] + hs[k + 2..];
    forall i | 0 <= i < |r| ensures ReadsAs(m, r, rs, i) {
      assert ReadsAs(m, bs, hs, if i <= k then i else i + 1);
    }
  }

  lemma MergeLive(bs: seq<Block>, k: nat)
    requires k < |bs| && !bs[k].live
    ensures LiveBlocks(Merge(bs, k)) == LiveBlocks(bs)
  {
    var r := Merge(bs, k);
    if r != bs {
      assert bs == bs[..k] + bs[k..k + 2] + bs[k + 2..];
      LiveAround(bs[..k], bs[k..k + 2], bs[k + 2..]);
      LiveAround(bs[..k], [r[k]], bs[k + 2..]);
      assert LiveBlocks(bs[k..k + 2]) == {} && LiveBlocks([r[k]]) == {};
    }
  }

  // ----- writing a payload -----

  /** A client that stays inside its block disturbs no header and no other block's payload. */
  lemma PayloadWrite(m: seq<byte>, m': seq<byte>, bs: seq<Block>, hs: seq<Header>, lo: nat, hi: nat, k: nat)
    requires Tiles(bs, lo, hi) && k < |bs| && |m| == |m'| && View(m, bs, hs)
    requires forall x :: 0 <= x < |m| && !(bs[k].Payload() <= x < bs[k].End()) ==> m[x] == m'[x]
    ensures View(m', bs, hs)
    ensures Keeps(m, m', LiveBlocks(bs) - {bs[k]}, lo, hi)
  {
    Within(bs, lo, hi, k);
    forall i | 0 <= i < |bs| ensures ReadsAs(m', bs, hs, i) {
      assert ReadsAs(m, bs, hs, i);
      if i < k {
        Ordered(bs, lo, hi, i, k);
      } else if k < i {
        Ordered(bs, lo, hi, k, i);
      }
      HeaderUntouched(m, m', bs[i].addr);
    }
    PayloadKeeps(m, m', bs, lo, hi, k);
  }

  /** A write outside the region touches no header. */
  lemma OutsideWrite(m: seq<byte>, m': seq<byte>, bs: seq<Block>, hs: seq<Header>, lo: nat, hi: nat)
    requires Tiles(bs, lo, hi) && |m| == |m'| && View(m, bs, hs)
    requires forall x :: 0 <= x < |m| && lo <= x < hi ==> m[x] == m'[x]
    ensures View(m', bs, hs)
  {
    forall i | 0 <= i < |bs| ensures ReadsAs(m', bs, hs, i) {
      assert ReadsAs(m, bs, hs, i);
      Within(bs, lo, hi, i);
      HeaderUntouched(m, m', bs[i].addr);
    }
  }

  lemma PayloadKeeps(m: seq<byte>, m': seq<byte>, bs: seq<Block>, lo: nat, hi: nat, k: nat)
    requires Tiles(bs, lo, hi) && k < |bs| && |m| == |m'|
    requires forall x :: 0 <= x < |m| && !(bs[k].Payload() <= x < bs[k].End()) ==> m[x] == m'[x]
    ensures Keeps(m, m', LiveBlocks(bs) - {bs[k]}, lo, hi)
  {
    Within(bs, lo, hi, k);
    forall b, x | b in LiveBlocks(bs) - {bs[k]} && b.Payload() <= x < b.End() && x < |m| ensures m[x] == m'[x] {
      var i :| 0 <= i < |bs| && bs[i] == b;
      if i < k {
        Ordered(bs, lo, hi, i, k);
      } else if k < i {
        Ordered(bs, lo, hi, k, i);
      }
    }
  }

  lemma HeaderUntouched(m: seq<byte>, m': seq<byte>, a: nat)
    requires |m| == |m'| && forall x :: a <= x < a + HEADER && x < |m| ==> m[x] == m'[x]
    ensures HeaderAt(m, a) == HeaderAt(m', a)
  {
    if a + HEADER <= |m| {
      Le32Frame(m, m', a);
      Le32Frame(m, m', a + 4);
      Le32Frame(m, m', a + 8);
    }
  }

  // ----- cutting -----

  /** The headers of Cut(bs, k, n), given those of bs. With `relinks` the block behind the leftover is
      made to point back to it; the source leaves that header alone. */
  function CutHeaders(hs: seq<Header>, bs: seq<Block>, k: nat, n: nat, relinks: bool): seq<Header>
    requires |hs| == |bs| && k < |bs| && n + HEADER <= bs[k].size
  {
    var rest := bs[k].addr + HEADER + n;
    var after := if relinks && k + 1 < |bs| then hs[k + 1 := hs[k + 1].(prev := rest)] else hs;
    after[..k] + [hs[k].(next := rest, size := n),
                  Header(bs[k].addr, hs[k].next, bs[k].size - n - HEADER, false)] + after[k + 1..]
  }

  lemma CutHolds(hs: seq<Header>, bs: seq<Block>, k: nat, n: nat, relinks: bool)
    requires k < |bs| && n + HEADER <= bs[k].size && !bs[k].live && Chained(hs, bs)
    ensures Chained(CutHeaders(hs, bs, k, n, relinks), Cut(bs, k, n))
    ensures Linked(hs, bs) ==> LinkedExcept(CutHeaders(hs, bs, k, n, relinks), Cut(bs, k, n), k + 2)
    ensures Linked(hs, bs) ==>
              (Linked(CutHeaders(hs, bs, k, n, relinks), Cut(bs, k, n)) <==> relinks || k + 1 == |bs|)
  {
    var r, rs := Cut(bs, k, n), CutHeaders(hs, bs, k, n, relinks);
    forall i | 0 <= i < |r|
      ensures Describes(rs[i], r, i)
      ensures Linked(hs, bs) ==> (PointsBack(rs[i], r, i) <==> i != k + 2 || relinks)
    {
      if i != k + 1 {
        var j := if i <= k then i else i - 1;
        assert Describes(hs[j], bs, j);
        assert Linked(hs, bs) ==> PointsBack(hs[j], bs, j);
      } else {
        assert Describes(hs[k], bs, k);
      }
    }
    if Linked(hs, bs) && k + 1 < |bs| && !relinks {
      assert !PointsBack(rs[k + 2], r, k + 2);
    }
  }

  /** Before anything is written, the longer list reads like the shorter one everywhere but at the new
      block, whose header holds whatever bytes lie there. */
  lemma ViewCut(m: seq<byte>, bs: seq<Block>, hs: seq<Header>, k: nat, n: nat, h: Header)
    requires k < |bs| && n + HEADER <= bs[k].size && View(m, bs, hs)
    ensures var r := Cut(bs, k, n); var rs := hs[..k + 1] + [h] + hs[k + 1..];
            |rs| == |r| && forall i :: 0 <= i < |r| && i != k + 1 ==> ReadsAs(m, r, rs, i)
  {
    var r := Cut(bs, k, n);
    var rs := hs[..k + 1] + [h] + hs[k + 1..];
    forall i | 0 <= i < |r| && i != k + 1 ensures ReadsAs(m, r, rs, i) {
      assert ReadsAs(m, bs, hs, if i <= k then i else i - 1);
    }
  }

  /** Cutting a free block leaves the live blocks alone. */
  lemma CutLive(bs: seq<Block>, k: nat, n: nat)
    requires k < |bs| && n + HEADER <= bs[k].size && !bs[k].live
    ensures LiveBlocks(bs) <= LiveBlocks(Cut(bs, k, n))
  {
    forall b | b in LiveBlocks(bs) ensures b in Cut(bs, k, n) {
      var i :| 0 <= i < |bs| && bs[i] == b;
      assert i != k;
      assert Cut(bs, k, n)[if i < k then i else i + 1] == b;
    }
  }

  // ----- whole operations -----

  /** The headers splitMemorySpace leaves. */
  function SplitHeaders(hs: seq<Header>, bs: seq<Block>, k: nat, n: nat, relinks: bool): seq<Header>
    requires |hs| == |bs| && k < |bs|
  {
    if bs[k].size > n + HEADER + 4 then
      var cut := CutHeaders(hs, bs, k, n, relinks);
      if k + 1 < |bs| && !bs[k + 1].live then MergedHeaders(cut, Cut(bs, k, n), k + 1) else cut
    else
      hs
  }

  lemma SplitHolds(hs: seq<Header>, bs: seq<Block>, k: nat, n: nat, relinks: bool)
    requires k < |bs| && !bs[k].live && Chained(hs, bs)
    ensures Chained(SplitHeaders(hs, bs, k, n, relinks), Split(bs, k, n))
    ensures Linked(hs, bs) ==>
              (Linked(SplitHeaders(hs, bs, k, n, relinks), Split(bs, k, n))
               <==> relinks || bs[k].size <= n + HEADER + 4 || k + 1 == |bs| || !bs[k + 1].live)
  {
    if bs[k].size > n + HEADER + 4 {
      CutHolds(hs, bs, k, n, relinks);
      CutMergeHolds(CutHeaders(hs, bs, k, n, relinks), Cut(bs, k, n), bs, k);
    }
  }

  /** Whatever link a split loses, merging the block with its leftover mends. */
  lemma SplitMends(hs: seq<Header>, bs: seq<Block>, k: nat, n: nat, relinks: bool)
    requires k < |bs| && !bs[k].live && Chained(hs, bs) && Linked(hs, bs)
    ensures Mends(SplitHeaders(hs, bs, k, n, relinks), Split(bs, k, n), k)
  {
    if bs[k].size > n + HEADER + 4 {
      CutHolds(hs, bs, k, n, relinks);
      CutMergeHolds(CutHeaders(hs, bs, k, n, relinks), Cut(bs, k, n), bs, k);
    }
  }

  lemma CutMergeHolds(cut: seq<Header>, r: seq<Block>, bs: seq<Block>, k: nat)
    requires k < |bs| && |r| == |bs| + 1 && (k + 1 < |bs| ==> r[k + 2] == bs[k + 1])
    requires Chained(cut, r)
    ensures if k + 1 < |bs| && !bs[k + 1].live then
              && Chained(MergedHeaders(cut, r, k + 1), Merge(r, k + 1))
              && (LinkedExcept(cut, r, k + 2) ==> Linked(MergedHeaders(cut, r, k + 1), Merge(r, k + 1)))
            else
              Merge(r, k + 1) == r
  {
    if k + 1 < |bs| && !bs[k + 1].live {
      MergeHolds(cut, r, k + 1);
    }
  }

  lemma SplitHead0(hs: seq<Header>, bs: seq<Block>, k: nat, n: nat, relinks: bool)
    requires |hs| == |bs| && k < |bs|
    ensures |SplitHeaders(hs, bs, k, n, relinks)| > 0
    ensures SplitHeaders(hs, bs, k, n, relinks)[0].prev == hs[0].prev
  {
  }

  /** The headers mergeNextMemorySpace leaves. */
  function MergeHeaders(hs: seq<Header>, bs: seq<Block>, k: nat): (rs: seq<Header>)
    requires |hs| == |bs| && k < |bs|
    ensures |rs| == |Merge(bs, k)|
  {
    if k + 1 < |bs| && !bs[k + 1].live then MergedHeaders(hs, bs, k) else hs
  }

  /** The headers malloc leaves. */
  function MallocHeaders(hs: seq<Header>, bs: seq<Block>, n: u32, relinks: bool): (rs: seq<Header>)
    requires |hs| == |bs|
    ensures |rs| == |MallocBlocks(bs, n)|
  {
    var k := FirstFit(bs, Align4(n));
    if k == |bs| then hs else
      SplitHead(bs, k, Align4(n));
      SplitLength(hs, bs, k, Align4(n), relinks);
      var split := SplitHeaders(hs, bs, k, Align4(n), relinks);
      split[k := split[k].(live := true)]
  }

  lemma SplitLength(hs: seq<Header>, bs: seq<Block>, k: nat, n: nat, relinks: bool)
    requires |hs| == |bs| && k < |bs|
    ensures |SplitHeaders(hs, bs, k, n, relinks)| == |Split(bs, k, n)|
  {
    if bs[k].size > n + HEADER + 4 && k + 1 < |bs| {
      assert Cut(bs, k, n)[k + 2] == bs[k + 1];
    }
  }

  /** The list and the headers right after free has released block k and merged it with the one behind. */
  function Released(bs: seq<Block>, k: nat): seq<Block>
    requires k < |bs|
  {
    Merge(bs[k := bs[k].(live := false)], k)
  }

  function ReleasedHeaders(hs: seq<Header>, bs: seq<Block>, k: nat): (rs: seq<Header>)
    requires |hs| == |bs| && k < |bs|
    ensures |rs| == |Released(bs, k)|
  {
    MergeHeaders(hs[k := hs[k].(live := false)], bs[k := bs[k].(live := false)], k)
  }

  /** The headers free leaves. */
  function FreeHeaders(hs: seq<Header>, bs: seq<Block>, k: nat): (rs: seq<Header>)
    requires |hs| == |bs| && k < |bs|
    ensures |rs| == |FreeVia(bs, k, hs[k].prev)|
  {
    var r, j := Released(bs, k), IndexOf(Released(bs, k), hs[k].prev);
    if hs[k].prev != 0 && j < |r| && !r[j].live then MergeHeaders(ReleasedHeaders(hs, bs, k), r, j)
    else ReleasedHeaders(hs, bs, k)
  }
}

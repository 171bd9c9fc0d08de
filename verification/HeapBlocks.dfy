/** The allocator of libc/src/stdlib/heap.c seen as an address-ordered list of blocks.

    Each function here is what one C function does to that list; HeapMemory and Heap prove that the
    in-place code, working on headers stored inside the memory it hands out, does exactly this. */
module HeapBlocks {
  import opened Bytes

  /** sizeof(memory_space_t) on a 32-bit target: prev, next, size, and isAllocated padded to a word. */
  const HEADER: nat := 16

  datatype Block = Block(addr: nat, size: nat, live: bool) {
    function Payload(): nat { addr + HEADER }
    function End(): nat { addr + HEADER + size }
  }

  /** ALIGN_4BYTE on a 32-bit size_t: the addition wraps. */
  function Align4(n: u32): u32 {
    (n + 3) % TWO32 / 4 * 4
  }

  /** Rounding up never loses bytes exactly for requests up to 2^32 - 4; above that it wraps to 0. */
  lemma Align4Covers(n: u32)
    ensures n <= Align4(n) <==> n <= 0xFFFF_FFFC
    ensures n <= 0xFFFF_FFFC ==> Align4(n) % 4 == 0 && Align4(n) <= n + 3
    ensures n > 0xFFFF_FFFC ==> Align4(n) == 0
  {
  }

  // ----- the invariant -----

  /** Block i ends where the next one starts. */
  ghost predicate Abuts(bs: seq<Block>, i: nat)
    requires i + 1 < |bs|
  {
    bs[i].End() == bs[i + 1].addr
  }

  ghost predicate Tiles(bs: seq<Block>, lo: nat, hi: nat) {
    && lo + HEADER <= hi
    && |bs| > 0
    && bs[0].addr == lo
    && bs[|bs| - 1].End() == hi
    && forall i :: 0 <= i < |bs| - 1 ==> Abuts(bs, i)
  }

  ghost predicate AlignedAt(bs: seq<Block>, i: nat)
    requires i < |bs|
  {
    bs[i].addr % 4 == 0
  }

  ghost predicate Aligned(bs: seq<Block>) {
    forall i :: 0 <= i < |bs| ==> AlignedAt(bs, i)
  }

  ghost predicate BothFree(bs: seq<Block>, i: nat)
    requires i + 1 < |bs|
  {
    !bs[i].live && !bs[i + 1].live
  }

  /** No two neighbours are both free. */
  ghost predicate Coalesced(bs: seq<Block>) {
    forall i :: 0 <= i < |bs| - 1 ==> !BothFree(bs, i)
  }

  ghost predicate WellFormed(bs: seq<Block>, lo: nat, hi: nat) {
    Tiles(bs, lo, hi) && Aligned(bs) && Coalesced(bs)
  }

  function LiveBlocks(bs: seq<Block>): set<Block> {
    set b | b in bs && b.live
  }

  /** What init_malloc sets up: one free block over the whole region. */
  function Initial(lo: nat, hi: nat): seq<Block>
    requires lo + HEADER <= hi
  {
    [Block(lo, hi - lo - HEADER, false)]
  }

  // ----- the operations -----

  /** find_free_space: index of the first free block that is large enough, or |bs|. */
  function FirstFit(bs: seq<Block>, n: nat): (k: nat)
    ensures k <= |bs|
    ensures k < |bs| ==> !bs[k].live && n <= bs[k].size
    ensures forall i :: 0 <= i < k ==> bs[i].live || bs[i].size < n
  {
    if bs == [] || (!bs[0].live && n <= bs[0].size) then 0 else 1 + FirstFit(bs[1..], n)
  }

  /** mergeNextMemorySpace on the block at index k. */
  function Merge(bs: seq<Block>, k: nat): seq<Block>
    requires k < |bs|
  {
    if k + 1 < |bs| && !bs[k + 1].live then
      bs[..k] + [bs[k].(size := bs[k].size + HEADER + bs[k + 1].size)] + bs[k + 2..]
    else
      bs
  }

  /** The list right after the two headers of a split are in place, before the leftover is merged. */
  function Cut(bs: seq<Block>, k: nat, n: nat): seq<Block>
    requires k < |bs| && n + HEADER <= bs[k].size
  {
    bs[..k] + [bs[k].(size := n), Block(bs[k].addr + HEADER + n, bs[k].size - n - HEADER, false)] + bs[k + 1..]
  }

  /** splitMemorySpace on the block at index k. */
  function Split(bs: seq<Block>, k: nat, n: nat): seq<Block>
    requires k < |bs|
  {
    if bs[k].size > n + HEADER + 4 then Merge(Cut(bs, k, n), k + 1) else bs
  }

  function Claim(bs: seq<Block>, k: nat): seq<Block>
    requires k < |bs|
  {
    bs[k := bs[k].(live := true)]
  }

  lemma SplitHead(bs: seq<Block>, k: nat, n: nat)
    requires k < |bs|
    ensures k < |Split(bs, k, n)| && Split(bs, k, n)[k].addr == bs[k].addr
    ensures Split(bs, k, n)[k].size == if bs[k].size > n + HEADER + 4 then n else bs[k].size
    ensures forall i :: 0 <= i < k ==> Split(bs, k, n)[i] == bs[i]
  {
  }

  /** malloc: the list afterwards, for the request as the caller passed it. */
  function MallocBlocks(bs: seq<Block>, n: u32): seq<Block> {
    var k := FirstFit(bs, Align4(n));
    if k == |bs| then bs else
      SplitHead(bs, k, Align4(n));
      Claim(Split(bs, k, Align4(n)), k)
  }

  /** Index of the block whose header is at address a, or |bs|. */
  function IndexOf(bs: seq<Block>, a: nat): (k: nat)
    ensures k <= |bs|
    ensures k < |bs| ==> bs[k].addr == a
    ensures forall i :: 0 <= i < k ==> bs[i].addr != a
  {
    if bs == [] || bs[0].addr == a then 0 else 1 + IndexOf(bs[1..], a)
  }

  /** free of the block at index k whose header's prev field holds p: release it, merge it with the
      block after it, then merge into the block p names when that one is free. */
  function FreeVia(bs: seq<Block>, k: nat, p: nat): seq<Block>
    requires k < |bs|
  {
    var released := Merge(bs[k := bs[k].(live := false)], k);
    var j := IndexOf(released, p);
    if p != 0 && j < |released| && !released[j].live then Merge(released, j) else released
  }

  function PrevAddr(bs: seq<Block>, k: nat): nat
    requires k < |bs|
  {
    if k == 0 then 0 else bs[k - 1].addr
  }

  function NextAddr(bs: seq<Block>, k: nat): nat
    requires k < |bs|
  {
    if k == |bs| - 1 then 0 else bs[k + 1].addr
  }

  /** free with a correct back link. */
  function FreeBlocks(bs: seq<Block>, k: nat): seq<Block>
    requires k < |bs|
  {
    FreeVia(bs, k, PrevAddr(bs, k))
  }

  /** Index of the live block with payload pointer p, or |bs|. */
  function LiveIndex(bs: seq<Block>, p: nat): (k: nat)
    ensures k <= |bs|
    ensures k < |bs| ==> bs[k].live && bs[k].Payload() == p
  {
    if bs == [] || (bs[0].live && bs[0].Payload() == p) then 0 else 1 + LiveIndex(bs[1..], p)
  }

  lemma {:induction false} LiveIndexPresent(bs: seq<Block>, b: Block)
    requires b in LiveBlocks(bs)
    ensures LiveIndex(bs, b.Payload()) < |bs|
  {
    if !(bs[0].live && bs[0].Payload() == b.Payload()) {
      assert bs == [bs[0]] + bs[1..];
      assert b in LiveBlocks(bs[1..]);
      LiveIndexPresent(bs[1..], b);
    }
  }

  /** realloc of the block at index k: malloc, then (after the copy) free of the old block. */
  function ReallocBlocks(bs: seq<Block>, k: nat, n: u32): seq<Block>
    requires k < |bs|
  {
    var grown := MallocBlocks(bs, n);
    var j := LiveIndex(grown, bs[k].Payload());
    if FirstFit(bs, Align4(n)) == |bs| || j == |grown| then bs else FreeBlocks(grown, j)
  }

  // ----- tiling facts -----

  /** Blocks lie in address order without overlap. */
  lemma {:induction false} Ordered(bs: seq<Block>, lo: nat, hi: nat, i: nat, j: nat)
    requires Tiles(bs, lo, hi) && i < j < |bs|
    ensures bs[i].End() <= bs[j].addr
    decreases j - i
  {
    if i + 1 < j {
      Ordered(bs, lo, hi, i, j - 1);
      assert Abuts(bs, j - 1);
    } else {
      assert Abuts(bs, i);
    }
  }

  lemma IndexOfBlock(bs: seq<Block>, lo: nat, hi: nat, k: nat)
    requires Tiles(bs, lo, hi) && k < |bs|
    ensures IndexOf(bs, bs[k].addr) == k
  {
    var j := IndexOf(bs, bs[k].addr);
    if j < k {
      Ordered(bs, lo, hi, j, k);
    }
  }

  lemma Within(bs: seq<Block>, lo: nat, hi: nat, k: nat)
    requires Tiles(bs, lo, hi) && k < |bs|
    ensures lo <= bs[k].addr && bs[k].End() <= hi
  {
    if 0 < k {
      Ordered(bs, lo, hi, 0, k);
    }
    if k < |bs| - 1 {
      Ordered(bs, lo, hi, k, |bs| - 1);
    }
  }

  function Footprint(bs: seq<Block>): nat {
    if bs == [] then 0 else HEADER + bs[0].size + Footprint(bs[1..])
  }

  /** Conservation: headers and payloads together always account for the whole region. */
  lemma {:induction false} FootprintConserved(bs: seq<Block>, lo: nat, hi: nat)
    requires Tiles(bs, lo, hi)
    ensures Footprint(bs) == hi - lo
  {
    if |bs| > 1 {
      assert Abuts(bs, 0);
      Within(bs, lo, hi, 1);
      assert Tiles(bs[1..], bs[1].addr, hi) by {
        forall i | 0 <= i < |bs[1..]| - 1 ensures Abuts(bs[1..], i) {
          assert Abuts(bs, i + 1);
        }
      }
      FootprintConserved(bs[1..], bs[1].addr, hi);
    } else {
      assert Footprint(bs[1..]) == 0;
    }
  }

  // ----- every operation keeps the tiling -----

  lemma MergeAligned(bs: seq<Block>, k: nat)
    requires Aligned(bs) && k < |bs|
    ensures Aligned(Merge(bs, k))
  {
    var r := Merge(bs, k);
    forall i | 0 <= i < |r| ensures AlignedAt(r, i) {
      assert AlignedAt(bs, i);
      if r != bs && i > k {
        assert AlignedAt(bs, i + 1);
      }
    }
  }

  lemma CutAligned(bs: seq<Block>, k: nat, n: nat)
    requires Aligned(bs) && k < |bs| && n + HEADER <= bs[k].size && n % 4 == 0
    ensures Aligned(Cut(bs, k, n))
  {
    var r := Cut(bs, k, n);
    assert AlignedAt(bs, k);
    forall i | 0 <= i < |r| ensures AlignedAt(r, i) {
      assert i < k ==> AlignedAt(bs, i);
      assert i > k + 1 ==> AlignedAt(bs, i - 1);
    }
  }

  lemma RetagAligned(bs: seq<Block>, k: nat, live: bool)
    requires Aligned(bs) && k < |bs|
    ensures Aligned(bs[k := bs[k].(live := live)])
  {
    var r := bs[k := bs[k].(live := live)];
    forall i | 0 <= i < |r| ensures AlignedAt(r, i) {
      assert AlignedAt(bs, i);
    }
  }

  lemma MergeTiles(bs: seq<Block>, lo: nat, hi: nat, k: nat)
    requires Tiles(bs, lo, hi) && k < |bs|
    ensures Tiles(Merge(bs, k), lo, hi)
  {
    var r := Merge(bs, k);
    if r != bs {
      assert Abuts(bs, k);
      forall i | 0 <= i < |r| - 1 ensures Abuts(r, i) {
        if i < k {
          assert Abuts(bs, i);
        } else {
          assert Abuts(bs, i + 1);
        }
      }
    }
  }

  lemma CutTiles(bs: seq<Block>, lo: nat, hi: nat, k: nat, n: nat)
    requires Tiles(bs, lo, hi) && k < |bs| && n + HEADER <= bs[k].size
    ensures Tiles(Cut(bs, k, n), lo, hi)
  {
    var r := Cut(bs, k, n);
    forall i | 0 <= i < |r| - 1 ensures Abuts(r, i) {
      if i < k {
        assert Abuts(bs, i);
      } else if i > k {
        assert i == k + 1 ==> bs[k].End() == r[i].End();
        if i - 1 < |bs| - 1 { assert Abuts(bs, i - 1); }
      }
    }
  }

  lemma SplitTiles(bs: seq<Block>, lo: nat, hi: nat, k: nat, n: nat)
    requires Tiles(bs, lo, hi) && k < |bs|
    ensures Tiles(Split(bs, k, n), lo, hi)
    ensures Aligned(bs) && n % 4 == 0 ==> Aligned(Split(bs, k, n))
  {
    if bs[k].size > n + HEADER + 4 {
      CutTiles(bs, lo, hi, k, n);
      if Aligned(bs) && n % 4 == 0 {
        CutAligned(bs, k, n);
        MergeAligned(Cut(bs, k, n), k + 1);
      }
      MergeTiles(Cut(bs, k, n), lo, hi, k + 1);
    }
  }

  lemma RetagTiles(bs: seq<Block>, lo: nat, hi: nat, k: nat, live: bool)
    requires Tiles(bs, lo, hi) && k < |bs|
    ensures Tiles(bs[k := bs[k].(live := live)], lo, hi)
  {
    var r := bs[k := bs[k].(live := live)];
    forall i | 0 <= i < |r| - 1 ensures Abuts(r, i) {
      assert Abuts(bs, i);
    }
  }

  lemma MallocTiles(bs: seq<Block>, lo: nat, hi: nat, n: u32)
    requires Tiles(bs, lo, hi)
    ensures Tiles(MallocBlocks(bs, n), lo, hi)
    ensures Aligned(bs) ==> Aligned(MallocBlocks(bs, n))
  {
    var k := FirstFit(bs, Align4(n));
    if k < |bs| {
      SplitTiles(bs, lo, hi, k, Align4(n));
      SplitHead(bs, k, Align4(n));
      RetagTiles(Split(bs, k, Align4(n)), lo, hi, k, true);
      if Aligned(bs) {
        RetagAligned(Split(bs, k, Align4(n)), k, true);
      }
    }
  }

  lemma FreeTiles(bs: seq<Block>, lo: nat, hi: nat, k: nat, p: nat)
    requires Tiles(bs, lo, hi) && k < |bs|
    ensures Tiles(FreeVia(bs, k, p), lo, hi)
    ensures Aligned(bs) ==> Aligned(FreeVia(bs, k, p))
  {
    var tagged := bs[k := bs[k].(live := false)];
    RetagTiles(bs, lo, hi, k, false);
    MergeTiles(tagged, lo, hi, k);
    var released := Merge(tagged, k);
    var j := IndexOf(released, p);
    if j < |released| {
      MergeTiles(released, lo, hi, j);
    }
    if Aligned(bs) {
      RetagAligned(bs, k, false);
      MergeAligned(tagged, k);
      if j < |released| {
        MergeAligned(released, j);
      }
    }
  }

  // ----- live blocks -----

  lemma LiveConcat(a: seq<Block>, b: seq<Block>)
    ensures LiveBlocks(a + b) == LiveBlocks(a) + LiveBlocks(b)
  {
    forall x ensures x in LiveBlocks(a + b) <==> x in LiveBlocks(a) + LiveBlocks(b) {
      assert x in a + b <==> x in a || x in b;
    }
  }

  lemma LiveAround(a: seq<Block>, x: seq<Block>, b: seq<Block>)
    ensures LiveBlocks(a + x + b) == LiveBlocks(a) + LiveBlocks(x) + LiveBlocks(b)
  {
    LiveConcat(a, x);
    LiveConcat(a + x, b);
  }

  /** Blocks of one tiling have different addresses. */
  lemma Distinct(bs: seq<Block>, lo: nat, hi: nat, k: nat, b: Block)
    requires Tiles(bs, lo, hi) && k < |bs| && (b in bs[..k] || b in bs[k + 1..])
    ensures b.addr != bs[k].addr
  {
    if b in bs[..k] {
      var i :| 0 <= i < k && bs[i] == b;
      Ordered(bs, lo, hi, i, k);
    } else {
      var i :| 0 <= i < |bs| - k - 1 && bs[k + 1..][i] == b;
      Ordered(bs, lo, hi, k, k + 1 + i);
    }
  }

  // ----- malloc -----

  /** The list malloc leaves on a coalesced heap, written out: the leftover of a split has a live block
      (or nothing) after it, so it is never merged. */
  function Grant(b: Block, m: nat): seq<Block> {
    if b.size > m + HEADER + 4 then
      [Block(b.addr, m, true), Block(b.addr + HEADER + m, b.size - m - HEADER, false)]
    else
      [Block(b.addr, b.size, true)]
  }

  /** Claiming the block that Split made room in, before any merge. */
  lemma ClaimShape(bs: seq<Block>, k: nat, m: nat)
    requires k < |bs| && !bs[k].live && m <= bs[k].size
    requires k + 1 < |bs| ==> bs[k + 1].live
    ensures k < |Split(bs, k, m)|
    ensures Claim(Split(bs, k, m), k) == bs[..k] + Grant(bs[k], m) + bs[k + 1..]
  {
    SplitHead(bs, k, m);
    if bs[k].size > m + HEADER + 4 {
      if k + 1 < |bs| {
        assert Cut(bs, k, m)[k + 2] == bs[k + 1];
      }
      assert Split(bs, k, m) == Cut(bs, k, m);
    }
  }

  lemma MallocShape(bs: seq<Block>, n: u32)
    requires Coalesced(bs) && FirstFit(bs, Align4(n)) < |bs|
    ensures var k := FirstFit(bs, Align4(n));
            MallocBlocks(bs, n) == bs[..k] + Grant(bs[k], Align4(n)) + bs[k + 1..]
    ensures FirstFit(bs, Align4(n)) < |MallocBlocks(bs, n)|
    ensures var k := FirstFit(bs, Align4(n)); MallocBlocks(bs, n)[k] == Grant(bs[k], Align4(n))[0]
  {
    var k := FirstFit(bs, Align4(n));
    if k + 1 < |bs| {
      assert !BothFree(bs, k);
    }
    ClaimShape(bs, k, Align4(n));
  }

  lemma CoalescedConcat(a: seq<Block>, b: seq<Block>)
    ensures Coalesced(a + b) <==>
            Coalesced(a) && Coalesced(b) && (a != [] && b != [] ==> a[|a| - 1].live || b[0].live)
  {
    var s := a + b;
    if Coalesced(s) {
      forall i | 0 <= i < |a| - 1 ensures !BothFree(a, i) {
        assert !BothFree(s, i);
      }
      forall i | 0 <= i < |b| - 1 ensures !BothFree(b, i) {
        assert !BothFree(s, |a| + i);
      }
      if a != [] && b != [] {
        assert !BothFree(s, |a| - 1);
      }
    } else {
      var i :| 0 <= i < |s| - 1 && BothFree(s, i);
      if i + 1 < |a| {
        assert BothFree(a, i);
      } else if i >= |a| {
        assert BothFree(b, i - |a|);
      }
    }
  }

  /** malloc keeps the invariant and adds exactly one live block: every other live block stays where it
      was with the size it had. */
  lemma MallocKeeps(bs: seq<Block>, lo: nat, hi: nat, n: u32)
    requires WellFormed(bs, lo, hi)
    ensures WellFormed(MallocBlocks(bs, n), lo, hi)
    ensures var k := FirstFit(bs, Align4(n)); var r := MallocBlocks(bs, n);
            k < |bs| ==> k < |r| && r[k].live && r[k].addr == bs[k].addr
                         && r[k] !in LiveBlocks(bs) && LiveBlocks(r) == LiveBlocks(bs) + {r[k]}
  {
    MallocTiles(bs, lo, hi, n);
    var k := FirstFit(bs, Align4(n));
    if k < |bs| {
      MallocShape(bs, n);
      GrantKeeps(bs, lo, hi, k, Align4(n));
    }
  }

  lemma GrantKeeps(bs: seq<Block>, lo: nat, hi: nat, k: nat, m: nat)
    requires WellFormed(bs, lo, hi) && k < |bs| && !bs[k].live
    ensures Coalesced(bs[..k] + Grant(bs[k], m) + bs[k + 1..])
    ensures Grant(bs[k], m)[0] !in LiveBlocks(bs)
    ensures LiveBlocks(bs[..k] + Grant(bs[k], m) + bs[k + 1..]) == LiveBlocks(bs) + {Grant(bs[k], m)[0]}
  {
    assert bs == bs[..k] + [bs[k]] + bs[k + 1..];
    MallocCoalesces(bs[..k], bs[k], bs[k + 1..], m);
    GrantLive(bs[..k], bs[k], bs[k + 1..], m);
    var g := Grant(bs[k], m)[0];
    if g in bs {
      assert g in bs[..k] || g in bs[k + 1..];
      Distinct(bs, lo, hi, k, g);
    }
  }

  lemma GrantLive(before: seq<Block>, b: Block, after: seq<Block>, m: nat)
    requires !b.live
    ensures var r := before + Grant(b, m) + after;
            && r[|before|] == Grant(b, m)[0]
            && LiveBlocks(r) == LiveBlocks(before + [b] + after) + {Grant(b, m)[0]}
  {
    LiveAround(before, [b], after);
    LiveAround(before, Grant(b, m), after);
    assert LiveBlocks([b]) == {};
    assert LiveBlocks(Grant(b, m)) == {Grant(b, m)[0]};
  }

  lemma MallocCoalesces(before: seq<Block>, b: Block, after: seq<Block>, m: nat)
    requires Coalesced(before + [b] + after) && !b.live
    ensures Coalesced(before + Grant(b, m) + after)
  {
    CoalescedConcat(before + [b], after);
    CoalescedConcat(before, [b]);
    CoalescedConcat(before, Grant(b, m));
    CoalescedConcat(before + Grant(b, m), after);
  }

  /** malloc fails exactly when no free block fits the rounded request, and then changes nothing. */
  lemma MallocRefuses(bs: seq<Block>, n: u32)
    ensures FirstFit(bs, Align4(n)) == |bs| <==> forall b :: b in bs && !b.live ==> b.size < Align4(n)
    ensures FirstFit(bs, Align4(n)) == |bs| ==> MallocBlocks(bs, n) == bs
  {
    var k := FirstFit(bs, Align4(n));
    if k < |bs| {
      assert bs[k] in bs;
    }
  }

  /** What a caller gets otherwise: the lowest fitting free block, 4-aligned, at least as large as the
      request and at most 23 bytes larger. */
  lemma MallocGrants(bs: seq<Block>, lo: nat, hi: nat, n: u32)
    requires WellFormed(bs, lo, hi) && n <= 0xFFFF_FFFC && FirstFit(bs, Align4(n)) < |bs|
    ensures FirstFit(bs, Align4(n)) < |MallocBlocks(bs, n)|
    ensures var b := MallocBlocks(bs, n)[FirstFit(bs, Align4(n))];
            && b.live && b.Payload() % 4 == 0 && n <= b.size <= n + 23
            && forall c :: c in bs && !c.live && Align4(n) <= c.size ==> b.addr <= c.addr
  {
    MallocShape(bs, n);
    GrantFits(bs, lo, hi, n, FirstFit(bs, Align4(n)));
  }

  lemma GrantFits(bs: seq<Block>, lo: nat, hi: nat, n: u32, k: nat)
    requires WellFormed(bs, lo, hi) && n <= 0xFFFF_FFFC && k < |bs| && k == FirstFit(bs, Align4(n))
    ensures var b := Grant(bs[k], Align4(n))[0];
            && b.live && b.Payload() % 4 == 0 && n <= b.size <= n + 23
            && forall c :: c in bs && !c.live && Align4(n) <= c.size ==> b.addr <= c.addr
  {
    GrantSize(bs[k], n);
    PayloadAligned(bs, k);
    FirstFitLowest(bs, lo, hi, Align4(n));
  }

  lemma PayloadAligned(bs: seq<Block>, k: nat)
    requires Aligned(bs) && k < |bs|
    ensures (bs[k].addr + HEADER) % 4 == 0
  {
    assert AlignedAt(bs, k);
  }

  lemma GrantSize(b: Block, n: u32)
    requires n <= 0xFFFF_FFFC && Align4(n) <= b.size
    ensures n <= Grant(b, Align4(n))[0].size <= n + 23
  {
  }

  lemma FirstFitLowest(bs: seq<Block>, lo: nat, hi: nat, m: nat)
    requires Tiles(bs, lo, hi)
    ensures var k := FirstFit(bs, m);
            forall b :: b in bs && !b.live && m <= b.size ==> k < |bs| && bs[k].addr <= b.addr
  {
    var k := FirstFit(bs, m);
    forall b | b in bs && !b.live && m <= b.size ensures k < |bs| && bs[k].addr <= b.addr {
      var i :| 0 <= i < |bs| && bs[i] == b;
      if i > k {
        Ordered(bs, lo, hi, k, i);
      }
    }
  }

  // ----- free -----

  /** First block of the run that free turns into one free block. */
  function RunStart(bs: seq<Block>, k: nat): nat
    requires k < |bs|
  {
    if k > 0 && !bs[k - 1].live then k - 1 else k
  }

  /** One past the last block of that run. */
  function RunEnd(bs: seq<Block>, k: nat): nat
    requires k < |bs|
  {
    if k + 1 < |bs| && !bs[k + 1].live then k + 2 else k + 1
  }

  /** The list with that run replaced by one free block. */
  function Collapsed(bs: seq<Block>, l: nat, h: nat): seq<Block>
    requires l < h <= |bs| && bs[l].addr + HEADER <= bs[h - 1].End()
  {
    bs[..l] + [Block(bs[l].addr, bs[h - 1].End() - bs[l].addr - HEADER, false)] + bs[h..]
  }

  lemma ReleasedShape(bs: seq<Block>, lo: nat, hi: nat, k: nat)
    requires Tiles(bs, lo, hi) && k < |bs|
    ensures bs[k].addr + HEADER <= bs[RunEnd(bs, k) - 1].End()
    ensures Merge(bs[k := bs[k].(live := false)], k) == Collapsed(bs, k, RunEnd(bs, k))
    ensures Tiles(Merge(bs[k := bs[k].(live := false)], k), lo, hi)
  {
    RetagTiles(bs, lo, hi, k, false);
    MergeTiles(bs[k := bs[k].(live := false)], lo, hi, k);
    assert k + 1 < |bs| ==> Abuts(bs, k);
  }

  lemma BackAddr(bs: seq<Block>, lo: nat, hi: nat, k: nat)
    requires Tiles(bs, lo, hi) && lo > 0 && 0 < k < |bs|
    ensures bs[k - 1].addr != 0 && IndexOf(bs, bs[k - 1].addr) == k - 1
    ensures bs[k - 1].addr + HEADER <= bs[k].addr
  {
    IndexOfBlock(bs, lo, hi, k - 1);
    Within(bs, lo, hi, k - 1);
    assert Abuts(bs, k - 1);
  }

  /** Merging a free block into the block in front of it. */
  lemma JoinBack(bs: seq<Block>, k: nat)
    requires 0 < k < |bs| && !bs[k].live && Abuts(bs, k - 1) && !bs[k - 1].live
    ensures Merge(bs, k - 1) == Collapsed(bs, k - 1, k + 1)
  {
  }

  /** The list free leaves when the back link is right, written out: the block and whichever neighbours
      are free become one. */
  lemma FreeShape(bs: seq<Block>, lo: nat, hi: nat, k: nat)
    requires Tiles(bs, lo, hi) && lo > 0 && k < |bs|
    ensures bs[RunStart(bs, k)].addr + HEADER <= bs[RunEnd(bs, k) - 1].End()
    ensures FreeBlocks(bs, k) == Collapsed(bs, RunStart(bs, k), RunEnd(bs, k))
  {
    ReleasedShape(bs, lo, hi, k);
    var released := Merge(bs[k := bs[k].(live := false)], k);
    if k > 0 {
      BackAddr(released, lo, hi, k);
      if !bs[k - 1].live {
        assert Abuts(released, k - 1);
        JoinBack(released, k);
        CollapseTwice(bs, k, RunEnd(bs, k));
      }
    }
  }

  lemma CollapseTwice(bs: seq<Block>, k: nat, h: nat)
    requires 0 < k < h <= |bs| && bs[k].addr + HEADER <= bs[h - 1].End()
    requires bs[k - 1].addr + HEADER <= bs[h - 1].End()
    ensures Collapsed(Collapsed(bs, k, h), k - 1, k + 1) == Collapsed(bs, k - 1, h)
  {
  }

  /** free keeps the invariant and removes exactly the freed block from the live ones. */
  lemma FreeKeeps(bs: seq<Block>, lo: nat, hi: nat, k: nat)
    requires WellFormed(bs, lo, hi) && lo > 0 && k < |bs| && bs[k].live
    ensures WellFormed(FreeBlocks(bs, k), lo, hi)
    ensures LiveBlocks(FreeBlocks(bs, k)) == LiveBlocks(bs) - {bs[k]}
  {
    FreeTiles(bs, lo, hi, k, PrevAddr(bs, k));
    FreeShape(bs, lo, hi, k);
    CollapseKeeps(bs, lo, hi, k);
  }

  lemma CollapseKeeps(bs: seq<Block>, lo: nat, hi: nat, k: nat)
    requires WellFormed(bs, lo, hi) && k < |bs| && bs[k].live
    requires bs[RunStart(bs, k)].addr + HEADER <= bs[RunEnd(bs, k) - 1].End()
    ensures Coalesced(Collapsed(bs, RunStart(bs, k), RunEnd(bs, k)))
    ensures LiveBlocks(Collapsed(bs, RunStart(bs, k), RunEnd(bs, k))) == LiveBlocks(bs) - {bs[k]}
  {
    var l, h := RunStart(bs, k), RunEnd(bs, k);
    RunLive(bs, k);
    RunEnds(bs, k);
    assert bs == bs[..l] + bs[l..h] + bs[h..];
    FreedOutside(bs, lo, hi, k);
    RunCollapses(bs[..l], bs[l..h], bs[h..], bs[k], Collapsed(bs, l, h)[l]);
  }

  lemma FreedOutside(bs: seq<Block>, lo: nat, hi: nat, k: nat)
    requires Tiles(bs, lo, hi) && k < |bs|
    ensures bs[k] !in bs[..RunStart(bs, k)] && bs[k] !in bs[RunEnd(bs, k)..]
  {
    var l, h := RunStart(bs, k), RunEnd(bs, k);
    assert bs[..k] == bs[..l] + bs[l..k] && bs[k + 1..] == bs[k + 1..h] + bs[h..];
    if bs[k] in bs[..l] || bs[k] in bs[h..] {
      Distinct(bs, lo, hi, k, bs[k]);
    }
  }

  lemma RunCollapses(before: seq<Block>, mid: seq<Block>, after: seq<Block>, freed: Block, b: Block)
    requires Coalesced(before + mid + after) && LiveBlocks(mid) == {freed} && !b.live
    requires freed !in before && freed !in after
    requires before != [] ==> before[|before| - 1].live
    requires after != [] ==> after[0].live
    ensures Coalesced(before + [b] + after)
    ensures LiveBlocks(before + [b] + after) == LiveBlocks(before + mid + after) - {freed}
  {
    LiveAround(before, mid, after);
    LiveAround(before, [b], after);
    assert LiveBlocks([b]) == {};
    CoalescedConcat(before + mid, after);
    CoalescedConcat(before, mid);
    CoalescedConcat(before, [b]);
    CoalescedConcat(before + [b], after);
  }

  /** The freed block is the only live one in its run. */
  lemma RunLive(bs: seq<Block>, k: nat)
    requires k < |bs| && bs[k].live
    ensures LiveBlocks(bs[RunStart(bs, k)..RunEnd(bs, k)]) == {bs[k]}
  {
    var l, h := RunStart(bs, k), RunEnd(bs, k);
    assert bs[l..h] == bs[l..k] + [bs[k]] + bs[k + 1..h];
    LiveAround(bs[l..k], [bs[k]], bs[k + 1..h]);
    assert bs[l..k] == if l < k then [bs[k - 1]] else [];
    assert bs[k + 1..h] == if k + 1 < h then [bs[k + 1]] else [];
  }

  /** The run is as long as it can be: live blocks, or the ends of the heap, lie on both sides. */
  lemma RunEnds(bs: seq<Block>, k: nat)
    requires Coalesced(bs) && k < |bs|
    ensures RunStart(bs, k) > 0 ==> bs[RunStart(bs, k) - 1].live
    ensures RunEnd(bs, k) < |bs| ==> bs[RunEnd(bs, k)].live
  {
    if k > 1 {
      assert !BothFree(bs, k - 2);
    }
    if k + 2 < |bs| {
      assert !BothFree(bs, k + 1);
    }
  }

  /** A stale back link (one that does not name the block in front) is harmless exactly when there is no
      free block in front of the one being freed. */
  lemma StaleBackLink(bs: seq<Block>, lo: nat, hi: nat, k: nat, p: nat)
    requires WellFormed(bs, lo, hi) && lo > 0 && k < |bs| && bs[k].live
    requires p == 0 || exists j :: 0 <= j < k && bs[j].addr == p
    ensures Coalesced(FreeVia(bs, k, p)) <==> k == 0 || bs[k - 1].live || p == bs[k - 1].addr
  {
    FreeKeeps(bs, lo, hi, k);
    ReleasedShape(bs, lo, hi, k);
    var released := Merge(bs[k := bs[k].(live := false)], k);
    if p == PrevAddr(bs, k) {
    } else {
      if p != 0 {
        var j :| 0 <= j < k && bs[j].addr == p;
        assert released[j] == bs[j];
        IndexOfBlock(released, lo, hi, j);
        assert !BothFree(bs, j);
        assert released[j + 1] == bs[j + 1];
      }
      assert FreeVia(bs, k, p) == released;
      if bs[k - 1].live {
        FreeShape(bs, lo, hi, k);
        assert released == FreeBlocks(bs, k);
      } else {
        assert BothFree(released, k - 1);
      }
    }
  }

  // ----- laws over several operations -----

  /** free undoes malloc: the block list comes back exactly. */
  lemma FreeUndoesMalloc(bs: seq<Block>, lo: nat, hi: nat, n: u32)
    requires WellFormed(bs, lo, hi) && lo > 0
    requires FirstFit(bs, Align4(n)) < |bs|
    ensures FirstFit(bs, Align4(n)) < |MallocBlocks(bs, n)|
    ensures FreeBlocks(MallocBlocks(bs, n), FirstFit(bs, Align4(n))) == bs
  {
    var k := FirstFit(bs, Align4(n));
    MallocTiles(bs, lo, hi, n);
    MallocShape(bs, n);
    if k > 0 {
      assert !BothFree(bs, k - 1);
    }
    if k + 1 < |bs| {
      assert !BothFree(bs, k);
    }
    assert bs == bs[..k] + [bs[k]] + bs[k + 1..];
    UngrantShape(bs[..k], bs[k], bs[k + 1..], Align4(n), lo, hi);
  }

  lemma UngrantShape(before: seq<Block>, b: Block, after: seq<Block>, m: nat, lo: nat, hi: nat)
    requires Tiles(before + Grant(b, m) + after, lo, hi) && lo > 0 && !b.live
    requires before != [] ==> before[|before| - 1].live
    requires after != [] ==> after[0].live
    ensures FreeBlocks(before + Grant(b, m) + after, |before|) == before + [b] + after
  {
    var r, k := before + Grant(b, m) + after, |before|;
    FreeShape(r, lo, hi, k);
    GrantRun(before, b, after, m);
  }

  lemma GrantRun(before: seq<Block>, b: Block, after: seq<Block>, m: nat)
    requires before != [] ==> before[|before| - 1].live
    requires after != [] ==> after[0].live
    ensures var r, k := before + Grant(b, m) + after, |before|;
            && RunStart(r, k) == k
            && RunEnd(r, k) == k + |Grant(b, m)|
            && r[k].addr + HEADER <= r[RunEnd(r, k) - 1].End()
            && Collapsed(r, k, RunEnd(r, k)) == before + [b.(live := false)] + after
  {
    var g := Grant(b, m);
    var r, k := before + g + after, |before|;
    assert r[..k] == before && r[k + |g|..] == after;
    assert k + |g| < |r| ==> r[k + |g|] == after[0];
  }

  lemma LiveMember(bs: seq<Block>, i: nat)
    requires i < |bs|
    ensures bs[i].live <==> bs[i] in LiveBlocks(bs)
  {
  }

  /** A heap with no live block is the freshly initialised one. */
  lemma NothingLive(bs: seq<Block>, lo: nat, hi: nat)
    requires WellFormed(bs, lo, hi) && LiveBlocks(bs) == {}
    ensures bs == Initial(lo, hi)
  {
    forall i | 0 <= i < |bs| ensures !bs[i].live {
      LiveMember(bs, i);
    }
    if |bs| > 1 {
      assert BothFree(bs, 0);
    }
  }

  /** Free the blocks with the given payload pointers one after the other; pointers that are not those
      of a live block are skipped. */
  function FreeAll(bs: seq<Block>, order: seq<nat>): seq<Block>
    decreases |order|
  {
    if order == [] then bs else
      var k := LiveIndex(bs, order[0]);
      FreeAll(if k < |bs| then FreeBlocks(bs, k) else bs, order[1..])
  }

  /** Freeing every live block, in any order, gives back the single initial block. */
  lemma {:induction false} FreeAllRestores(bs: seq<Block>, lo: nat, hi: nat, order: seq<nat>)
    requires WellFormed(bs, lo, hi) && lo > 0
    requires forall b :: b in LiveBlocks(bs) ==> b.Payload() in order
    ensures FreeAll(bs, order) == Initial(lo, hi)
    decreases |order|
  {
    if order == [] {
      assert LiveBlocks(bs) == {};
      NothingLive(bs, lo, hi);
    } else {
      var k := LiveIndex(bs, order[0]);
      var next := if k < |bs| then FreeBlocks(bs, k) else bs;
      if k < |bs| {
        FreeKeeps(bs, lo, hi, k);
      }
      forall b | b in LiveBlocks(next) ensures b.Payload() in order[1..] {
        if b.Payload() == order[0] {
          LiveIndexPresent(bs, b);
          var i :| 0 <= i < |bs| && bs[i] == b;
          assert i != k;
          Distinct(bs, lo, hi, k, b);
        }
      }
      FreeAllRestores(next, lo, hi, order[1..]);
    }
  }

  /** Live blocks of one heap are told apart by their payload pointers. */
  lemma LiveByPayload(bs: seq<Block>, lo: nat, hi: nat, b: Block, c: Block)
    requires Tiles(bs, lo, hi) && b in bs && c in bs && b.Payload() == c.Payload()
    ensures b == c
  {
    var i :| 0 <= i < |bs| && bs[i] == b;
    var j :| 0 <= j < |bs| && bs[j] == c;
    if i < j {
      Ordered(bs, lo, hi, i, j);
    } else if j < i {
      Ordered(bs, lo, hi, j, i);
    }
  }

  lemma LiveIndexFinds(bs: seq<Block>, lo: nat, hi: nat, b: Block)
    requires Tiles(bs, lo, hi) && b in LiveBlocks(bs)
    ensures LiveIndex(bs, b.Payload()) < |bs| && bs[LiveIndex(bs, b.Payload())] == b
  {
    LiveIndexPresent(bs, b);
    LiveByPayload(bs, lo, hi, b, bs[LiveIndex(bs, b.Payload())]);
  }

  /** realloc, when it finds room, replaces exactly the old block by the new one. */
  lemma ReallocKeeps(bs: seq<Block>, lo: nat, hi: nat, k: nat, n: u32)
    requires WellFormed(bs, lo, hi) && lo > 0 && k < |bs| && bs[k].live
    requires FirstFit(bs, Align4(n)) < |bs|
    ensures WellFormed(ReallocBlocks(bs, k, n), lo, hi)
    ensures FirstFit(bs, Align4(n)) < |MallocBlocks(bs, n)|
    ensures var b := MallocBlocks(bs, n)[FirstFit(bs, Align4(n))];
            b !in LiveBlocks(bs) && LiveBlocks(ReallocBlocks(bs, k, n)) == LiveBlocks(bs) - {bs[k]} + {b}
    ensures MallocBlocks(bs, n)[FirstFit(bs, Align4(n))].Payload() == bs[FirstFit(bs, Align4(n))].Payload()
  {
    MallocKeeps(bs, lo, hi, n);
    LiveMember(bs, k);
    var grown := MallocBlocks(bs, n);
    LiveIndexFinds(grown, lo, hi, bs[k]);
    FreeKeeps(grown, lo, hi, LiveIndex(grown, bs[k].Payload()));
  }
}

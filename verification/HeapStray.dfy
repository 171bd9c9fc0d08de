/** What the allocator of libc/src/stdlib/heap.c as written can come to once a lost back link outlives the
    block it names. */
module HeapStray {
  import opened Bytes
  import opened HeapBlocks
  import opened HeapMemory
  import opened HeapBytes
  import opened HeapLinks
  import opened Heap

  /** When a released block is merged into the free block in front of it, its header stays in memory as it
      was. */
  lemma DeadHeader(m: seq<byte>, m1: seq<byte>, rel: seq<Block>, rh: seq<Header>, lo: nat, hi: nat, k: nat)
    requires Placed(m1, rel, lo, hi) && View(m1, rel, rh) && Chained(rh, rel) && k + 2 < |rel|
    requires !rel[k].live && !rel[k + 1].live && rh[k + 1].prev == rel[k].addr && m1 == ReleaseBytes(m, rel[k + 1].addr)
    ensures HeaderAt(FreeBytes(m, rel[k + 1].Payload()), rel[k + 1].addr) == rh[k + 1]
  {
    FreeInFront(m1, rel, rh, lo, hi, k);
    HeaderOf(m1, rel, rh, k + 1);
    FreeGoesBack(m, rel[k + 1].addr, rel[k].addr);
    AbsorbedHeader(m1, rel, rh, lo, hi, k);
  }

  lemma FreeGoesBack(m: seq<byte>, a: nat, prev: nat)
    requires HeaderAt(ReleaseBytes(m, a), a).prev == prev != 0 && !HeaderAt(ReleaseBytes(m, a), prev).live
    ensures FreeBytes(m, a + HEADER) == MergeBytes(ReleaseBytes(m, a), prev)
  {
  }

  lemma FreeInFront(m: seq<byte>, bs: seq<Block>, hs: seq<Header>, lo: nat, hi: nat, k: nat)
    requires Placed(m, bs, lo, hi) && View(m, bs, hs) && Chained(hs, bs) && k < |bs| && !bs[k].live
    ensures bs[k].addr != 0 && !HeaderAt(m, bs[k].addr).live
  {
    HeaderOf(m, bs, hs, k);
    LinksReal(m, bs, lo, hi, k);
  }

  lemma AbsorbedHeader(m: seq<byte>, bs: seq<Block>, hs: seq<Header>, lo: nat, hi: nat, k: nat)
    requires Placed(m, bs, lo, hi) && View(m, bs, hs) && Chained(hs, bs) && k + 2 < |bs| && !bs[k + 1].live
    ensures HeaderAt(MergeBytes(m, bs[k].addr), bs[k + 1].addr) == hs[k + 1]
  {
    MergeBytesAt(m, bs, hs, lo, hi, k);
    AbsorbLeaves(m, bs, lo, hi, k);
    HeaderOf(m, bs, hs, k + 1);
  }

  lemma AbsorbLeaves(m: seq<byte>, bs: seq<Block>, lo: nat, hi: nat, k: nat)
    requires Placed(m, bs, lo, hi) && k + 2 < |bs|
    ensures HeaderAt(Absorbed(m, bs, k), bs[k + 1].addr) == HeaderAt(m, bs[k + 1].addr)
  {
    var a, b, c := bs[k].addr, bs[k + 1].addr, bs[k + 2].addr;
    LinksReal(m, bs, lo, hi, k);
    LinksReal(m, bs, lo, hi, k + 1);
    LinksReal(m, bs, lo, hi, k + 2);
    assert Abuts(bs, k) && Abuts(bs, k + 1);
    PrevElsewhere(m, c, a, b);
    SpanElsewhere(WithPrev(m, c, a), a, c, bs[k].size + HEADER + bs[k + 1].size, b);
  }

  lemma SpanElsewhere(m: seq<byte>, a: nat, next: u32, size: u32, b: nat)
    requires a + HEADER <= |m| && HeadersApart(a, b)
    ensures HeaderAt(WithSpan(m, a, next, size), b) == HeaderAt(m, b)
  {
    PutSpan(m, a, next, size);
    HeaderElsewhere(m, WithSpan(m, a, next, size), a, b);
  }

  // ----- the run -----

  // The block lists after each of the first ten calls; r is what lies behind the first 252 bytes.
  function Fresh(lo: nat, r: nat): seq<Block> { [Block(lo, r + 252, false)] }
  function Has1(lo: nat, r: nat): seq<Block> { [Block(lo, 100, true), Block(lo + 116, r + 136, false)] }
  function Has2(lo: nat, r: nat): seq<Block> {
    [Block(lo, 100, true), Block(lo + 116, 100, true), Block(lo + 232, r + 20, false)]
  }
  function Tail(lo: nat, r: nat): seq<Block> { [Block(lo + 232, 4, true), Block(lo + 252, r, false)] }
  function Has3(lo: nat, r: nat, live: bool): seq<Block> {
    [Block(lo, 100, true), Block(lo + 116, 100, live)] + Tail(lo, r)
  }
  function Has4(lo: nat, r: nat, p: bool, l: bool): seq<Block> {
    [Block(lo, 100, p), Block(lo + 116, 40, true), Block(lo + 172, 44, l)] + Tail(lo, r)
  }
  function Rejoined(lo: nat, r: nat, q: bool, l: bool): seq<Block> {
    [Block(lo, 156, q), Block(lo + 172, 44, l)] + Tail(lo, r)
  }

  lemma Alloc1(lo: nat, r: nat)
    ensures FirstFit(Fresh(lo, r), 100) == 0 && MallocBlocks(Fresh(lo, r), 100) == Has1(lo, r)
  {
  }

  lemma Alloc2(lo: nat, r: nat)
    ensures FirstFit(Has1(lo, r), 100) == 1 && MallocBlocks(Has1(lo, r), 100) == Has2(lo, r)
  {
    assert Has1(lo, r)[1..] == [Block(lo + 116, r + 136, false)];
  }

  lemma Alloc3(lo: nat, r: nat)
    requires r > 4
    ensures FirstFit(Has2(lo, r), 4) == 2 && MallocBlocks(Has2(lo, r), 4) == Has3(lo, r, true)
  {
    assert Has2(lo, r)[1..][1..] == [Block(lo + 232, r + 20, false)];
    assert FirstFit(Has2(lo, r)[1..], 4) == 1;
  }

  lemma Free4(lo: nat, r: nat)
    requires lo > 0
    ensures LiveIndex(Has3(lo, r, true), lo + 132) == 1 && FreeVia(Has3(lo, r, true), 1, lo) == Has3(lo, r, false)
  {
    var bs := Has3(lo, r, true);
    assert LiveIndex(bs[1..], lo + 132) == 0;
    assert Released(bs, 1) == Has3(lo, r, false);
  }

  lemma Alloc5(lo: nat, r: nat, hs: seq<Header>)
    requires |hs| == 4
    ensures FirstFit(Has3(lo, r, false), 40) == 1 && MallocBlocks(Has3(lo, r, false), 40) == Has4(lo, r, true, false)
    ensures var rs := MallocHeaders(hs, Has3(lo, r, false), 40, false);
            rs[0].prev == hs[0].prev && rs[1].prev == hs[1].prev && rs[2].prev == lo + 116 && rs[3].prev == hs[2].prev
  {
    assert FirstFit(Has3(lo, r, false)[1..], 40) == 0;
  }

  lemma Alloc6(lo: nat, r: nat, hs: seq<Header>)
    requires |hs| == 5
    ensures FirstFit(Has4(lo, r, true, false), 44) == 2
    ensures MallocBlocks(Has4(lo, r, true, false), 44) == Has4(lo, r, true, true)
    ensures var rs := MallocHeaders(hs, Has4(lo, r, true, false), 44, false);
            forall i :: 0 <= i < 5 ==> rs[i].prev == hs[i].prev
  {
    var bs := Has4(lo, r, true, false);
    assert FirstFit(bs[1..][1..], 44) == 0;
    assert FirstFit(bs[1..], 44) == 1;
  }

  lemma Free7(lo: nat, r: nat, hs: seq<Header>)
    requires |hs| == 5 && hs[0].prev == 0
    ensures LiveIndex(Has4(lo, r, true, true), lo + 16) == 0
    ensures FreeVia(Has4(lo, r, true, true), 0, 0) == Has4(lo, r, false, true)
    ensures var rs := FreeHeaders(hs, Has4(lo, r, true, true), 0);
            forall i :: 0 <= i < 5 ==> rs[i].prev == hs[i].prev
  {
  }

  lemma Free8(lo: nat, r: nat, hs: seq<Header>)
    requires lo > 0 && |hs| == 5 && hs[1].prev == lo
    ensures var bs := Has4(lo, r, false, true);
            && LiveIndex(bs, lo + 132) == 1 && FreeVia(bs, 1, lo) == Rejoined(lo, r, false, true)
            && Released(bs, 1) == bs[1 := bs[1].(live := false)]
            && ReleasedHeaders(hs, bs, 1) == hs[1 := hs[1].(live := false)]
            && FreeHeaders(hs, bs, 1)[1].prev == lo && FreeHeaders(hs, bs, 1)[2].prev == hs[3].prev
  {
    var bs := Has4(lo, r, false, true);
    assert LiveIndex(bs[1..], lo + 132) == 0;
    assert Merge(Released(bs, 1), 0) == Rejoined(lo, r, false, true);
  }

  lemma Alloc9(lo: nat, r: nat, hs: seq<Header>)
    requires |hs| == 4
    ensures FirstFit(Rejoined(lo, r, false, true), 156) == 0
    ensures MallocBlocks(Rejoined(lo, r, false, true), 156) == Rejoined(lo, r, true, true)
    ensures var rs := MallocHeaders(hs, Rejoined(lo, r, false, true), 156, false);
            forall i :: 0 <= i < 4 ==> rs[i].prev == hs[i].prev
  {
  }

  lemma Free10(lo: nat, r: nat, hs: seq<Header>)
    requires lo > 0 && |hs| == 4 && hs[1].prev == lo
    ensures var bs := Rejoined(lo, r, true, true);
            && LiveIndex(bs, lo + 188) == 1 && FreeVia(bs, 1, lo) == Rejoined(lo, r, true, false)
            && FreeHeaders(hs, bs, 1)[2].prev == hs[2].prev
  {
    var bs := Rejoined(lo, r, true, true);
    assert LiveIndex(bs[1..], lo + 188) == 0;
    assert Released(bs, 1) == Rejoined(lo, r, true, false);
  }

  lemma Free11(lo: nat, r: nat)
    ensures LiveIndex(Rejoined(lo, r, true, false), lo + 248) == 2
    ensures Released(Rejoined(lo, r, true, false), 2)
            == [Block(lo, 156, true), Block(lo + 172, 44, false), Block(lo + 232, 20 + r, false)]
  {
    var bs := Rejoined(lo, r, true, false);
    assert LiveIndex(bs[1..][1..], lo + 248) == 0;
    assert LiveIndex(bs[1..], lo + 248) == 1;
  }

  /** p = malloc(100); a = malloc(100); n = malloc(4); free(a) */
  method Calls1To4(h: Heap, ghost r: nat) returns (p: nat, a: nat, n: nat)
    requires h.Valid() && !h.relinks && r > 4 && h.blocks == Fresh(h.lo, r)
    modifies h, h.mem
    ensures h.Valid() && h.blocks == Has3(h.lo, r, false)
    ensures p == h.lo + 16 && a == h.lo + 132 && n == h.lo + 248
  {
    p, a, n := Calls1To3(h, r);
    Free4(h.lo, r);
    assert PointsBack(h.headers[1], h.blocks, 1);
    assert h.blocks[0].addr == h.headers[1].prev;
    BackUpNames(h.blocks, h.headers, h.lo, h.hi, 1);
    h.Free(a);
    assert !BothFree(h.blocks, 0) && !BothFree(h.blocks, 1) && !BothFree(h.blocks, 2);
  }

  method Calls1To3(h: Heap, ghost r: nat) returns (p: nat, a: nat, n: nat)
    requires h.Valid() && !h.relinks && r > 4 && h.blocks == Fresh(h.lo, r)
    modifies h, h.mem
    ensures h.Valid() && h.blocks == Has3(h.lo, r, true)
    ensures p == h.lo + 16 && a == h.lo + 132 && n == h.lo + 248
  {
    ghost var lo := h.lo;
    Alloc1(lo, r);
    p := h.Malloc(100);
    Alloc2(lo, r);
    a := h.Malloc(100);
    Alloc3(lo, r);
    n := h.Malloc(4);
  }

  /** a = malloc(40), which loses n's back link; l = malloc(44); free(p) */
  method Calls5To7(h: Heap, p: nat, ghost r: nat) returns (a: nat, l: nat)
    requires h.Valid() && !h.relinks && h.blocks == Has3(h.lo, r, false) && p == h.lo + 16
    modifies h, h.mem
    ensures h.Sound() && h.blocks == Has4(h.lo, r, false, true)
    ensures a == h.lo + 132 && l == h.lo + 188
    ensures h.headers[1].prev == h.lo && h.headers[3].prev == h.lo + 116
  {
    a, l := Calls5To6(h, r);
    Free7(h.lo, r, h.headers);
    h.Free(p);
  }

  method Calls5To6(h: Heap, ghost r: nat) returns (a: nat, l: nat)
    requires h.Valid() && !h.relinks && h.blocks == Has3(h.lo, r, false)
    modifies h, h.mem
    ensures h.Sound() && h.blocks == Has4(h.lo, r, true, true)
    ensures a == h.lo + 132 && l == h.lo + 188
    ensures h.headers[0].prev == 0 && h.headers[1].prev == h.lo && h.headers[3].prev == h.lo + 116
  {
    ghost var lo := h.lo;
    assert PointsBack(h.headers[1], h.blocks, 1) && PointsBack(h.headers[2], h.blocks, 2);
    Alloc5(lo, r, h.headers);
    a := h.Malloc(40);
    Alloc6(lo, r, h.headers);
    l := h.Malloc(44);
  }

  /** free(a): the block that n's header names is merged away, and its header stays behind in memory. */
  method Call8(h: Heap, a: nat, ghost r: nat)
    requires h.Sound() && !h.relinks && h.blocks == Has4(h.lo, r, false, true) && a == h.lo + 132
    requires h.headers[1].prev == h.lo && h.headers[3].prev == h.lo + 116
    modifies h, h.mem
    ensures h.Sound() && h.blocks == Rejoined(h.lo, r, false, true)
    ensures h.headers[1].prev == h.lo && h.headers[2].prev == h.lo + 116
    ensures HeaderAt(h.mem[..], h.lo + 116) == Header(h.lo, h.lo + 172, 40, false)
  {
    ghost var hd := DeadFirst(h.mem[..], h.blocks, h.headers, h.lo, h.hi, r, a, h.lo + 116);
    FreeA(h, a, r, hd);
  }

  method FreeA(h: Heap, a: nat, ghost r: nat, ghost hd: Header)
    requires h.Sound() && h.blocks == Has4(h.lo, r, false, true) && a == h.lo + 132
    requires h.headers[1].prev == h.lo && h.headers[3].prev == h.lo + 116
    requires HeaderAt(FreeBytes(h.mem[..], a), h.lo + 116) == hd
    modifies h, h.mem
    ensures h.Sound() && h.blocks == Rejoined(h.lo, r, false, true)
    ensures h.headers[1].prev == h.lo && h.headers[2].prev == h.lo + 116
    ensures HeaderAt(h.mem[..], h.lo + 116) == hd
  {
    Free8After(h.blocks, h.headers, h.lo, r);
    FreeKnown(h, a, 1, h.lo + 116, hd);
  }

  lemma Free8After(bs: seq<Block>, hs: seq<Header>, lo: nat, r: nat)
    requires lo > 0 && |hs| == 5 && bs == Has4(lo, r, false, true) && hs[1].prev == lo && hs[3].prev == lo + 116
    ensures LiveIndex(bs, lo + 132) == 1 && BacksUp(hs, bs, 1)
    ensures FreeVia(bs, 1, hs[1].prev) == Rejoined(lo, r, false, true)
    ensures var rs := FreeHeaders(hs, bs, 1); |rs| == 4 && rs[1].prev == lo && rs[2].prev == lo + 116
  {
    Free8(lo, r, hs);
    assert bs[0].addr == hs[1].prev;
  }

  /** free of block k, when it is known what it leaves at x. */
  method FreeKnown(h: Heap, p: nat, ghost k: nat, ghost x: nat, ghost hd: Header)
    requires h.Sound() && k < |h.blocks| && k == LiveIndex(h.blocks, p) && p != 0 && BacksUp(h.headers, h.blocks, k)
    requires HeaderAt(FreeBytes(h.mem[..], p), x) == hd
    modifies h, h.mem
    ensures h.Sound() && HeaderAt(h.mem[..], x) == hd
    ensures h.blocks == FreeVia(old(h.blocks), k, old(h.headers)[k].prev)
    ensures h.headers == FreeHeaders(old(h.headers), old(h.blocks), k)
  {
    BackUpNames(h.blocks, h.headers, h.lo, h.hi, k);
    h.Free(p);
  }

  lemma DeadFirst(m: seq<byte>, bs: seq<Block>, hs: seq<Header>, lo: nat, hi: nat, r: nat, p: nat, x: nat)
    returns (hd: Header)
    requires Placed(m, bs, lo, hi) && View(m, bs, hs) && Chained(hs, bs) && bs == Has4(lo, r, false, true)
    requires hs[1].prev == lo && p == lo + 132 && x == lo + 116
    ensures HeaderAt(FreeBytes(m, p), x) == hd == Header(lo, lo + 172, 40, false)
  {
    hd := Header(lo, lo + 172, 40, false);
    DeadSecond(m, bs, hs, lo, hi, r);
    assert HeaderAt(FreeBytes(m, lo + 132), lo + 116) == hd;
  }

  lemma DeadSecond(m: seq<byte>, bs: seq<Block>, hs: seq<Header>, lo: nat, hi: nat, r: nat)
    requires Placed(m, bs, lo, hi) && View(m, bs, hs) && Chained(hs, bs) && bs == Has4(lo, r, false, true)
    requires hs[1].prev == lo
    ensures HeaderAt(FreeBytes(m, lo + 132), lo + 116) == Header(lo, lo + 172, 40, false)
  {
    Free8(lo, r, hs);
    FirstHalf(m, bs, hs, lo, hi, 1);
    DeadHeader(m, ReleaseBytes(m, lo + 116), Released(bs, 1), ReleasedHeaders(hs, bs, 1), lo, hi, 0);
    assert Describes(hs[1], bs, 1);
  }

  /** q = malloc(156): q's payload now covers that header. */
  method Call9(h: Heap, ghost r: nat) returns (q: nat)
    requires h.Sound() && !h.relinks && h.blocks == Rejoined(h.lo, r, false, true)
    requires h.headers[1].prev == h.lo && h.headers[2].prev == h.lo + 116
    modifies h, h.mem
    ensures h.Sound() && h.blocks == Rejoined(h.lo, r, true, true) && q == h.lo + 16
    ensures h.headers[1].prev == h.lo && h.headers[2].prev == h.lo + 116
    ensures HeaderAt(h.mem[..], h.lo + 116) == old(HeaderAt(h.mem[..], h.lo + 116))
  {
    ghost var m := h.mem[..];
    Alloc9(h.lo, r, h.headers);
    q := h.Malloc(156);
    HeaderElsewhere(m, h.mem[..], h.lo, h.lo + 116);
  }

  /** free(l) */
  method Call10(h: Heap, l: nat, ghost r: nat)
    requires h.Sound() && !h.relinks && h.blocks == Rejoined(h.lo, r, true, true) && l == h.lo + 188
    requires h.headers[1].prev == h.lo && h.headers[2].prev == h.lo + 116
    modifies h, h.mem
    ensures h.Sound() && h.blocks == Rejoined(h.lo, r, true, false) && h.headers[2].prev == h.lo + 116
    ensures HeaderAt(h.mem[..], h.lo + 116) == old(HeaderAt(h.mem[..], h.lo + 116))
  {
    ghost var m, bs := h.mem[..], h.blocks;
    FreeSecond(h, l, r);
    CoveredHeader(m, h.mem[..], bs, h.lo, h.hi, 1);
  }

  method FreeSecond(h: Heap, l: nat, ghost r: nat)
    requires h.Sound() && h.blocks == Rejoined(h.lo, r, true, true) && l == h.lo + 188 && h.headers[1].prev == h.lo
    modifies h, h.mem
    ensures h.Sound() && h.blocks == Rejoined(h.lo, r, true, false) && h.headers[2].prev == old(h.headers)[2].prev
    ensures Keeps(old(h.mem[..]), h.mem[..], LiveBlocks(old(h.blocks)) - {old(h.blocks)[1]}, h.lo, h.hi)
  {
    Free10(h.lo, r, h.headers);
    assert h.blocks[0].addr == h.headers[1].prev;
    BackUpNames(h.blocks, h.headers, h.lo, h.hi, 1);
    h.Free(l);
  }

  /** Freeing another block than the first leaves what the first one's payload covers. */
  lemma CoveredHeader(m: seq<byte>, m': seq<byte>, bs: seq<Block>, lo: nat, hi: nat, k: nat)
    requires 0 < k < |bs| && bs[0].live && bs[0] != bs[k] && bs[0].addr == lo && bs[0].size == 156
    requires Keeps(m, m', LiveBlocks(bs) - {bs[k]}, lo, hi)
    ensures HeaderAt(m', lo + 116) == HeaderAt(m, lo + 116)
  {
    assert bs[0] in LiveBlocks(bs) - {bs[k]};
    HeaderUntouched(m, m', lo + 116);
  }

  /** free(n): n's prev field names no block. The merge goes through what lies there and writes into q's
      payload, at offsets 104 and 108. */
  method Call11(h: Heap, n: nat, ghost r: nat)
    requires h.Sound() && h.blocks == Rejoined(h.lo, r, true, false) && n == h.lo + 248
    requires h.headers[2].prev == h.lo + 116
    requires HeaderAt(h.mem[..], h.lo + 116) == Header(h.lo, h.lo + 172, 40, false)
    modifies h, h.mem
    ensures HeaderAt(h.mem[..], h.lo + 116) == Header(h.lo, h.lo + 232, 100, false)
  {
    Free11(h.lo, r);
    StrayMerge(h.mem[..], h.blocks, h.headers, h.lo, h.hi, r);
    h.Free(n);
  }

  lemma StrayMerge(m: seq<byte>, bs: seq<Block>, hs: seq<Header>, lo: nat, hi: nat, r: nat)
    requires Placed(m, bs, lo, hi) && View(m, bs, hs) && Chained(hs, bs) && bs == Rejoined(lo, r, true, false)
    requires hs[2].prev == lo + 116 && HeaderAt(m, lo + 116) == Header(lo, lo + 172, 40, false)
    ensures FreeReach(m, lo + 248)
    ensures HeaderAt(FreeBytes(m, lo + 248), lo + 116) == Header(lo, lo + 232, 100, false)
  {
    StrayFirst(m, bs, hs, lo, hi, r);
    assert bs[2].addr == lo + 232;
    StraySecond(m, ReleaseBytes(m, lo + 232), lo);
  }

  /** The second half takes the dead header for a free block in front and merges it with what it names. */
  lemma StraySecond(m: seq<byte>, m1: seq<byte>, lo: nat)
    requires lo + 252 <= |m| && lo + 252 < TWO32 && MergeReach(WithLive(m, lo + 232, false), lo + 232)
    requires m1 == ReleaseBytes(m, lo + 232) && HeaderAt(m1, lo + 232).prev == lo + 116
    requires HeaderAt(m1, lo + 116) == Header(lo, lo + 172, 40, false)
    requires var n := HeaderAt(m1, lo + 172); n.next == lo + 232 && n.size == 44 && !n.live
    ensures FreeReach(m, lo + 248)
    ensures HeaderAt(FreeBytes(m, lo + 248), lo + 116) == Header(lo, lo + 232, 100, false)
  {
    StrayReach(m1, lo, HeaderAt(m1, lo + 172));
    FreeReads(m, lo + 232, lo + 116, false);
    StrayWrites(m1, FreeBytes(m, lo + 248), lo, HeaderAt(m1, lo + 172));
  }

  lemma StrayReach(m: seq<byte>, lo: nat, n: Header)
    requires lo + 252 <= |m| && lo + 252 < TWO32 && HeaderAt(m, lo + 116) == Header(lo, lo + 172, 40, false)
    requires HeaderAt(m, lo + 172) == n && n.next == lo + 232
    ensures MergeReach(m, lo + 116)
  {
    ReachOf(m, lo + 116, Header(lo, lo + 172, 40, false), n);
  }

  /** What free finds after its first half. */
  lemma StrayFirst(m: seq<byte>, bs: seq<Block>, hs: seq<Header>, lo: nat, hi: nat, r: nat)
    requires Placed(m, bs, lo, hi) && View(m, bs, hs) && Chained(hs, bs) && bs == Rejoined(lo, r, true, false)
    ensures lo + 252 <= |m| && lo + 252 < TWO32 && MergeReach(WithLive(m, bs[2].addr, false), bs[2].addr)
    ensures var m1 := ReleaseBytes(m, bs[2].addr); var n := HeaderAt(m1, lo + 172);
            && HeaderAt(m1, bs[2].addr).prev == hs[2].prev && HeaderAt(m1, lo + 116) == HeaderAt(m, lo + 116)
            && n.next == lo + 232 && n.size == 44 && !n.live
  {
    FirstHalf(m, bs, hs, lo, hi, 2);
    Free11(lo, r);
    StrayFacts(m, ReleaseBytes(m, bs[2].addr), bs, Released(bs, 2), ReleasedHeaders(hs, bs, 2), lo, hi, r);
  }

  lemma StrayFacts(m: seq<byte>, m1: seq<byte>, bs: seq<Block>, rel: seq<Block>, rh: seq<Header>,
                   lo: nat, hi: nat, r: nat)
    requires Placed(m1, rel, lo, hi) && View(m1, rel, rh) && Chained(rh, rel) && bs == Rejoined(lo, r, true, false)
    requires rel == [Block(lo, 156, true), Block(lo + 172, 44, false), Block(lo + 232, 20 + r, false)]
    requires Keeps(m, m1, LiveBlocks(bs) - {bs[2]}, lo, hi)
    ensures lo + 252 <= |m1| && lo + 252 < TWO32
    ensures HeaderAt(m1, lo + 116) == HeaderAt(m, lo + 116)
    ensures var n := HeaderAt(m1, lo + 172); n.next == lo + 232 && n.size == 44 && !n.live
  {
    CoveredHeader(m, m1, bs, lo, hi, 2);
    LastHeaders(m1, rel, rh, lo, hi, r);
  }

  lemma LastHeaders(m: seq<byte>, bs: seq<Block>, hs: seq<Header>, lo: nat, hi: nat, r: nat)
    requires Placed(m, bs, lo, hi) && View(m, bs, hs) && Chained(hs, bs)
    requires bs == [Block(lo, 156, true), Block(lo + 172, 44, false), Block(lo + 232, 20 + r, false)]
    ensures var n := HeaderAt(m, lo + 172); n.next == lo + 232 && n.size == 44 && !n.live
    ensures lo + 252 <= |m| && lo + 252 < TWO32
  {
    HeaderOf(m, bs, hs, 1);
    LinksReal(m, bs, lo, hi, 2);
  }

  lemma StrayWrites(m: seq<byte>, r: seq<byte>, lo: nat, n: Header)
    requires lo + 252 <= |m| && lo + 252 < TWO32 && HeaderAt(m, lo + 116) == Header(lo, lo + 172, 40, false)
    requires HeaderAt(m, lo + 172) == n && n.next == lo + 232 && n.size == 44 && !n.live
    requires r == MergeBytes(m, lo + 116)
    ensures HeaderAt(r, lo + 116) == Header(lo, lo + 232, 100, false)
  {
    MergeJoins(m, lo + 116, Header(lo, lo + 172, 40, false), n, lo + 172, lo + 232, 100);
    PrevElsewhere(m, lo + 232, lo + 116, lo + 116);
    PutSpan(WithPrev(m, lo + 232, lo + 116), lo + 116, lo + 232, 100);
  }

  lemma NamesNothing(lo: nat, r: nat)
    ensures !Names(Rejoined(lo, r, true, false), 2, lo + 116)
  {
    Free11(lo, r);
    var rel := Released(Rejoined(lo, r, true, false), 2);
    assert IndexOf(rel[1..][1..], lo + 116) == 1;
    assert IndexOf(rel[1..], lo + 116) == 2;
  }

  /** The first ten calls. */
  method StrayLink(h: Heap, ghost r: nat) returns (n: nat, q: nat)
    requires h.Valid() && !h.relinks && r > 4 && h.blocks == Fresh(h.lo, r)
    modifies h, h.mem
    ensures h.Sound() && h.blocks == Rejoined(h.lo, r, true, false) && n == h.lo + 248 && q == h.lo + 16
    ensures h.headers[2].prev == h.lo + 116 && !h.NamesBack(2)
    ensures HeaderAt(h.mem[..], h.lo + 116) == Header(h.lo, h.lo + 172, 40, false)
  {
    var p, a, l;
    p, a, n := Calls1To4(h, r);
    a, l := Calls5To7(h, p, r);
    Call8(h, a, r);
    q := Call9(h, r);
    Call10(h, l, r);
    NamesNothing(h.lo, r);
  }

  /** Eleven calls of the source as written, on a fresh heap with room: p = malloc(100); a = malloc(100);
      n = malloc(4); free(a); a = malloc(40); l = malloc(44); free(p); free(a); q = malloc(156); free(l);
      free(n). Before the last, the heap is sound, q's block is live and n's prev field names no block;
      the last call changes eight bytes of q's payload. */
  method StrayRun(mem: array<byte>, heapStart: u32, heapEnd: u32)
    returns (h: Heap, q: nat, ghost before: seq<byte>, ghost bs: seq<Block>, ghost hs: seq<Header>)
    requires 0 < heapStart <= 0xFFFF_FFFC && Align4(heapStart) + 512 <= heapEnd <= mem.Length
    requires heapEnd < TWO32
    modifies mem
    ensures fresh(h) && h.mem == mem && !h.relinks && |before| == mem.Length
    ensures |bs| == 4 && View(before, bs, hs) && bs[0] == Block(h.lo, 156, true) && bs[0].Payload() == q
    ensures bs[2].live && !Names(bs, 2, hs[2].prev)
    ensures q + 112 <= |before| && Le32(before, q + 104) == h.lo + 172 && Le32(before, q + 108) == 40
    ensures Le32(mem[..], q + 104) == h.lo + 232 && Le32(mem[..], q + 108) == 100
  {
    h := new Heap(mem, heapStart, heapEnd, false);
    ghost var r := heapEnd - h.lo - 268;
    var n;
    n, q := StrayLink(h, r);
    before, bs, hs := mem[..], h.blocks, h.headers;
    Call11(h, n, r);
  }

  // ----- two free neighbours -----

  // The block lists of BackLinkRun, one after each call; r is what lies behind the first 136 bytes.
  function List0(lo: nat, r: nat): seq<Block> { [Block(lo, r + 136, false)] }
  function List1(lo: nat, r: nat): seq<Block> { [Block(lo, 100, true), Block(lo + 116, r + 20, false)] }
  function List2(lo: nat, r: nat): seq<Block> {
    [Block(lo, 100, true), Block(lo + 116, 4, true), Block(lo + 136, r, false)]
  }
  function List3(lo: nat, r: nat): seq<Block> {
    [Block(lo, 100, false), Block(lo + 116, 4, true), Block(lo + 136, r, false)]
  }
  function List4(lo: nat, r: nat): seq<Block> {
    [Block(lo, 40, true), Block(lo + 56, 44, false), Block(lo + 116, 4, true), Block(lo + 136, r, false)]
  }
  function List5(lo: nat, r: nat): seq<Block> {
    [Block(lo, 40, true), Block(lo + 56, 44, false), Block(lo + 116, r + 20, false)]
  }
  function List6(lo: nat, r: nat): seq<Block> { [Block(lo, 100, false), Block(lo + 116, r + 20, false)] }

  lemma Call1(lo: nat, r: nat)
    ensures FirstFit(List0(lo, r), 100) == 0 && MallocBlocks(List0(lo, r), 100) == List1(lo, r)
  {
  }

  lemma Call2(lo: nat, r: nat)
    requires r > 4
    ensures FirstFit(List1(lo, r), 4) == 1 && MallocBlocks(List1(lo, r), 4) == List2(lo, r)
  {
    assert List1(lo, r)[1..] == [Block(lo + 116, r + 20, false)];
  }

  lemma Call3(lo: nat, r: nat)
    ensures LiveIndex(List2(lo, r), lo + 16) == 0 && FreeVia(List2(lo, r), 0, 0) == List3(lo, r)
  {
  }

  lemma Call4(lo: nat, r: nat, hs: seq<Header>)
    requires |hs| == 3
    ensures FirstFit(List3(lo, r), 40) == 0 && MallocBlocks(List3(lo, r), 40) == List4(lo, r)
    ensures var split := SplitHeaders(hs, List3(lo, r), 0, 40, false);
            |split| == 4 && split[2].prev == hs[1].prev && split[0].prev == hs[0].prev
  {
  }

  lemma Call5(lo: nat, r: nat)
    requires lo > 0
    ensures LiveIndex(List4(lo, r), lo + 132) == 2 && FreeVia(List4(lo, r), 2, lo) == List5(lo, r)
  {
    var bs := List4(lo, r);
    assert bs[1..][1..] == [Block(lo + 116, 4, true), Block(lo + 136, r, false)];
    assert LiveIndex(bs, lo + 132) == 1 + LiveIndex(bs[1..], lo + 132);
    assert LiveIndex(bs[1..], lo + 132) == 1 + LiveIndex(bs[1..][1..], lo + 132);
    var tagged := bs[2 := bs[2].(live := false)];
    assert Merge(tagged, 2) == List5(lo, r);
  }

  lemma Call6(lo: nat, r: nat)
    ensures LiveIndex(List5(lo, r), lo + 16) == 0 && FreeVia(List5(lo, r), 0, 0) == List6(lo, r)
  {
  }

  /** A run of the source as written (split without the back link repaired) on a fresh heap with room:
      a = malloc(100); n = malloc(4); free(a); a = malloc(40); free(n); free(a).
      Everything is freed again, and yet two neighbouring free blocks remain. */
  method BackLinkRun(mem: array<byte>, heapStart: u32, heapEnd: u32) returns (h: Heap)
    requires 0 < heapStart <= 0xFFFF_FFFC && Align4(heapStart) + 256 <= heapEnd <= mem.Length
    requires heapEnd < TWO32
    modifies mem
    ensures fresh(h) && !h.relinks && h.Sound()
    ensures LiveBlocks(h.blocks) == {} && |h.blocks| == 2 && BothFree(h.blocks, 0)
    ensures !Coalesced(h.blocks)
  {
    h := new Heap(mem, heapStart, heapEnd, false);
    ghost var r := heapEnd - h.lo - 152;
    var a, n := LoseBackLink(h, r);
    FreeBoth(h, a, n, r);
    assert BothFree(h.blocks, 0);
  }

  /** The first four calls: afterwards n's header still points back to a, past the leftover. */
  method LoseBackLink(h: Heap, ghost r: nat) returns (a: nat, n: nat)
    requires h.Sound() && !h.relinks && Linked(h.headers, h.blocks) && r > 4
    requires h.blocks == List0(h.lo, r)
    modifies h, h.mem
    ensures h.Sound() && h.blocks == List4(h.lo, r)
    ensures a == h.lo + 16 && n == h.lo + 132
    ensures h.headers[2].prev == h.lo
  {
    ghost var lo := h.lo;
    a, n := TwoMallocs(h, r);
    Call3(lo, r);
    h.Free(a);
    assert PointsBack(h.headers[1], h.blocks, 1);
    Call4(lo, r, h.headers);
    a := h.Malloc(40);
  }

  method TwoMallocs(h: Heap, ghost r: nat) returns (a: nat, n: nat)
    requires h.Sound() && !h.relinks && Linked(h.headers, h.blocks) && r > 4
    requires h.blocks == List0(h.lo, r)
    modifies h, h.mem
    ensures h.Sound() && Linked(h.headers, h.blocks) && h.blocks == List2(h.lo, r)
    ensures a == h.lo + 16 && n == h.lo + 132
  {
    Call1(h.lo, r);
    a := h.Malloc(100);
    Call2(h.lo, r);
    n := h.Malloc(4);
  }

  method FreeBoth(h: Heap, a: nat, n: nat, ghost r: nat)
    requires h.Sound() && h.blocks == List4(h.lo, r)
    requires a == h.lo + 16 && n == h.lo + 132 && h.headers[2].prev == h.lo
    modifies h, h.mem
    ensures h.Sound() && h.blocks == List6(h.lo, r)
  {
    Call5(h.lo, r);
    assert h.blocks[0].addr == h.headers[2].prev;
    BackUpNames(h.blocks, h.headers, h.lo, h.hi, 2);
    h.Free(n);
    Call6(h.lo, r);
    h.Free(a);
  }

  // ----- realloc of the block whose link is lost -----

  // The block lists after each of the first three calls; r is what lies behind the first 140 bytes.
  function Old0(lo: nat, r: nat): seq<Block> { [Block(lo, r + 140, false)] }
  function Old1(lo: nat, r: nat): seq<Block> { [Block(lo, 100, true), Block(lo + 116, r + 24, false)] }
  function Old2(lo: nat, r: nat, f: bool): seq<Block> {
    [Block(lo, 100, f), Block(lo + 116, 8, true), Block(lo + 140, r, false)]
  }

  lemma OldCalls(lo: nat, r: nat)
    requires r > 20
    ensures FirstFit(Old0(lo, r), 100) == 0 && MallocBlocks(Old0(lo, r), 100) == Old1(lo, r)
    ensures FirstFit(Old1(lo, r), 8) == 1 && MallocBlocks(Old1(lo, r), 8) == Old2(lo, r, true)
    ensures LiveIndex(Old2(lo, r, true), lo + 16) == 0 && FreeVia(Old2(lo, r, true), 0, 0) == Old2(lo, r, false)
  {
    assert Old1(lo, r)[1..] == [Block(lo + 116, r + 24, false)];
  }

  /** realloc(p, 40) on a heap where the free block in front of p is the first fit. */
  lemma OldRealloc(lo: nat, r: nat, hs: seq<Header>)
    requires lo > 0 && |hs| == 3 && hs[1].prev == lo
    ensures var bs := Old2(lo, r, false);
            && FirstFit(bs, 40) == 0 && LosesBackLink(bs, 40) && LiveIndex(bs, lo + 132) == 1
            && ReallocVia(bs, hs, 1, 40, false).0
               == [Block(lo, 40, true), Block(lo + 56, 44, false), Block(lo + 116, r + 24, false)]
  {
    var bs := Old2(lo, r, false);
    var gb, gh := MallocBlocks(bs, 40), MallocHeaders(hs, bs, 40, false);
    assert gb == [Block(lo, 40, true), Block(lo + 56, 44, false), Block(lo + 116, 8, true), Block(lo + 140, r, false)];
    assert gh[2].prev == lo;
    assert LiveIndex(bs[1..], lo + 132) == 0;
    assert LiveIndex(gb[1..][1..], lo + 132) == 0;
    assert LiveIndex(gb[1..], lo + 132) == 1;
    assert Released(gb, 2) == [Block(lo, 40, true), Block(lo + 56, 44, false), Block(lo + 116, r + 24, false)];
  }

  /** A run of the source as written on a fresh heap with room: f = malloc(100); p = malloc(8); free(f);
      realloc(p, 40). One realloc leaves two neighbouring free blocks. */
  method ReallocRun(mem: array<byte>, heapStart: u32, heapEnd: u32) returns (h: Heap)
    requires 0 < heapStart <= 0xFFFF_FFFC && Align4(heapStart) + 256 <= heapEnd <= mem.Length
    requires heapEnd < TWO32
    modifies mem
    ensures fresh(h) && !h.relinks && h.Sound()
    ensures |h.blocks| == 3 && BothFree(h.blocks, 1) && !Coalesced(h.blocks)
  {
    h := new Heap(mem, heapStart, heapEnd, false);
    ghost var r := heapEnd - h.lo - 156;
    OldCalls(h.lo, r);
    var f := h.Malloc(100);
    var p := h.Malloc(8);
    FreeFirst(h, f, r);
    var q := ReallocOld(h, p, r);
    assert BothFree(h.blocks, 1);
  }

  method FreeFirst(h: Heap, f: nat, ghost r: nat)
    requires h.Sound() && Linked(h.headers, h.blocks) && h.blocks == Old2(h.lo, r, true) && f == h.lo + 16 && r > 20
    modifies h, h.mem
    ensures h.Sound() && Linked(h.headers, h.blocks) && h.blocks == Old2(h.lo, r, false)
  {
    OldCalls(h.lo, r);
    h.Free(f);
  }

  method ReallocOld(h: Heap, p: nat, ghost r: nat) returns (q: nat)
    requires h.Sound() && !h.relinks && Linked(h.headers, h.blocks)
    requires h.blocks == Old2(h.lo, r, false) && p == h.lo + 132
    modifies h, h.mem
    ensures h.Sound()
    ensures h.blocks == [Block(h.lo, 40, true), Block(h.lo + 56, 44, false), Block(h.lo + 116, r + 24, false)]
  {
    assert PointsBack(h.headers[1], h.blocks, 1);
    OldRealloc(h.lo, r, h.headers);
    LinkedBacksUp(h.headers, h.blocks, h.lo, h.hi);
    CopyFitsWhen(h.blocks, h.lo, h.hi, 1, 40);
    q := h.Realloc(p, 40);
  }
}

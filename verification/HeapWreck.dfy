/** What the allocator of libc/src/stdlib/heap.c as written can come to in the end: a run after which the
    headers in memory describe no heap any more. */
module HeapWreck {
  import opened Bytes
  import opened HeapBlocks
  import opened HeapMemory
  import opened HeapBytes
  import opened HeapLinks
  import opened HeapHarm
  import opened Heap

  // ----- what the run leaves -----

  /** The first header is that of a free block, and the one behind it, live, does not point at its end. */
  ghost predicate Wrecked(m: seq<byte>, lo: nat) {
    && HeaderAt(m, lo) == Header(0, lo + 84, 68, false)
    && HeaderAt(m, lo + 84) == Header(lo + 84, lo + 440, 256, true)
  }

  /** The headers of this list are what memory holds. */
  ghost predicate Described(m: seq<byte>, bs: seq<Block>, hs: seq<Header>, lo: nat, hi: nat) {
    Tiles(bs, lo, hi) && View(m, bs, hs) && Chained(hs, bs)
  }

  lemma SecondPoints(m: seq<byte>, bs: seq<Block>, hs: seq<Header>, lo: nat, hi: nat)
    requires Described(m, bs, hs, lo, hi) && lo > 0 && HeaderAt(m, lo) == Header(0, lo + 84, 68, false)
    ensures var h := HeaderAt(m, lo + 84); h.next == 0 || h.next == lo + 84 + HEADER + h.size
  {
    HeaderOf(m, bs, hs, 0);
    assert |bs| > 1 && bs[1].addr == lo + 84;
    HeaderOf(m, bs, hs, 1);
    assert |bs| > 2 ==> Abuts(bs, 1);
  }

  lemma NothingDescribes(m: seq<byte>, bs: seq<Block>, hs: seq<Header>, lo: nat, hi: nat)
    requires lo > 0 && Wrecked(m, lo)
    ensures !Described(m, bs, hs, lo, hi)
  {
    if Described(m, bs, hs, lo, hi) {
      SecondPoints(m, bs, hs, lo, hi);
    }
  }

  // ----- overlapping headers -----

  /** The next and size fields of a header are the prev and next fields of one four bytes behind it. */
  lemma FourBehind(m: seq<byte>, d: nat)
    requires d + 4 + HEADER <= |m|
    ensures HeaderAt(m, d).next == HeaderAt(m, d + 4).prev && HeaderAt(m, d).size == HeaderAt(m, d + 4).next
    ensures HeaderAt(m, d + 4).size % 0x100 == 0 ==> !HeaderAt(m, d).live
  {
    LowByte(m, d + 12);
  }

  lemma LowByte(m: seq<byte>, a: nat)
    requires a + 4 <= |m|
    ensures Le32(m, a) % 0x100 == m[a]
  {
    var b0: int, b1: int, b2: int, b3: int := m[a], m[a + 1], m[a + 2], m[a + 3];
    assert Le32(m, a) == b0 + 0x100 * (b1 + 0x100 * b2 + 0x1_0000 * b3);
  }

  /** The merge through the bytes four in front of the header at l: it writes that header. */
  lemma StrayAbsorb(m: seq<byte>, r: seq<byte>, lo: nat, l: nat, e: nat, size: nat)
    requires lo + HEADER <= l - 4 && l + HEADER <= |m| && l < TWO32 && e + HEADER + size < TWO32
    requires HeaderAt(m, lo) == Header(0, l, size, false)
    requires HeaderAt(m, l) == Header(lo, e, 256, true)
    requires r == AbsorbBytes(m, l - 4, lo, l)
    ensures HeaderAt(r, lo) == HeaderAt(m, lo)
    ensures HeaderAt(r, l) == Header(l, e + HEADER + size, 256, true)
  {
    var m1 := Relinked(m, l - 4, l);
    StrayRelink(m, m1, lo, l);
    StrayGrow(m1, r, lo, l, e, size);
  }

  lemma StrayRelink(m: seq<byte>, r: seq<byte>, lo: nat, l: nat)
    requires lo + HEADER <= l - 4 && l + HEADER <= |m| && l < TWO32 && r == Relinked(m, l - 4, l)
    ensures HeaderAt(r, lo) == HeaderAt(m, lo) && HeaderAt(r, l) == HeaderAt(m, l).(prev := l)
  {
    var m1 := WithPrev(m, l, l - 4);
    PrevOnly(m, m1, lo, l, l - 4);
    PrevOnly(m1, r, lo, l, l);
  }

  lemma PrevOnly(m: seq<byte>, r: seq<byte>, lo: nat, l: nat, v: u32)
    requires lo + HEADER <= l && l + HEADER <= |m| && r == WithPrev(m, l, v)
    ensures HeaderAt(r, lo) == HeaderAt(m, lo) && HeaderAt(r, l) == HeaderAt(m, l).(prev := v)
  {
    PutPrev(m, l, v);
    HeaderElsewhere(m, r, l, lo);
  }

  lemma StrayGrow(m: seq<byte>, r: seq<byte>, lo: nat, l: nat, e: nat, size: nat)
    requires lo + HEADER <= l - 4 && l + HEADER <= |m| && e + HEADER + size < TWO32
    requires HeaderAt(m, lo).size == size && HeaderAt(m, l).next == e
    requires r == WithSize(m, l - 4, HeaderAt(m, l - 4).size + HEADER + HeaderAt(m, lo).size)
    ensures HeaderAt(r, lo) == HeaderAt(m, lo) && HeaderAt(r, l) == HeaderAt(m, l).(next := e + HEADER + size)
  {
    FourBehind(m, l - 4);
    PutNext(m, l, e + HEADER + size);
    HeaderElsewhere(m, r, l, lo);
  }

  // ----- the lists of the run -----

  // The block lists after the calls; r is what lies behind the first 416 bytes.
  function W0(lo: nat, r: nat): seq<Block> { [Block(lo, r + 416, false)] }
  function W1(lo: nat, r: nat): seq<Block> { [Block(lo, 64, true), Block(lo + 80, r + 336, false)] }
  function W2(lo: nat, r: nat): seq<Block> {
    [Block(lo, 64, true), Block(lo + 80, 300, true), Block(lo + 396, r + 20, false)]
  }
  function Rest(lo: nat, r: nat): seq<Block> { [Block(lo + 396, 4, true), Block(lo + 416, r, false)] }
  function W3(lo: nat, r: nat, x: bool): seq<Block> { [Block(lo, 64, true), Block(lo + 80, 300, x)] + Rest(lo, r) }
  function W4(lo: nat, r: nat, d: bool, e: bool): seq<Block> {
    [Block(lo, 64, true), Block(lo + 80, 260, d), Block(lo + 356, 24, e)] + Rest(lo, r)
  }
  function W5(lo: nat, r: nat): seq<Block> { [Block(lo, 340, false), Block(lo + 356, 24, true)] + Rest(lo, r) }
  function W6(lo: nat, r: nat, f: bool, l: bool): seq<Block> {
    [Block(lo, 68, f), Block(lo + 84, 256, l), Block(lo + 356, 24, true)] + Rest(lo, r)
  }
  function W7(lo: nat, r: nat): seq<Block> {
    [Block(lo, 68, false), Block(lo + 84, 256, true), Block(lo + 356, 24, true), Block(lo + 396, r + 20, false)]
  }

  /** The prev fields of all headers. */
  predicate Prevs(hs: seq<Header>, ps: seq<nat>) {
    |hs| == |ps| && forall i :: 0 <= i < |hs| ==> hs[i].prev == ps[i]
  }

  lemma Alloc1(lo: nat, r: nat)
    ensures FirstFit(W0(lo, r), 64) == 0 && MallocBlocks(W0(lo, r), 64) == W1(lo, r)
  {
  }

  lemma Alloc2(lo: nat, r: nat)
    ensures FirstFit(W1(lo, r), 300) == 1 && MallocBlocks(W1(lo, r), 300) == W2(lo, r)
  {
    assert W1(lo, r)[1..] == [Block(lo + 80, r + 336, false)];
  }

  lemma Alloc3(lo: nat, r: nat)
    requires r > 4
    ensures FirstFit(W2(lo, r), 4) == 2 && MallocBlocks(W2(lo, r), 4) == W3(lo, r, true)
  {
    assert W2(lo, r)[1..][1..] == [Block(lo + 396, r + 20, false)];
    assert FirstFit(W2(lo, r)[1..], 4) == 1;
  }

  lemma Free4(lo: nat, r: nat)
    requires lo > 0
    ensures LiveIndex(W3(lo, r, true), lo + 96) == 1 && FreeVia(W3(lo, r, true), 1, lo) == W3(lo, r, false)
  {
    var bs := W3(lo, r, true);
    assert LiveIndex(bs[1..], lo + 96) == 0;
    assert Released(bs, 1) == W3(lo, r, false);
  }

  lemma Alloc5(lo: nat, r: nat, hs: seq<Header>)
    requires Prevs(hs, [0, lo, lo + 80, lo + 396])
    ensures FirstFit(W3(lo, r, false), 260) == 1 && MallocBlocks(W3(lo, r, false), 260) == W4(lo, r, true, false)
    ensures Prevs(MallocHeaders(hs, W3(lo, r, false), 260, false), [0, lo, lo + 80, lo + 80, lo + 396])
  {
    assert FirstFit(W3(lo, r, false)[1..], 260) == 0;
  }

  lemma Alloc6(lo: nat, r: nat, hs: seq<Header>)
    requires Prevs(hs, [0, lo, lo + 80, lo + 80, lo + 396])
    ensures FirstFit(W4(lo, r, true, false), 24) == 2
    ensures MallocBlocks(W4(lo, r, true, false), 24) == W4(lo, r, true, true)
    ensures Prevs(MallocHeaders(hs, W4(lo, r, true, false), 24, false), [0, lo, lo + 80, lo + 80, lo + 396])
  {
    var bs := W4(lo, r, true, false);
    assert FirstFit(bs[1..][1..], 24) == 0;
    assert FirstFit(bs[1..], 24) == 1;
  }

  lemma Free7(lo: nat, r: nat, hs: seq<Header>)
    requires lo > 0 && Prevs(hs, [0, lo, lo + 80, lo + 80, lo + 396])
    ensures var bs := W4(lo, r, true, true);
            && LiveIndex(bs, lo + 96) == 1 && FreeVia(bs, 1, lo) == W4(lo, r, false, true)
            && Prevs(FreeHeaders(hs, bs, 1), [0, lo, lo + 80, lo + 80, lo + 396])
  {
    var bs := W4(lo, r, true, true);
    assert LiveIndex(bs[1..], lo + 96) == 0;
    assert Released(bs, 1) == W4(lo, r, false, true);
  }

  /** The block that n's header names is merged away. */
  lemma Free8(lo: nat, r: nat, hs: seq<Header>)
    requires lo > 0 && Prevs(hs, [0, lo, lo + 80, lo + 80, lo + 396])
    ensures var bs := W4(lo, r, false, true);
            && LiveIndex(bs, lo + 16) == 0 && FreeVia(bs, 0, 0) == W5(lo, r)
            && Prevs(FreeHeaders(hs, bs, 0), [0, lo, lo + 80, lo + 396])
  {
    var bs := W4(lo, r, false, true);
    assert Released(bs, 0) == W5(lo, r);
  }

  lemma Alloc9(lo: nat, r: nat, hs: seq<Header>)
    requires Prevs(hs, [0, lo, lo + 80, lo + 396])
    ensures FirstFit(W5(lo, r), 68) == 0 && MallocBlocks(W5(lo, r), 68) == W6(lo, r, true, false)
    ensures Prevs(MallocHeaders(hs, W5(lo, r), 68, false), [0, lo, lo, lo + 80, lo + 396])
  {
  }

  lemma Alloc10(lo: nat, r: nat, hs: seq<Header>)
    requires Prevs(hs, [0, lo, lo, lo + 80, lo + 396])
    ensures FirstFit(W6(lo, r, true, false), 256) == 1
    ensures MallocBlocks(W6(lo, r, true, false), 256) == W6(lo, r, true, true)
    ensures Prevs(MallocHeaders(hs, W6(lo, r, true, false), 256, false), [0, lo, lo, lo + 80, lo + 396])
  {
    assert FirstFit(W6(lo, r, true, false)[1..], 256) == 0;
  }

  lemma Free11(lo: nat, r: nat, hs: seq<Header>)
    requires Prevs(hs, [0, lo, lo, lo + 80, lo + 396])
    ensures var bs := W6(lo, r, true, true);
            && LiveIndex(bs, lo + 16) == 0 && FreeVia(bs, 0, 0) == W6(lo, r, false, true)
            && Prevs(FreeHeaders(hs, bs, 0), [0, lo, lo, lo + 80, lo + 396])
  {
    var bs := W6(lo, r, true, true);
    assert Released(bs, 0) == W6(lo, r, false, true);
  }

  lemma Free12(lo: nat, r: nat, hs: seq<Header>)
    requires Prevs(hs, [0, lo, lo, lo + 80, lo + 396])
    ensures var bs := W6(lo, r, false, true);
            && LiveIndex(bs, lo + 412) == 3 && Released(bs, 3) == W7(lo, r)
            && |ReleasedHeaders(hs, bs, 3)| == 4 && ReleasedHeaders(hs, bs, 3)[1].prev == lo
            && ReleasedHeaders(hs, bs, 3)[0].prev == 0
  {
    var bs := W6(lo, r, false, true);
    assert LiveIndex(bs[1..][1..][1..], lo + 412) == 0;
    assert LiveIndex(bs[1..][1..], lo + 412) == 1;
    assert LiveIndex(bs[1..], lo + 412) == 2;
  }

  // ----- the run -----

  /** x = malloc(64); y = malloc(300); n = malloc(4); free(y) */
  method Calls1To4(h: Heap, ghost r: nat) returns (x: nat, n: nat)
    requires h.Valid() && !h.relinks && r > 4 && h.blocks == W0(h.lo, r)
    modifies h, h.mem
    ensures h.Sound() && h.blocks == W3(h.lo, r, false) && Prevs(h.headers, [0, h.lo, h.lo + 80, h.lo + 396])
    ensures x == h.lo + 16 && n == h.lo + 412
  {
    var y;
    x, y, n := Calls1To3(h, r);
    Free4(h.lo, r);
    assert PointsBack(h.headers[1], h.blocks, 1);
    assert h.blocks[0].addr == h.headers[1].prev;
    BackUpNames(h.blocks, h.headers, h.lo, h.hi, 1);
    h.Free(y);
    AllPrevs(h.headers, h.blocks, h.lo, r);
  }

  lemma AllPrevs(hs: seq<Header>, bs: seq<Block>, lo: nat, r: nat)
    requires bs == W3(lo, r, false) && Linked(hs, bs)
    ensures Prevs(hs, [0, lo, lo + 80, lo + 396])
  {
    assert PointsBack(hs[0], bs, 0) && PointsBack(hs[1], bs, 1) && PointsBack(hs[2], bs, 2) && PointsBack(hs[3], bs, 3);
  }

  method Calls1To3(h: Heap, ghost r: nat) returns (x: nat, y: nat, n: nat)
    requires h.Valid() && !h.relinks && r > 4 && h.blocks == W0(h.lo, r)
    modifies h, h.mem
    ensures h.Valid() && h.blocks == W3(h.lo, r, true)
    ensures x == h.lo + 16 && y == h.lo + 96 && n == h.lo + 412
  {
    ghost var lo := h.lo;
    Alloc1(lo, r);
    x := h.Malloc(64);
    Alloc2(lo, r);
    y := h.Malloc(300);
    Alloc3(lo, r);
    n := h.Malloc(4);
  }

  /** d = malloc(260), which loses n's back link; e = malloc(24) */
  method Calls5To6(h: Heap, ghost r: nat) returns (d: nat)
    requires h.Sound() && !h.relinks && h.blocks == W3(h.lo, r, false)
    requires Prevs(h.headers, [0, h.lo, h.lo + 80, h.lo + 396])
    modifies h, h.mem
    ensures h.Sound() && h.blocks == W4(h.lo, r, true, true) && d == h.lo + 96
    ensures Prevs(h.headers, [0, h.lo, h.lo + 80, h.lo + 80, h.lo + 396])
  {
    Alloc5(h.lo, r, h.headers);
    d := h.Malloc(260);
    Alloc6(h.lo, r, h.headers);
    var e := h.Malloc(24);
  }

  /** free(d); free(x), which merges away the block that n's header names */
  method Calls7To8(h: Heap, x: nat, d: nat, ghost r: nat)
    requires h.Sound() && !h.relinks && h.blocks == W4(h.lo, r, true, true) && x == h.lo + 16 && d == h.lo + 96
    requires Prevs(h.headers, [0, h.lo, h.lo + 80, h.lo + 80, h.lo + 396])
    modifies h, h.mem
    ensures h.Sound() && h.blocks == W5(h.lo, r) && Prevs(h.headers, [0, h.lo, h.lo + 80, h.lo + 396])
  {
    Call7(h, d, r);
    Free8(h.lo, r, h.headers);
    h.Free(x);
  }

  method Call7(h: Heap, d: nat, ghost r: nat)
    requires h.Sound() && !h.relinks && h.blocks == W4(h.lo, r, true, true) && d == h.lo + 96
    requires Prevs(h.headers, [0, h.lo, h.lo + 80, h.lo + 80, h.lo + 396])
    modifies h, h.mem
    ensures h.Sound() && h.blocks == W4(h.lo, r, false, true)
    ensures Prevs(h.headers, [0, h.lo, h.lo + 80, h.lo + 80, h.lo + 396])
  {
    Free7(h.lo, r, h.headers);
    assert h.blocks[0].addr == h.headers[1].prev;
    BackUpNames(h.blocks, h.headers, h.lo, h.hi, 1);
    h.Free(d);
  }

  /** f = malloc(68), whose leftover's header lies four bytes behind the dead one; l = malloc(256), which takes
      the leftover; free(f) */
  method Calls9To11(h: Heap, ghost r: nat)
    requires h.Sound() && !h.relinks && h.blocks == W5(h.lo, r)
    requires Prevs(h.headers, [0, h.lo, h.lo + 80, h.lo + 396])
    modifies h, h.mem
    ensures h.Sound() && h.blocks == W6(h.lo, r, false, true)
    ensures Prevs(h.headers, [0, h.lo, h.lo, h.lo + 80, h.lo + 396])
  {
    var f := Calls9To10(h, r);
    Free11(h.lo, r, h.headers);
    h.Free(f);
  }

  method Calls9To10(h: Heap, ghost r: nat) returns (f: nat)
    requires h.Sound() && !h.relinks && h.blocks == W5(h.lo, r)
    requires Prevs(h.headers, [0, h.lo, h.lo + 80, h.lo + 396])
    modifies h, h.mem
    ensures h.Sound() && h.blocks == W6(h.lo, r, true, true) && f == h.lo + 16
    ensures Prevs(h.headers, [0, h.lo, h.lo, h.lo + 80, h.lo + 396])
  {
    Alloc9(h.lo, r, h.headers);
    f := h.Malloc(68);
    Alloc10(h.lo, r, h.headers);
    var l := h.Malloc(256);
  }

  /** free(n) goes through the dead header, which by now is a part of l's. */
  method Call12(h: Heap, n: nat, ghost r: nat)
    requires r >= 8 && h.Sound() && h.blocks == W6(h.lo, r, false, true) && n == h.lo + 412
    requires Prevs(h.headers, [0, h.lo, h.lo, h.lo + 80, h.lo + 396])
    modifies h, h.mem
    ensures Wrecked(h.mem[..], h.lo)
  {
    ghost var m := Foreseen(h, h.mem[..], h.blocks, h.headers, n, r);
    h.Free(n);
  }

  lemma Foreseen(h: Heap, m: seq<byte>, bs: seq<Block>, hs: seq<Header>, n: nat, r: nat) returns (m': seq<byte>)
    requires r >= 8 && h.Sound() && m == h.mem[..] && bs == h.blocks && hs == h.headers
    requires bs == W6(h.lo, r, false, true) && Prevs(hs, [0, h.lo, h.lo, h.lo + 80, h.lo + 396]) && n == h.lo + 412
    ensures FreeReach(m, n) && m' == FreeBytes(m, n) && Wrecked(m', h.lo) && LiveIndex(bs, n) < |bs|
  {
    m' := WreckLater(m, bs, hs, h.lo, h.hi, r, n);
    Find12(bs, h.lo, r);
  }

  lemma Find12(bs: seq<Block>, lo: nat, r: nat)
    requires bs == W6(lo, r, false, true)
    ensures LiveIndex(bs, lo + 412) < |bs|
  {
    assert LiveIndex(bs[1..][1..][1..], lo + 412) == 0;
    assert LiveIndex(bs[1..][1..], lo + 412) == 1;
    assert LiveIndex(bs[1..], lo + 412) == 2;
  }

  lemma WreckLater(m: seq<byte>, bs: seq<Block>, hs: seq<Header>, lo: nat, hi: nat, r: nat, n: nat)
    returns (m': seq<byte>)
    requires Placed(m, bs, lo, hi) && View(m, bs, hs) && Chained(hs, bs) && bs == W6(lo, r, false, true) && r >= 8
    requires Prevs(hs, [0, lo, lo, lo + 80, lo + 396]) && n == lo + 412
    ensures FreeReach(m, n) && m' == FreeBytes(m, n) && Wrecked(m', lo)
  {
    m' := WreckBytes(m, ReleaseBytes(m, lo + 396), lo + 396, n, bs, hs, lo, hi, r);
  }

  lemma WreckBytes(m: seq<byte>, m1: seq<byte>, a: nat, n: nat, bs: seq<Block>, hs: seq<Header>,
                   lo: nat, hi: nat, r: nat) returns (m': seq<byte>)
    requires Placed(m, bs, lo, hi) && View(m, bs, hs) && Chained(hs, bs) && bs == W6(lo, r, false, true) && r >= 8
    requires Prevs(hs, [0, lo, lo, lo + 80, lo + 396]) && a == lo + 396 && m1 == ReleaseBytes(m, a) && n == a + HEADER
    ensures FreeReach(m, n) && m' == FreeBytes(m, n)
    ensures Wrecked(m', lo)
  {
    WreckRoom(m, bs, lo, hi, r);
    WreckFirst(m, m1, a, bs, hs, lo, hi, r);
    m' := WreckSecond(m, m1, lo, a, n);
  }

  lemma WreckRoom(m: seq<byte>, bs: seq<Block>, lo: nat, hi: nat, r: nat)
    requires Placed(m, bs, lo, hi) && bs == W6(lo, r, false, true) && r >= 8
    ensures 4 <= lo && lo + 440 < TWO32 && lo + 412 <= |m| && bs[3].addr == lo + 396
  {
    LinksReal(m, bs, lo, hi, 3);
    LinksReal(m, bs, lo, hi, 4);
  }

  /** What free finds after its first half. */
  lemma WreckFirst(m: seq<byte>, m1: seq<byte>, a: nat, bs: seq<Block>, hs: seq<Header>, lo: nat, hi: nat, r: nat)
    requires Placed(m, bs, lo, hi) && View(m, bs, hs) && Chained(hs, bs) && bs == W6(lo, r, false, true)
    requires Prevs(hs, [0, lo, lo, lo + 80, lo + 396]) && a == bs[3].addr && m1 == ReleaseBytes(m, a)
    ensures MergeReach(WithLive(m, a, false), a) && HeaderAt(m1, a).prev == lo + 80
    ensures HeaderAt(m1, lo) == Header(0, lo + 84, 68, false)
    ensures HeaderAt(m1, lo + 84) == Header(lo, lo + 356, 256, true)
  {
    FirstFacts(m, m1, bs, hs, lo, hi, 3);
    WreckView(m, m1, bs, hs, lo, hi, r);
    WreckHeaders(m1, W7(lo, r), ReleasedHeaders(hs, bs, 3), lo, r);
  }

  lemma WreckView(m: seq<byte>, m1: seq<byte>, bs: seq<Block>, hs: seq<Header>, lo: nat, hi: nat, r: nat)
    requires Placed(m, bs, lo, hi) && View(m, bs, hs) && Chained(hs, bs) && bs == W6(lo, r, false, true)
    requires Prevs(hs, [0, lo, lo, lo + 80, lo + 396]) && m1 == ReleaseBytes(m, bs[3].addr)
    ensures var rh := ReleasedHeaders(hs, bs, 3);
            View(m1, W7(lo, r), rh) && Chained(rh, W7(lo, r)) && rh[0].prev == 0 && rh[1].prev == lo
  {
    FirstHalf(m, bs, hs, lo, hi, 3);
    Free12(lo, r, hs);
  }

  lemma WreckHeaders(m: seq<byte>, bs: seq<Block>, hs: seq<Header>, lo: nat, r: nat)
    requires View(m, bs, hs) && Chained(hs, bs) && bs == W7(lo, r) && hs[0].prev == 0 && hs[1].prev == lo
    ensures HeaderAt(m, lo) == Header(0, lo + 84, 68, false)
    ensures HeaderAt(m, lo + 84) == Header(lo, lo + 356, 256, true)
  {
    HeaderOf(m, bs, hs, 0);
    HeaderOf(m, bs, hs, 1);
  }

  lemma WreckSecond(m: seq<byte>, m1: seq<byte>, lo: nat, a: nat, n: nat) returns (m': seq<byte>)
    requires 4 <= lo && lo + 440 < TWO32 && a == lo + 396 && n == a + HEADER <= |m|
    requires MergeReach(WithLive(m, a, false), a) && m1 == ReleaseBytes(m, a) && HeaderAt(m1, a).prev == lo + 80
    requires HeaderAt(m1, lo) == Header(0, lo + 84, 68, false)
    requires HeaderAt(m1, lo + 84) == Header(lo, lo + 356, 256, true)
    ensures FreeReach(m, n) && m' == FreeBytes(m, n)
    ensures Wrecked(m', lo)
  {
    m' := MergeBytes(m1, lo + 80);
    FourBehind(m1, lo + 80);
    MergeAbsorbs(m1, lo + 80, HeaderAt(m1, lo + 80), HeaderAt(m1, lo), lo, lo + 84);
    FreeReads(m, a, lo + 80, false);
    StrayAbsorb(m1, m', lo, lo + 84, lo + 356, 68);
  }

  /** Twelve calls of the source as written, on a fresh heap with room: x = malloc(64); y = malloc(300);
      n = malloc(4); free(y); d = malloc(260); e = malloc(24); free(d); free(x); f = malloc(68);
      l = malloc(256); free(f); free(n). The last goes through the header that d once had, whose place l's
      header has taken in part, and changes l's next field. No list of blocks is what memory holds then. */
  method WreckRun(mem: array<byte>, heapStart: u32, heapEnd: u32) returns (h: Heap)
    requires 0 < heapStart <= 0xFFFF_FFFC && Align4(heapStart) + 512 <= heapEnd <= mem.Length
    requires heapEnd < TWO32
    modifies mem
    ensures fresh(h) && h.mem == mem && !h.relinks
    ensures HeaderAt(mem[..], h.lo + 84) == Header(h.lo + 84, h.lo + 440, 256, true)
    ensures forall bs, hs :: !Described(mem[..], bs, hs, h.lo, h.hi)
  {
    h := new Heap(mem, heapStart, heapEnd, false);
    ghost var r := heapEnd - h.lo - 432;
    var x, n := Calls1To4(h, r);
    var d := Calls5To6(h, r);
    Calls7To8(h, x, d, r);
    Calls9To11(h, r);
    Call12(h, n, r);
    forall bs, hs ensures !Described(mem[..], bs, hs, h.lo, h.hi) {
      NothingDescribes(mem[..], bs, hs, h.lo, h.hi);
    }
  }
}

/** malloc, realloc and free of libc/src/stdlib/heap.c, in place over the memory they manage. */
module Heap {
  import opened Bytes
  import opened Memory
  import opened HeapBlocks
  import opened HeapMemory
  import opened HeapBytes
  import opened HeapLinks
  import opened HeapWhole
  import opened HeapHarm

  /** The allocator's state. `mem` is the machine's memory, indexed by address; the headers live in it.
      `relinks` selects the split: false is the source as written, true additionally re-points the prev
      field of the block behind the leftover. `blocks` is the ghost list the headers describe, `headers` what
      those headers hold. */
  class Heap {
    const mem: array<byte>
    const lo: nat
    const hi: nat
    const relinks: bool
    var head: nat
    ghost var blocks: seq<Block>
    ghost var headers: seq<Header>

    ghost predicate Region()
      reads this
    {
      4 <= lo && hi <= mem.Length && hi < TWO32 && head == lo
    }

    /** What holds with or without the repair: the next chain tiles the region. */
    ghost predicate Sound()
      reads this, mem
    {
      && Region()
      && Tiles(blocks, lo, hi) && Aligned(blocks)
      && View(mem[..], blocks, headers) && Chained(headers, blocks)
      && headers[0].prev == 0
    }

    /** The full invariant. */
    ghost predicate Valid()
      reads this, mem
    {
      Sound() && Coalesced(blocks) && Linked(headers, blocks)
    }

    /** init_malloc on the region the linker script reserves. */
    constructor (mem: array<byte>, heapStart: u32, heapEnd: u32, relinks: bool)
      requires 0 < heapStart && Align4(heapStart) + HEADER <= heapEnd <= mem.Length
      requires heapStart <= 0xFFFF_FFFC
      modifies mem
      ensures this.mem == mem && this.relinks == relinks
      ensures lo == Align4(heapStart) && hi == heapEnd
      ensures Valid() && blocks == Initial(lo, hi)
      ensures Keeps(old(mem[..]), mem[..], {}, lo, hi)
    {
      this.mem := mem;
      this.lo := Align4(heapStart);
      this.hi := heapEnd;
      this.relinks := relinks;
      this.head := Align4(heapStart);
      new;
      blocks := Initial(lo, hi);
      headers := [Header(0, 0, hi - lo - HEADER, false)];
      ghost var m := mem[..];
      SetHeader(head, 0, 0, hi - lo - HEADER, false);
      InitialHolds(lo, hi);
      assert ReadsAs(mem[..], blocks, headers, 0);
      OnlyHeaderKeeps(m, mem[..], blocks, lo, hi, 0, {});
    }

    // ----- header fields, read and written one at a time -----

    method Load(a: nat) returns (h: Header)
      requires a + HEADER <= mem.Length
      ensures h == HeaderAt(mem[..], a)
    {
      var prev: int := Word(a);
      var next: int := Word(a + 4);
      var size: int := Word(a + 8);
      h := Header(prev, next, size, mem[a + 12] != 0);
    }

    function Word(a: nat): u32
      requires a + 4 <= mem.Length
      reads mem
    {
      Le32(mem[..], a)
    }

    method Store32(a: nat, v: u32)
      requires a + 4 <= mem.Length
      modifies mem
      ensures mem[..] == Splice(old(mem[..]), a, Enc32(v))
    {
      var e := Enc32(v);
      mem[a], mem[a + 1], mem[a + 2], mem[a + 3] := e[0], e[1], e[2], e[3];
    }

    method SetPrev(a: nat, v: u32)
      requires a + HEADER <= mem.Length
      modifies mem
      ensures OnlyHeader(old(mem[..]), mem[..], a)
      ensures HeaderAt(mem[..], a) == old(HeaderAt(mem[..], a)).(prev := v)
      ensures mem[..] == WithPrev(old(mem[..]), a, v)
    {
      PutPrev(mem[..], a, v);
      PutIsField(mem[..], a, v);
      Store32(a, v);
    }

    method SetNext(a: nat, v: u32)
      requires a + HEADER <= mem.Length
      modifies mem
      ensures OnlyHeader(old(mem[..]), mem[..], a)
      ensures HeaderAt(mem[..], a) == old(HeaderAt(mem[..], a)).(next := v)
      ensures mem[..] == WithNext(old(mem[..]), a, v)
    {
      PutNext(mem[..], a, v);
      PutIsField(mem[..], a + 4, v);
      Store32(a + 4, v);
    }

    method SetSize(a: nat, v: u32)
      requires a + HEADER <= mem.Length
      modifies mem
      ensures OnlyHeader(old(mem[..]), mem[..], a)
      ensures HeaderAt(mem[..], a) == old(HeaderAt(mem[..], a)).(size := v)
      ensures mem[..] == WithSize(old(mem[..]), a, v)
    {
      PutSize(mem[..], a, v);
      PutIsField(mem[..], a + 8, v);
      Store32(a + 8, v);
    }

    method SetLive(a: nat, live: bool)
      requires a + HEADER <= mem.Length
      modifies mem
      ensures OnlyHeader(old(mem[..]), mem[..], a)
      ensures HeaderAt(mem[..], a) == old(HeaderAt(mem[..], a)).(live := live)
      ensures mem[..] == WithLive(old(mem[..]), a, live)
    {
      PutLive(mem[..], a, live);
      mem[a + 12] := if live then 1 else 0;
      assert mem[..] == old(mem[..])[a + 12 := if live then 1 else 0];
    }
  
    /** All four fields, in the order init_malloc and splitMemorySpace write them. */
    method SetHeader(a: nat, prev: u32, next: u32, size: u32, live: bool)
      requires a + HEADER <= mem.Length
      modifies mem
      ensures OnlyHeader(old(mem[..]), mem[..], a)
      ensures HeaderAt(mem[..], a) == Header(prev, next, size, live)
    {
      ghost var m0 := mem[..];
      SetPrev(a, prev);
      ghost var m1 := mem[..];
      SetNext(a, next);
      ghost var m2 := mem[..];
      OnlyHeaderTwice(m0, m1, m2, a);
      SetSize(a, size);
      ghost var m3 := mem[..];
      OnlyHeaderTwice(m0, m2, m3, a);
      SetLive(a, live);
      OnlyHeaderTwice(m0, m3, mem[..], a);
    }

    // ----- the same, on the headers of a known list -----

    method Read(a: nat, ghost bs: seq<Block>, ghost hs: seq<Header>, ghost k: nat) returns (h: Header)
      requires Region() && Tiles(bs, lo, hi) && k < |bs| && bs[k].addr == a
      requires View(mem[..], bs, hs)
      ensures h == hs[k]
    {
      Within(bs, lo, hi, k);
      assert ReadsAs(mem[..], bs, hs, k);
      h := Load(a);
    }

    method PutBack(a: nat, v: u32, ghost bs: seq<Block>, ghost hs: seq<Header>, ghost k: nat)
      requires Region() && Tiles(bs, lo, hi) && k < |bs| && bs[k].addr == a
      requires View(mem[..], bs, hs)
      modifies mem
      ensures View(mem[..], bs, hs[k := hs[k].(prev := v)])
      ensures Keeps(old(mem[..]), mem[..], LiveBlocks(bs), lo, hi)
    {
      ghost var m := mem[..];
      Within(bs, lo, hi, k);
      assert ReadsAs(m, bs, hs, k);
      SetPrev(a, v);
      ViewUpdate(m, mem[..], bs, hs, lo, hi, k, hs[k].(prev := v));
      OnlyHeaderKeeps(m, mem[..], bs, lo, hi, k, LiveBlocks(bs));
    }

    method PutSpan(a: nat, next: u32, size: u32, ghost bs: seq<Block>, ghost hs: seq<Header>, ghost k: nat)
      requires Region() && Tiles(bs, lo, hi) && k < |bs| && bs[k].addr == a
      requires View(mem[..], bs, hs)
      modifies mem
      ensures View(mem[..], bs, hs[k := hs[k].(next := next, size := size)])
      ensures Keeps(old(mem[..]), mem[..], LiveBlocks(bs), lo, hi)
    {
      ghost var m := mem[..];
      Within(bs, lo, hi, k);
      assert ReadsAs(m, bs, hs, k);
      SetNext(a, next);
      ghost var m1 := mem[..];
      SetSize(a, size);
      OnlyHeaderTwice(m, m1, mem[..], a);
      ViewUpdate(m, mem[..], bs, hs, lo, hi, k, hs[k].(next := next, size := size));
      OnlyHeaderKeeps(m, mem[..], bs, lo, hi, k, LiveBlocks(bs));
    }

    method PutTag(a: nat, live: bool, ghost bs: seq<Block>, ghost hs: seq<Header>, ghost k: nat)
      requires Region() && Tiles(bs, lo, hi) && k < |bs| && bs[k].addr == a
      requires View(mem[..], bs, hs)
      modifies mem
      ensures View(mem[..], bs, hs[k := hs[k].(live := live)]) && OnlyHeader(old(mem[..]), mem[..], a)
      ensures Keeps(old(mem[..]), mem[..], LiveBlocks(bs), lo, hi)
    {
      ghost var m := mem[..];
      Within(bs, lo, hi, k);
      assert ReadsAs(m, bs, hs, k);
      SetLive(a, live);
      ViewUpdate(m, mem[..], bs, hs, lo, hi, k, hs[k].(live := live));
      OnlyHeaderKeeps(m, mem[..], bs, lo, hi, k, LiveBlocks(bs));
    }

    method PutNew(a: nat, prev: u32, next: u32, size: u32, ghost bs: seq<Block>, ghost hs: seq<Header>, ghost k: nat)
      requires Region() && Tiles(bs, lo, hi) && k < |bs| && bs[k].addr == a
      requires |hs| == |bs| && forall i :: 0 <= i < |bs| && i != k ==> ReadsAs(mem[..], bs, hs, i)
      modifies mem
      ensures View(mem[..], bs, hs[k := Header(prev, next, size, false)])
      ensures Keeps(old(mem[..]), mem[..], LiveBlocks(bs), lo, hi)
    {
      ghost var m := mem[..];
      Within(bs, lo, hi, k);
      SetHeader(a, prev, next, size, false);
      ViewUpdate(m, mem[..], bs, hs, lo, hi, k, Header(prev, next, size, false));
      OnlyHeaderKeeps(m, mem[..], bs, lo, hi, k, LiveBlocks(bs));
    }

    // ----- find_free_space -----

    method FindFreeSpace(size: u32) returns (a: nat)
      requires Sound()
      ensures var k := FirstFit(blocks, size); a == if k == |blocks| then 0 else blocks[k].addr
    {
      var curr := head;
      ghost var k := 0;
      var h := Read(curr, blocks, headers, 0);
      LinksReal(mem[..], blocks, lo, hi, 0);
      assert Describes(headers[0], blocks, 0);
      while h.next != 0 && (h.live || h.size < size)
        invariant k < |blocks| && curr == blocks[k].addr
        invariant Describes(h, blocks, k)
        invariant h.next != 0 <==> k + 1 < |blocks|
        invariant forall i :: 0 <= i < k ==> blocks[i].live || blocks[i].size < size
        decreases |blocks| - k
      {
        curr := h.next;
        k := k + 1;
        LinksReal(mem[..], blocks, lo, hi, k);
        h := Read(curr, blocks, headers, k);
        assert Describes(headers[k], blocks, k);
      }
      if h.size < size || h.live {
        return 0;
      }
      return curr;
    }

    // ----- mergeNextMemorySpace -----

    /** On any memory: exactly these writes. */
    method MergeNextMemorySpace(a: nat) returns (merged: bool)
      requires MergeReach(mem[..], a)
      modifies mem
      ensures mem[..] == MergeBytes(old(mem[..]), a)
    {
      var h := Load(a);
      if h.next != 0 {
        var n := Load(h.next);
        if !n.live {
          assert n.next < TWO32;
          Absorb(a, h.next, n.next);
          return true;
        }
      }
      return false;
    }

    /** Its writes. */
    method Absorb(a: nat, next: nat, nextNext: u32)
      requires a + HEADER <= mem.Length && a < TWO32 && next + HEADER <= mem.Length
      requires nextNext != 0 ==> nextNext + HEADER <= mem.Length
      modifies mem
      ensures mem[..] == AbsorbBytes(old(mem[..]), a, next, nextNext)
    {
      ghost var m := mem[..];
      Relink(a, nextNext);
      ghost var m1 := mem[..];
      var size := AddSizes(a, next);
      PutSum(a, size);
      AbsorbIs(m, m1, mem[..], a, next, nextNext, size);
    }

    method AddSizes(a: nat, next: nat) returns (size: nat)
      requires a + HEADER <= mem.Length && next + HEADER <= mem.Length
      ensures size == HeaderAt(mem[..], a).size + HEADER + HeaderAt(mem[..], next).size
    {
      var h := Load(a);
      var n := Load(next);
      size := h.size + HEADER + n.size;
    }

    method Relink(a: nat, nextNext: u32)
      requires a + HEADER <= mem.Length && a < TWO32 && (nextNext != 0 ==> nextNext + HEADER <= mem.Length)
      modifies mem
      ensures mem[..] == Relinked(old(mem[..]), a, nextNext)
    {
      if nextNext != 0 {
        PutWord(nextNext, a);
      }
      PutWord(a + 4, nextNext);
    }

    method PutSum(a: nat, size: nat)
      requires a + HEADER <= mem.Length
      modifies mem
      ensures mem[..] == WithSize(old(mem[..]), a, size)
    {
      PutWraps(mem[..], a + 8, size);
      PutWord(a + 8, size % TWO32);
    }

    method PutWord(a: nat, v: u32)
      requires a + 4 <= mem.Length
      modifies mem
      ensures mem[..] == Put32(old(mem[..]), a, v)
    {
      PutIsField(mem[..], a, v);
      Store32(a, v);
    }

    /** On the headers of a list: the merge of the list. */
    method MergeInList(a: nat, ghost bs: seq<Block>, ghost hs: seq<Header>, ghost k: nat)
      returns (ghost hs': seq<Header>)
      requires Region() && Tiles(bs, lo, hi) && k < |bs| && bs[k].addr == a
      requires View(mem[..], bs, hs) && Chained(hs, bs)
      modifies mem
      ensures hs' == MergeHeaders(hs, bs, k) && View(mem[..], Merge(bs, k), hs')
      ensures Keeps(old(mem[..]), mem[..], LiveBlocks(bs), lo, hi)
    {
      MergeBytesView(mem[..], bs, hs, lo, hi, k);
      hs' := MergeHeaders(hs, bs, k);
      var merged := MergeNextMemorySpace(a);
    }

    // ----- splitMemorySpace -----

    /** With `relinks` the block behind the leftover is pointed back to it. */
    method SplitMemorySpace(a: nat, size: u32, ghost bs: seq<Block>, ghost hs: seq<Header>, ghost k: nat)
      returns (split: bool, ghost hs': seq<Header>)
      requires Region() && Tiles(bs, lo, hi) && k < |bs| && bs[k].addr == a
      requires !bs[k].live && size <= bs[k].size
      requires View(mem[..], bs, hs) && Chained(hs, bs)
      modifies mem
      ensures split <==> bs[k].size > size + HEADER + 4
      ensures !split ==> mem[..] == old(mem[..])
      ensures hs' == SplitHeaders(hs, bs, k, size, relinks)
      ensures View(mem[..], Split(bs, k, size), hs')
      ensures Keeps(old(mem[..]), mem[..], LiveBlocks(bs), lo, hi)
    {
      LinksReal(mem[..], bs, lo, hi, k);
      assert Describes(hs[k], bs, k);
      var h := Read(a, bs, hs, k);
      if h.size > (size + HEADER + 4) % TWO32 {
        assert size + HEADER + 4 < TWO32;
        ghost var r := Cut(bs, k, size);
        CutTiles(bs, lo, hi, k, size);
        ghost var cut := CutMemory(a, h.size, h.next, size, bs, hs, k);
        CutHolds(hs, bs, k, size, relinks);
        ghost var m1 := mem[..];
        hs' := MergeInList(a + HEADER + size, r, cut, k + 1);
        assert k + 1 < |bs| ==> r[k + 2] == bs[k + 1];
        CutLive(bs, k, size);
        KeepsFewer(m1, mem[..], LiveBlocks(r), LiveBlocks(bs), lo, hi);
        KeepsTransitive(old(mem[..]), m1, mem[..], LiveBlocks(bs), lo, hi);
        return true, hs';
      }
      return false, hs;
    }

    /** The writes of splitMemorySpace before it tries to merge the leftover. */
    method CutMemory(a: nat, oldSize: nat, next: nat, size: u32,
                     ghost bs: seq<Block>, ghost hs: seq<Header>, ghost k: nat)
      returns (ghost hs': seq<Header>)
      requires Region() && Tiles(bs, lo, hi) && k < |bs| && bs[k].addr == a
      requires !bs[k].live && size + HEADER <= bs[k].size
      requires oldSize == bs[k].size && next == NextAddr(bs, k)
      requires View(mem[..], bs, hs) && next == hs[k].next
      modifies mem
      ensures hs' == CutHeaders(hs, bs, k, size, relinks)
      ensures View(mem[..], Cut(bs, k, size), hs')
      ensures Keeps(old(mem[..]), mem[..], LiveBlocks(bs), lo, hi)
    {
      ghost var m0 := mem[..];
      ghost var r := Cut(bs, k, size);
      LinksReal(mem[..], bs, lo, hi, k);
      CutTiles(bs, lo, hi, k, size);
      var rest := a + HEADER + size;
      ghost var leftover := Header(a, next, oldSize - size - HEADER, false);
      ViewCut(m0, bs, hs, k, size, leftover);
      ghost var hs0 := hs[..k + 1] + [leftover] + hs[k + 1..];
      PutNew(rest, a, next, oldSize - size - HEADER, r, hs0, k + 1);
      assert hs0[k + 1 := leftover] == hs0;
      ghost var m1 := mem[..];
      PutSpan(a, rest, size, r, hs0, k);
      hs' := hs0[k := hs0[k].(next := rest, size := size)];
      ghost var m2 := mem[..];
      KeepsTransitive(m0, m1, m2, LiveBlocks(r), lo, hi);
      if relinks && next != 0 {
        PutBack(next, rest, r, hs', k + 2);
        hs' := hs'[k + 2 := hs'[k + 2].(prev := rest)];
        KeepsTransitive(m0, m2, mem[..], LiveBlocks(r), lo, hi);
      }
      CutLive(bs, k, size);
      KeepsFewer(m0, mem[..], LiveBlocks(r), LiveBlocks(bs), lo, hi);
      assert hs' == CutHeaders(hs, bs, k, size, relinks);
    }

    // ----- malloc -----

    /** The source is this method with `relinks` false: its list is always the right one, and its prev
        fields stay right exactly when the split loses no back link. */
    method Malloc(size: u32) returns (p: nat)
      requires Sound()
      modifies this, mem
      ensures Sound()
      ensures blocks == MallocBlocks(old(blocks), size)
      ensures var k := FirstFit(old(blocks), Align4(size));
              p == if k == |old(blocks)| then 0 else old(blocks)[k].Payload()
      ensures headers == MallocHeaders(old(headers), old(blocks), size, relinks)
      ensures p == 0 ==> mem[..] == old(mem[..]) && headers == old(headers)
      ensures old(Linked(headers, blocks)) ==>
                (Linked(headers, blocks) <==> relinks || !LosesBackLink(old(blocks), size))
      ensures p != 0 && old(Linked(headers, blocks)) ==> Mends(headers, blocks, FirstFit(old(blocks), Align4(size)))
      ensures p != 0 && old(blocks)[FirstFit(old(blocks), Align4(size))].size <= Align4(size) + HEADER + 4 ==>
                OnlyHeader(old(mem[..]), mem[..], p - HEADER)
      ensures Keeps(old(mem[..]), mem[..], LiveBlocks(old(blocks)), lo, hi)
    {
      var n := Align4(size);
      ghost var bs := blocks;
      ghost var k := FirstFit(bs, n);
      MallocTiles(bs, lo, hi, size);
      var a := FindFreeSpace(n);
      if k < |bs| {
        LinksReal(mem[..], bs, lo, hi, k);
      }
      if a == 0 {
        return 0;
      }
      Allot(a, n, k);
      p := a + HEADER;
    }

    /** The rest of malloc, once a block is found: split it and mark it allocated. */
    method Allot(a: nat, n: u32, ghost k: nat)
      requires Sound() && k < |blocks| && blocks[k].addr == a && !blocks[k].live && n <= blocks[k].size && n % 4 == 0
      modifies this, mem
      ensures Sound() && k < |Split(old(blocks), k, n)| && blocks == Claim(Split(old(blocks), k, n), k)
      ensures var hs := SplitHeaders(old(headers), old(blocks), k, n, relinks);
              k < |hs| && headers == hs[k := hs[k].(live := true)]
      ensures old(Linked(headers, blocks)) ==>
                && Mends(headers, blocks, k)
                && (Linked(headers, blocks)
                    <==> relinks || !(&& old(blocks)[k].size > n + HEADER + 4
                                   && k + 1 < |old(blocks)| && old(blocks)[k + 1].live))
      ensures old(blocks)[k].size <= n + HEADER + 4 ==> OnlyHeader(old(mem[..]), mem[..], a)
      ensures Keeps(old(mem[..]), mem[..], LiveBlocks(old(blocks)), lo, hi)
    {
      ghost var bs := blocks;
      SplitOwn(a, n, k);
      ghost var m1, s := mem[..], blocks;
      Retag(a, true, k);
      SplitLive(bs, k, n);
      KeepsFewer(m1, mem[..], LiveBlocks(s), LiveBlocks(bs), lo, hi);
      KeepsTransitive(old(mem[..]), m1, mem[..], LiveBlocks(bs), lo, hi);
    }

    /** Split a free block of this heap, keeping the ghost list up to date. */
    method SplitOwn(a: nat, n: u32, ghost k: nat)
      requires Sound() && k < |blocks| && blocks[k].addr == a && !blocks[k].live && n <= blocks[k].size && n % 4 == 0
      modifies this, mem
      ensures Sound() && blocks == Split(old(blocks), k, n)
      ensures headers == SplitHeaders(old(headers), old(blocks), k, n, relinks)
      ensures k < |blocks| && blocks[k].addr == a
      ensures old(blocks)[k].size <= n + HEADER + 4 ==> mem[..] == old(mem[..])
      ensures old(Linked(headers, blocks)) ==>
                (Linked(headers, blocks)
                 <==> relinks || !(&& old(blocks)[k].size > n + HEADER + 4
                                   && k + 1 < |old(blocks)| && old(blocks)[k + 1].live))
      ensures old(Linked(headers, blocks)) ==> Mends(headers, blocks, k)
      ensures Keeps(old(mem[..]), mem[..], LiveBlocks(old(blocks)), lo, hi)
    {
      if Linked(headers, blocks) {
        SplitMends(headers, blocks, k, n, relinks);
      }
      SplitHead(blocks, k, n);
      SplitTiles(blocks, lo, hi, k, n);
      SplitHolds(headers, blocks, k, n, relinks);
      SplitHead0(headers, blocks, k, n, relinks);
      var split, hs' := SplitMemorySpace(a, n, blocks, headers, k);
      blocks, headers := Split(blocks, k, n), hs';
    }

    /** Set isAllocated of one block of this heap, keeping the ghost list up to date. */
    method Retag(a: nat, live: bool, ghost k: nat)
      requires Sound() && k < |blocks| && blocks[k].addr == a
      modifies this, mem
      ensures Sound() && blocks == old(blocks)[k := old(blocks)[k].(live := live)]
      ensures headers == old(headers)[k := old(headers)[k].(live := live)]
      ensures Linked(headers, blocks) <==> old(Linked(headers, blocks))
      ensures old(Mends(headers, blocks, k)) ==> Mends(headers, blocks, k)
      ensures OnlyHeader(old(mem[..]), mem[..], a)
      ensures Keeps(old(mem[..]), mem[..], LiveBlocks(old(blocks)), lo, hi)
    {
      if Mends(headers, blocks, k) {
        RetagMends(headers, blocks, k, live);
      }
      PutTag(a, live, blocks, headers, k);
      RetagTiles(blocks, lo, hi, k, live);
      RetagAligned(blocks, k, live);
      RetagHolds(headers, blocks, k, live);
      RetagView(mem[..], blocks, headers[k := headers[k].(live := live)], k, live);
      blocks, headers := blocks[k := blocks[k].(live := live)], headers[k := headers[k].(live := live)];
    }

    // ----- free -----

    /** free, for a null pointer or the payload pointer of a live block. Memory changes by exactly these
        writes, whatever the block's prev field holds. When it is null or names a block, not necessarily the
        nearest, they are the free of the list. When it names none, the list is that with the block released,
        and memory still describes it if and only if the stray merge spares the headers. */
    method Free(p: nat)
      requires Sound() && (p != 0 ==> LiveIndex(blocks, p) < |blocks|)
      requires p != 0 ==> NamesBack(LiveIndex(blocks, p)) || FreeReach(mem[..], p)
      modifies this, mem
      ensures p == 0 ==> mem[..] == old(mem[..]) && blocks == old(blocks) && headers == old(headers)
      ensures p != 0 ==> mem[..] == FreeBytes(old(mem[..]), p)
      ensures p != 0 ==>
                var k := LiveIndex(old(blocks), p);
                && blocks == FreeVia(old(blocks), k, old(headers)[k].prev)
                && headers == FreeHeaders(old(headers), old(blocks), k)
      ensures p == 0 || old(NamesBack(LiveIndex(blocks, p))) ==> Sound()
      ensures p != 0 && old(NamesBack(LiveIndex(blocks, p))) ==>
                var k := LiveIndex(old(blocks), p);
                && (old(Mends(headers, blocks, k)) ==> Linked(headers, blocks))
                && Keeps(old(mem[..]), mem[..], LiveBlocks(old(blocks)) - {old(blocks)[k]}, lo, hi)
      ensures p != 0 && !old(NamesBack(LiveIndex(blocks, p))) ==>
                var k := LiveIndex(old(blocks), p);
                && old(headers)[k].prev < TWO32
                && (Sound() <==> Spares(ReleaseBytes(old(mem[..]), old(blocks)[k].addr), old(headers)[k].prev,
                                        Released(old(blocks), k)))
    {
      if p != 0 {
        ghost var k := LiveIndex(blocks, p);
        if NamesBack(k) {
          FreeReaches(mem[..], blocks, headers, lo, hi, k);
        }
        FreeBlock(p, k);
      }
    }

    method FreeBlock(p: nat, ghost k: nat)
      requires Sound() && k < |blocks| && p == blocks[k].Payload() && FreeReach(mem[..], p)
      modifies this, mem
      ensures mem[..] == FreeBytes(old(mem[..]), p)
      ensures blocks == FreeVia(old(blocks), k, old(headers)[k].prev)
      ensures headers == FreeHeaders(old(headers), old(blocks), k)
      ensures old(NamesBack(k)) ==>
                && Sound() && (old(Mends(headers, blocks, k)) ==> Linked(headers, blocks))
                && Keeps(old(mem[..]), mem[..], LiveBlocks(old(blocks)) - {old(blocks)[k]}, lo, hi)
      ensures !old(NamesBack(k)) ==>
                && old(headers)[k].prev < TWO32
                && (Sound() <==> Spares(ReleaseBytes(old(mem[..]), old(blocks)[k].addr), old(headers)[k].prev,
                                        Released(old(blocks), k)))
    {
      ghost var m, m1 := mem[..], ReleaseBytes(mem[..], blocks[k].addr);
      ReleaseAndMerge(p);
      Follow(m, m1, k);
    }

    /** The ghost lists follow the writes of a free. */
    ghost method Follow(m: seq<byte>, m1: seq<byte>, k: nat)
      requires Lists() && View(m, blocks, headers) && k < |blocks|
      requires FreeReach(m, blocks[k].Payload()) && mem[..] == FreeBytes(m, blocks[k].Payload())
      requires m1 == ReleaseBytes(m, blocks[k].addr)
      modifies this`blocks, this`headers
      ensures blocks == FreeVia(old(blocks), k, old(headers)[k].prev)
      ensures headers == FreeHeaders(old(headers), old(blocks), k)
      ensures old(NamesBack(k)) ==>
                && Sound() && (old(Mends(headers, blocks, k)) ==> Linked(headers, blocks))
                && Keeps(m, mem[..], LiveBlocks(old(blocks)) - {old(blocks)[k]}, lo, hi)
      ensures !old(NamesBack(k)) ==>
                && old(headers)[k].prev < TWO32
                && (Sound() <==> Spares(m1, old(headers)[k].prev, Released(old(blocks), k)))
    {
      if NamesBack(k) {
        Settle(m, k);
      } else {
        FreeAstray(m, m1, mem[..], blocks, headers, lo, hi, k);
        SettleAstray(k, Spares(m1, headers[k].prev, Released(blocks, k)));
      }
    }

    /** The prev field of block k is null or names a block that is there once block k is released. */
    ghost predicate NamesBack(k: nat)
      reads this
      requires k < |blocks| && k < |headers|
    {
      Names(blocks, k, headers[k].prev)
    }

    /** When the back link names a block. */
    ghost method Settle(m: seq<byte>, k: nat)
      requires Lists() && View(m, blocks, headers) && k < |blocks| && NamesBack(k)
      requires FreeReach(m, blocks[k].Payload()) && mem[..] == FreeBytes(m, blocks[k].Payload())
      modifies this`blocks, this`headers
      ensures Sound()
      ensures blocks == FreeVia(old(blocks), k, old(headers)[k].prev)
      ensures headers == FreeHeaders(old(headers), old(blocks), k)
      ensures old(Mends(headers, blocks, k)) ==> Linked(headers, blocks)
      ensures Keeps(m, mem[..], LiveBlocks(old(blocks)) - {old(blocks)[k]}, lo, hi)
    {
      FreeOutcome(m, mem[..], blocks, headers, lo, hi, k);
      FreeTiles(blocks, lo, hi, k, headers[k].prev);
      FreeHolds(headers, blocks, k);
      blocks, headers := FreeVia(blocks, k, headers[k].prev), FreeHeaders(headers, blocks, k);
    }

    /** When it names none. */
    ghost method SettleAstray(k: nat, spared: bool)
      requires Lists() && k < |blocks|
      requires View(mem[..], FreeVia(blocks, k, headers[k].prev), FreeHeaders(headers, blocks, k)) <==> spared
      modifies this`blocks, this`headers
      ensures blocks == FreeVia(old(blocks), k, old(headers)[k].prev)
      ensures headers == FreeHeaders(old(headers), old(blocks), k)
      ensures Sound() <==> spared
    {
      FreeTiles(blocks, lo, hi, k, headers[k].prev);
      FreeHolds(headers, blocks, k);
      blocks, headers := FreeVia(blocks, k, headers[k].prev), FreeHeaders(headers, blocks, k);
    }

    /** The body of free. */
    method ReleaseAndMerge(p: nat)
      requires FreeReach(mem[..], p)
      modifies mem
      ensures mem[..] == FreeBytes(old(mem[..]), p)
    {
      var a := p - HEADER;
      SetLive(a, false);
      var _ := MergeNextMemorySpace(a);
      var h := Load(a);
      if h.prev != 0 {
        var back := Load(h.prev);
        if !back.live {
          var _ := MergeNextMemorySpace(h.prev);
        }
      }
    }

    // ----- the full invariant -----

    /** free keeps the full invariant, whichever split is in use, and restores it if the only wrong back
        link is one that the block's own allocation has just lost. */
    method FreeValid(p: nat)
      requires Sound() && Coalesced(blocks) && LiveIndex(blocks, p) < |blocks|
      requires Mends(headers, blocks, LiveIndex(blocks, p))
      modifies this, mem
      ensures Valid()
      ensures var k := LiveIndex(old(blocks), p);
              && blocks == FreeBlocks(old(blocks), k)
              && Keeps(old(mem[..]), mem[..], LiveBlocks(old(blocks)) - {old(blocks)[k]}, lo, hi)
    {
      ghost var k := LiveIndex(blocks, p);
      FreeKeeps(blocks, lo, hi, k);
      assert PointsBack(headers[k], blocks, k);
      assert k > 0 ==> blocks[k - 1].addr == headers[k].prev;
      BackUpNames(blocks, headers, lo, hi, k);
      Free(p);
    }

    // ----- realloc -----

    /** What soundness asks of the ghost lists, whatever memory holds. */
    ghost predicate Lists()
      reads this
    {
      && Region() && Tiles(blocks, lo, hi) && Aligned(blocks)
      && Chained(headers, blocks) && headers[0].prev == 0
    }

    /** A write inside one live block leaves the heap sound. */
    ghost method Touched(m: seq<byte>, k: nat)
      requires Lists() && View(m, blocks, headers) && k < |blocks| && |m| == mem.Length
      requires forall x :: 0 <= x < |m| && !(blocks[k].Payload() <= x < blocks[k].End()) ==> m[x] == mem[x]
      ensures Sound()
      ensures Keeps(m, mem[..], LiveBlocks(blocks) - {blocks[k]}, lo, hi)
    {
      PayloadWrite(m, mem[..], blocks, headers, lo, hi, k);
    }

    /** So does a write outside the region. */
    ghost method TouchedOutside(m: seq<byte>)
      requires Lists() && View(m, blocks, headers) && |m| == mem.Length
      requires forall x :: 0 <= x < |m| && lo <= x < hi ==> m[x] == mem[x]
      ensures Sound()
    {
      OutsideWrite(m, mem[..], blocks, headers, lo, hi);
    }

    /** realloc, with either split: on failure nothing at all changes; on success the new block starts with
        the old content, as much of it as fits, and no other live payload changes. From a whole heap, the
        heap stays whole if and only if the split is repaired or the malloc in it loses no back link. */
    method Realloc(p: nat, size: u32) returns (q: nat)
      requires Sound() && LiveIndex(blocks, p) < |blocks| && CopyFits(blocks, LiveIndex(blocks, p), size)
      requires ReallocNames(headers, blocks, LiveIndex(blocks, p), size, relinks)
      modifies this, mem
      ensures Sound()
      ensures (blocks, headers) == ReallocVia(old(blocks), old(headers), LiveIndex(old(blocks), p), size, relinks)
      ensures var f := FirstFit(old(blocks), Align4(size));
              q == if f == |old(blocks)| then 0 else old(blocks)[f].Payload()
      ensures q == 0 ==> mem[..] == old(mem[..]) && blocks == old(blocks) && headers == old(headers)
      ensures q != 0 ==> var b := old(blocks)[LiveIndex(old(blocks), p)]; var n := Min(b.size, size);
                && CarriesOver(old(mem[..]), mem[..], p, q, n)
                && Keeps(old(mem[..]), mem[..], LiveBlocks(old(blocks)) - {b}, lo, hi)
      ensures old(Valid()) ==> (Valid() <==> relinks || !LosesBackLink(old(blocks), size))
      ensures old(Valid()) && (relinks || !LosesBackLink(old(blocks), size)) ==>
                blocks == ReallocBlocks(old(blocks), LiveIndex(old(blocks), p), size)
    {
      ghost var bs, hs, k := blocks, headers, LiveIndex(blocks, p);
      if Valid() {
        ReallocWhole(bs, hs, lo, hi, k, size, relinks);
      }
      var n;
      ghost var f;
      q, n, f := Grow(p, size);
      if q == 0 {
        return;
      }
      ghost var m1 := mem[..];
      MoveAndFree(p, q, n, LiveIndex(blocks, p), f, LiveBlocks(bs) - {bs[k]});
      Moved(old(mem[..]), m1, mem[..], LiveBlocks(bs), bs[k], q, n);
    }

    /** A whole heap is ready for any realloc whose copy fits. */
    lemma ValidReady(n: u32)
      requires Valid()
      ensures forall k :: 0 <= k < |blocks| && blocks[k].live ==> ReallocNames(headers, blocks, k, n, relinks)
    {
      LinkedBacksUp(headers, blocks, lo, hi);
      forall k | 0 <= k < |blocks| && blocks[k].live ensures ReallocNames(headers, blocks, k, n, relinks) {
        ReallocNamed(headers, blocks, lo, hi, k, n, relinks);
      }
    }

    /** The malloc of realloc, and how much there is to copy. */
    method Grow(p: nat, size: u32) returns (q: nat, n: nat, ghost f: nat)
      requires Sound() && LiveIndex(blocks, p) < |blocks| && CopyFits(blocks, LiveIndex(blocks, p), size)
      requires ReallocNames(headers, blocks, LiveIndex(blocks, p), size, relinks)
      modifies this, mem
      ensures Sound() && f == FirstFit(old(blocks), Align4(size))
      ensures blocks == MallocBlocks(old(blocks), size)
      ensures headers == MallocHeaders(old(headers), old(blocks), size, relinks)
      ensures q == if f == |old(blocks)| then 0 else old(blocks)[f].Payload()
      ensures q == 0 ==> mem[..] == old(mem[..])
      ensures q != 0 ==>
                var b := old(blocks)[LiveIndex(old(blocks), p)];
                var j := LiveIndex(blocks, p);
                && n == Min(b.size, size)
                && f < |blocks| && blocks[f].live && n <= blocks[f].size && blocks[f].Payload() == q
                && LiveBlocks(old(blocks)) - {b} <= LiveBlocks(blocks) - {blocks[f], b}
                && j < |blocks| && j != f && blocks[j] == b && b in LiveBlocks(old(blocks))
                && NamesBack(j)
      ensures Keeps(old(mem[..]), mem[..], LiveBlocks(old(blocks)), lo, hi)
    {
      ghost var bs, hs := blocks, headers;
      ghost var k := LiveIndex(bs, p);
      LinksReal(mem[..], bs, lo, hi, k);
      var h := Read(p - HEADER, blocks, headers, k);
      assert Describes(headers[k], blocks, k);
      n := if h.size < size then h.size else size;
      q := Malloc(size);
      f := FirstFit(bs, Align4(size));
      if f < |bs| {
        LinksReal(mem[..], bs, lo, hi, f);
        ReallocRoom(bs, hs, k, f, size);
      }
    }

    /** After the malloc inside realloc: the old block is still there, the new one is another, and the old
        one's prev field is good. */
    lemma ReallocRoom(bs: seq<Block>, hs: seq<Header>, k: nat, f: nat, n: u32)
      requires Region() && Tiles(bs, lo, hi) && k < |bs| && bs[k].live && CopyFits(bs, k, n)
      requires |hs| == |bs| && ReallocNames(hs, bs, k, n, relinks) && f == FirstFit(bs, Align4(n)) && f < |bs|
      ensures var grown := MallocBlocks(bs, n);
              && f < |grown| && grown[f].live && Min(bs[k].size, n) <= grown[f].size && grown[f].addr == bs[f].addr
              && grown[f] !in LiveBlocks(bs) && LiveBlocks(grown) == LiveBlocks(bs) + {grown[f]}
              && var j := LiveIndex(grown, bs[k].Payload());
                 && j < |grown| && j != f && grown[j] == bs[k] && bs[k] in LiveBlocks(bs)
                 && Names(grown, j, MallocHeaders(hs, bs, n, relinks)[j].prev)
    {
      MallocLive(bs, lo, hi, n);
      OldBlockStays(bs, lo, hi, k, n);
      LiveMember(bs, k);
    }

    /** The memcpy and free of realloc. */
    method MoveAndFree(src: nat, dst: nat, n: nat, ghost j: nat, ghost f: nat, ghost kept: set<Block>)
      requires Sound() && j < |blocks| && f < |blocks| && j != f && blocks[j].live && blocks[f].live
      requires blocks[j].Payload() == src && blocks[f].Payload() == dst && j == LiveIndex(blocks, src)
      requires n <= blocks[j].size && n <= blocks[f].size && NamesBack(j)
      requires kept <= LiveBlocks(blocks) - {blocks[f], blocks[j]}
      modifies this, mem
      ensures Sound() && blocks == FreeVia(old(blocks), j, old(headers)[j].prev)
      ensures headers == FreeHeaders(old(headers), old(blocks), j)
      ensures CarriesOver(old(mem[..]), mem[..], src, dst, n)
      ensures Keeps(old(mem[..]), mem[..], kept, lo, hi)
    {
      ghost var bs, m0 := blocks, mem[..];
      CopyPayload(src, dst, n, j, f);
      ghost var m1 := mem[..];
      Free(src);
      LiveMember(bs, f);
      if f < j { Ordered(bs, lo, hi, f, j); } else { Ordered(bs, lo, hi, j, f); }
      AfterMove(m0, m1, mem[..], LiveBlocks(bs), bs[j], bs[f], kept, n);
    }

    lemma AfterMove(m0: seq<byte>, m1: seq<byte>, m2: seq<byte>, live: set<Block>,
                    b: Block, c: Block, kept: set<Block>, n: nat)
      requires c in live && b != c && n <= c.size && kept <= live - {c, b}
      requires CarriesOver(m0, m1, b.Payload(), c.Payload(), n)
      requires Keeps(m0, m1, live - {c}, lo, hi) && Keeps(m1, m2, live - {b}, lo, hi)
      ensures CarriesOver(m0, m2, b.Payload(), c.Payload(), n)
      ensures Keeps(m0, m2, kept, lo, hi)
    {
      KeepsSlice(m1, m2, live - {b}, lo, hi, c, n);
      KeepsFewer(m0, m1, live - {c}, kept, lo, hi);
      KeepsFewer(m1, m2, live - {b}, kept, lo, hi);
      KeepsTransitive(m0, m1, m2, kept, lo, hi);
    }

    /** Copy from one live block's payload into another's. */
    method CopyPayload(src: nat, dst: nat, n: nat, ghost j: nat, ghost f: nat)
      requires Sound() && j < |blocks| && f < |blocks| && j != f
      requires blocks[j].Payload() == src && blocks[f].Payload() == dst
      requires n <= blocks[j].size && n <= blocks[f].size
      modifies mem
      ensures Sound() && dst + n <= mem.Length && src + n <= mem.Length
      ensures mem[dst..dst + n] == old(mem[..])[src..src + n]
      ensures Keeps(old(mem[..]), mem[..], LiveBlocks(blocks) - {blocks[f]}, lo, hi)
    {
      LinksReal(mem[..], blocks, lo, hi, j);
      LinksReal(mem[..], blocks, lo, hi, f);
      if j < f {
        Ordered(blocks, lo, hi, j, f);
      } else {
        Ordered(blocks, lo, hi, f, j);
      }
      ghost var m := mem[..];
      MemCpy(mem, dst, src, n, m[src..src + n]);
      assert m[src..src + n] == old(mem[src..src + n]);
      forall x | 0 <= x < |m| && !(blocks[f].Payload() <= x < blocks[f].End()) ensures m[x] == mem[x] {
        assert mem[..][x] == m[x];
      }
      Touched(m, f);
    }

    lemma Moved(m0: seq<byte>, m1: seq<byte>, m2: seq<byte>, live: set<Block>, b: Block, q: nat, n: nat)
      requires b in live && n <= b.size && CarriesOver(m1, m2, b.Payload(), q, n)
      requires Keeps(m0, m1, live, lo, hi) && Keeps(m1, m2, live - {b}, lo, hi)
      ensures CarriesOver(m0, m2, b.Payload(), q, n)
      ensures Keeps(m0, m2, live - {b}, lo, hi)
    {
      KeepsSlice(m0, m1, live, lo, hi, b, n);
      KeepsFewer(m0, m1, live, live - {b}, lo, hi);
      KeepsTransitive(m0, m1, m2, live - {b}, lo, hi);
    }
  }
}

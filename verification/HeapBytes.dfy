/** mergeNextMemorySpace and free of libc/src/stdlib/heap.c as functions on the bytes of memory, whatever
    those bytes are; and what they do where the bytes are the headers of a block list. */
module HeapBytes {
  import opened Bytes
  import opened HeapBlocks
  import opened HeapMemory

  // ----- single fields -----

  /** Storing the first n of some bytes, one after another. */
  function Store(m: seq<byte>, a: nat, data: seq<byte>, n: nat): (r: seq<byte>)
    requires n <= |data|
    ensures |r| == |m|
    decreases n
  {
    if n == 0 || a + n > |m| then m else Store(m, a, data, n - 1)[a + n - 1 := data[n - 1]]
  }

  function Word32(v: int): u32 {
    if 0 <= v < TWO32 then v else v % TWO32
  }

  /** Storing a word. */
  function Put32(m: seq<byte>, a: nat, v: int): (r: seq<byte>)
    ensures |r| == |m|
  {
    Store(m, a, Enc32(Word32(v)), 4)
  }

  lemma {:induction false} StoreIs(m: seq<byte>, a: nat, data: seq<byte>, n: nat)
    requires a + n <= |m| && n <= |data|
    ensures Store(m, a, data, n) == Splice(m, a, data[..n])
  {
    if n > 0 {
      StoreIs(m, a, data, n - 1);
    }
  }

  lemma PutIsField(m: seq<byte>, a: nat, v: u32)
    requires a + 4 <= |m|
    ensures Put32(m, a, v) == Splice(m, a, Enc32(v))
  {
    StoreIs(m, a, Enc32(v), 4);
    assert Enc32(v)[..4] == Enc32(v);
  }

  lemma PutWraps(m: seq<byte>, a: nat, v: nat)
    ensures Put32(m, a, v % TWO32) == Put32(m, a, v)
  {
    assert Word32(v % TWO32) == Word32(v);
  }

  function WithPrev(m: seq<byte>, a: nat, v: int): (r: seq<byte>)
    ensures |r| == |m|
  {
    Put32(m, a, v)
  }

  function WithNext(m: seq<byte>, a: nat, v: int): (r: seq<byte>)
    ensures |r| == |m|
  {
    Put32(m, a + 4, v)
  }

  function WithSize(m: seq<byte>, a: nat, v: int): (r: seq<byte>)
    ensures |r| == |m|
  {
    Put32(m, a + 8, v)
  }

  function WithSpan(m: seq<byte>, a: nat, next: int, size: int): (r: seq<byte>)
    ensures |r| == |m|
  {
    WithSize(WithNext(m, a, next), a, size)
  }

  function WithLive(m: seq<byte>, a: nat, live: bool): (r: seq<byte>)
    ensures |r| == |m|
  {
    if a + 12 < |m| then m[a + 12 := if live then 1 else 0] else m
  }

  lemma PutPrev(m: seq<byte>, a: nat, v: u32)
    requires a + HEADER <= |m|
    ensures OnlyHeader(m, WithPrev(m, a, v), a) && HeaderAt(WithPrev(m, a, v), a) == HeaderAt(m, a).(prev := v)
  {
    PutIsField(m, a, v);
    PutField(m, a, 0, v);
  }

  lemma PutNext(m: seq<byte>, a: nat, v: u32)
    requires a + HEADER <= |m|
    ensures OnlyHeader(m, WithNext(m, a, v), a) && HeaderAt(WithNext(m, a, v), a) == HeaderAt(m, a).(next := v)
  {
    PutIsField(m, a + 4, v);
    PutField(m, a, 4, v);
  }

  lemma PutSize(m: seq<byte>, a: nat, v: u32)
    requires a + HEADER <= |m|
    ensures OnlyHeader(m, WithSize(m, a, v), a) && HeaderAt(WithSize(m, a, v), a) == HeaderAt(m, a).(size := v)
  {
    PutIsField(m, a + 8, v);
    PutField(m, a, 8, v);
  }

  lemma PutSpan(m: seq<byte>, a: nat, next: u32, size: u32)
    requires a + HEADER <= |m|
    ensures OnlyHeader(m, WithSpan(m, a, next, size), a)
    ensures HeaderAt(WithSpan(m, a, next, size), a) == HeaderAt(m, a).(next := next, size := size)
  {
    var m1 := WithNext(m, a, next);
    PutNext(m, a, next);
    PutSize(m1, a, size);
    OnlyHeaderTwice(m, m1, WithSpan(m, a, next, size), a);
  }

  // ----- whole operations -----

  /** mergeNextMemorySpace on the header at a, load by load and store by store: the headers it goes through
      may overlap. */
  function MergeBytes(m: seq<byte>, a: nat): (r: seq<byte>)
    ensures |r| == |m|
  {
    var h := HeaderAt(m, a);
    var n := HeaderAt(m, h.next);
    if h.next == 0 || n.live then m else AbsorbBytes(m, a, h.next, n.next)
  }

  /** The link is taken over first; then the sizes are read again and added up. */
  function AbsorbBytes(m: seq<byte>, a: nat, next: nat, nn: nat): (r: seq<byte>)
    ensures |r| == |m|
  {
    WithSize(Relinked(m, a, nn), a, GrownSize(m, a, next, nn))
  }

  /** The header at a takes over the link nn, and the header at nn points back to it. */
  function Relinked(m: seq<byte>, a: nat, nn: nat): (r: seq<byte>)
    ensures |r| == |m|
  {
    WithNext(if nn != 0 then WithPrev(m, nn, a) else m, a, nn)
  }

  function GrownSize(m: seq<byte>, a: nat, next: nat, nn: nat): nat {
    var linked := Relinked(m, a, nn);
    HeaderAt(linked, a).size + HEADER + HeaderAt(linked, next).size
  }

  /** The same writes for headers that lie apart, so that the sizes can be read beforehand. */
  function AbsorbWrites(m: seq<byte>, a: nat, nn: nat, size: nat): (r: seq<byte>)
    ensures |r| == |m|
  {
    WithSpan(if nn != 0 then WithPrev(m, nn, a) else m, a, nn, size)
  }

  /** The headers it looks at are inside memory. */
  ghost predicate MergeReach(m: seq<byte>, a: nat) {
    var h := HeaderAt(m, a);
    InReach(m, a, h, HeaderAt(m, h.next))
  }

  ghost predicate InReach(m: seq<byte>, a: nat, h: Header, n: Header) {
    && a + HEADER <= |m| && a < TWO32
    && (h.next != 0 ==> h.next + HEADER <= |m|)
    && (h.next != 0 && !n.live && n.next != 0 ==> n.next + HEADER <= |m|)
  }

  predicate HeadersApart(a: nat, b: nat) {
    a + HEADER <= b || b + HEADER <= a
  }

  lemma ReachOf(m: seq<byte>, a: nat, h: Header, n: Header)
    requires HeaderAt(m, a) == h && (h.next != 0 ==> HeaderAt(m, h.next) == n)
    ensures MergeReach(m, a) <==> InReach(m, a, h, n)
  {
  }

  lemma MergeJoins(m: seq<byte>, a: nat, h: Header, n: Header, next: nat, nn: nat, size: nat)
    requires a + HEADER <= |m| && a < TWO32 && next + HEADER <= |m| && HeadersApart(a, next)
    requires nn != 0 ==> nn + HEADER <= |m| && HeadersApart(nn, a) && HeadersApart(nn, next)
    requires HeaderAt(m, a) == h && HeaderAt(m, next) == n && size == h.size + HEADER + n.size
    requires h.next == next != 0 && !n.live && n.next == nn
    ensures MergeBytes(m, a) == AbsorbWrites(m, a, nn, size)
  {
    MergeAbsorbs(m, a, h, n, next, nn);
    AbsorbApart(m, a, h, n, next, nn, size);
  }

  lemma MergeAbsorbs(m: seq<byte>, a: nat, h: Header, n: Header, next: nat, nn: nat)
    requires a + HEADER <= |m| && a < TWO32 && next + HEADER <= |m| && (nn != 0 ==> nn + HEADER <= |m|)
    requires HeaderAt(m, a) == h && HeaderAt(m, next) == n && h.next == next != 0 && !n.live && n.next == nn
    ensures MergeReach(m, a) && MergeBytes(m, a) == AbsorbBytes(m, a, next, nn)
  {
    ReachOf(m, a, h, n);
    MergeOpens(m, a, h, n);
  }

  lemma MergeOpens(m: seq<byte>, a: nat, h: Header, n: Header)
    requires HeaderAt(m, a) == h && (h.next != 0 ==> HeaderAt(m, h.next) == n)
    ensures MergeBytes(m, a) == if h.next == 0 || n.live then m else AbsorbBytes(m, a, h.next, n.next)
    ensures n.next < TWO32 || h.next == 0
  {
  }

  lemma AbsorbApart(m: seq<byte>, a: nat, h: Header, n: Header, next: nat, nn: u32, size: nat)
    requires a + HEADER <= |m| && a < TWO32 && next + HEADER <= |m| && HeadersApart(a, next)
    requires nn != 0 ==> nn + HEADER <= |m| && HeadersApart(nn, a) && HeadersApart(nn, next)
    requires HeaderAt(m, a) == h && HeaderAt(m, next) == n && size == h.size + HEADER + n.size
    ensures AbsorbBytes(m, a, next, nn) == AbsorbWrites(m, a, nn, size)
  {
    SizesApart(m, a, next, nn);
  }

  lemma AbsorbIs(m: seq<byte>, m1: seq<byte>, r: seq<byte>, a: nat, next: nat, nn: nat, size: nat)
    requires m1 == Relinked(m, a, nn) && size == HeaderAt(m1, a).size + HEADER + HeaderAt(m1, next).size
    requires r == WithSize(m1, a, size)
    ensures r == AbsorbBytes(m, a, next, nn)
  {
  }

  /** Taking over the link changes neither size if the headers lie apart. */
  lemma SizesApart(m: seq<byte>, a: nat, next: nat, nn: u32)
    requires a + HEADER <= |m| && a < TWO32 && next + HEADER <= |m| && HeadersApart(a, next)
    requires nn != 0 ==> nn + HEADER <= |m| && HeadersApart(nn, a) && HeadersApart(nn, next)
    ensures GrownSize(m, a, next, nn) == HeaderAt(m, a).size + HEADER + HeaderAt(m, next).size
  {
    var m1 := if nn != 0 then WithPrev(m, nn, a) else m;
    if nn != 0 {
      PrevElsewhere(m, nn, a, a);
      PrevElsewhere(m, nn, a, next);
    }
    PutNext(m1, a, nn);
    HeaderElsewhere(m1, Relinked(m, a, nn), a, next);
  }

  lemma PrevElsewhere(m: seq<byte>, a: nat, v: u32, b: nat)
    requires a + HEADER <= |m| && HeadersApart(a, b)
    ensures HeaderAt(WithPrev(m, a, v), b) == HeaderAt(m, b)
  {
    PutPrev(m, a, v);
    HeaderElsewhere(m, WithPrev(m, a, v), a, b);
  }

  /** free of the block whose payload starts at p. */
  function FreeBytes(m: seq<byte>, p: nat): (r: seq<byte>)
    ensures |r| == |m|
  {
    if p < HEADER then m else
      var r := ReleaseBytes(m, p - HEADER);
      var prev := HeaderAt(r, p - HEADER).prev;
      if prev == 0 || HeaderAt(r, prev).live then r else MergeBytes(r, prev)
  }

  /** Its first half: the block is marked free and merged with the one behind it. */
  function ReleaseBytes(m: seq<byte>, a: nat): (r: seq<byte>)
    ensures |r| == |m|
  {
    MergeBytes(WithLive(m, a, false), a)
  }

  ghost predicate FreeReach(m: seq<byte>, p: nat) {
    && p >= HEADER && p <= |m| && MergeReach(WithLive(m, p - HEADER, false), p - HEADER)
    && var r := ReleaseBytes(m, p - HEADER);
       var prev := HeaderAt(r, p - HEADER).prev;
       prev != 0 ==> prev + HEADER <= |m| && (!HeaderAt(r, prev).live ==> MergeReach(r, prev))
  }

  lemma FreeReads(m: seq<byte>, a: nat, prev: nat, live: bool)
    requires a + HEADER <= |m| && MergeReach(WithLive(m, a, false), a)
    requires HeaderAt(ReleaseBytes(m, a), a).prev == prev
    requires prev != 0 ==> HeaderAt(ReleaseBytes(m, a), prev).live == live
    ensures FreeBytes(m, a + HEADER)
            == if prev == 0 || live then ReleaseBytes(m, a) else MergeBytes(ReleaseBytes(m, a), prev)
    ensures FreeReach(m, a + HEADER)
            <==> (prev != 0 ==> prev + HEADER <= |m| && (!live ==> MergeReach(ReleaseBytes(m, a), prev)))
  {
  }

  // ----- on the headers of a list -----

  /** The region the list tiles lies inside memory, above the null address. */
  ghost predicate Placed(m: seq<byte>, bs: seq<Block>, lo: nat, hi: nat) {
    4 <= lo && hi <= |m| && hi < TWO32 && Tiles(bs, lo, hi)
  }

  lemma BackView(m: seq<byte>, bs: seq<Block>, hs: seq<Header>, lo: nat, hi: nat, k: nat, v: u32)
    requires Placed(m, bs, lo, hi) && View(m, bs, hs) && k < |bs|
    ensures var r := WithPrev(m, bs[k].addr, v);
            View(r, bs, hs[k := hs[k].(prev := v)]) && Keeps(m, r, LiveBlocks(bs), lo, hi)
  {
    Within(bs, lo, hi, k);
    assert ReadsAs(m, bs, hs, k);
    PutPrev(m, bs[k].addr, v);
    var r := WithPrev(m, bs[k].addr, v);
    ViewUpdate(m, r, bs, hs, lo, hi, k, hs[k].(prev := v));
    OnlyHeaderKeeps(m, r, bs, lo, hi, k, LiveBlocks(bs));
  }

  lemma SpanView(m: seq<byte>, bs: seq<Block>, hs: seq<Header>, lo: nat, hi: nat, k: nat, next: u32, size: u32)
    requires Placed(m, bs, lo, hi) && View(m, bs, hs) && k < |bs|
    ensures var r := WithSpan(m, bs[k].addr, next, size);
            View(r, bs, hs[k := hs[k].(next := next, size := size)]) && Keeps(m, r, LiveBlocks(bs), lo, hi)
  {
    Within(bs, lo, hi, k);
    assert ReadsAs(m, bs, hs, k);
    PutSpan(m, bs[k].addr, next, size);
    var r := WithSpan(m, bs[k].addr, next, size);
    ViewUpdate(m, r, bs, hs, lo, hi, k, hs[k].(next := next, size := size));
    OnlyHeaderKeeps(m, r, bs, lo, hi, k, LiveBlocks(bs));
  }

  lemma LiveView(m: seq<byte>, bs: seq<Block>, hs: seq<Header>, lo: nat, hi: nat, k: nat, live: bool)
    requires Placed(m, bs, lo, hi) && View(m, bs, hs) && k < |bs|
    ensures var r := WithLive(m, bs[k].addr, live);
            View(r, bs, hs[k := hs[k].(live := live)]) && Keeps(m, r, LiveBlocks(bs), lo, hi)
  {
    Within(bs, lo, hi, k);
    assert ReadsAs(m, bs, hs, k);
    PutLive(m, bs[k].addr, live);
    var r := WithLive(m, bs[k].addr, live);
    ViewUpdate(m, r, bs, hs, lo, hi, k, hs[k].(live := live));
    OnlyHeaderKeeps(m, r, bs, lo, hi, k, LiveBlocks(bs));
  }

  /** Links out of a block are real addresses, and null exactly at the end of the list. */
  lemma LinksReal(m: seq<byte>, bs: seq<Block>, lo: nat, hi: nat, k: nat)
    requires Placed(m, bs, lo, hi) && k < |bs|
    ensures 4 <= bs[k].addr && bs[k].End() <= hi
    ensures NextAddr(bs, k) < TWO32 && (NextAddr(bs, k) != 0 <==> k + 1 < |bs|)
  {
    Within(bs, lo, hi, k);
    if k + 1 < |bs| {
      Within(bs, lo, hi, k + 1);
    }
  }

  lemma HeaderOf(m: seq<byte>, bs: seq<Block>, hs: seq<Header>, k: nat)
    requires View(m, bs, hs) && Chained(hs, bs) && k < |bs|
    ensures HeaderAt(m, bs[k].addr) == hs[k]
    ensures hs[k].next == NextAddr(bs, k) && hs[k].size == bs[k].size && hs[k].live == bs[k].live
  {
    assert ReadsAs(m, bs, hs, k) && Describes(hs[k], bs, k);
  }

  /** What mergeNextMemorySpace reads and writes there. */
  lemma MergeBytesAt(m: seq<byte>, bs: seq<Block>, hs: seq<Header>, lo: nat, hi: nat, k: nat)
    requires Placed(m, bs, lo, hi) && View(m, bs, hs) && Chained(hs, bs) && k < |bs|
    ensures MergeReach(m, bs[k].addr)
    ensures MergeBytes(m, bs[k].addr) == if k + 1 < |bs| && !bs[k + 1].live then Absorbed(m, bs, k) else m
  {
    HeaderOf(m, bs, hs, k);
    NextInside(m, bs, lo, hi, k);
    if k + 1 < |bs| {
      HeaderOf(m, bs, hs, k + 1);
      NextInside(m, bs, lo, hi, k + 1);
      MergeOnList(m, bs, hs, k);
    } else {
      MergeOpens(m, bs[k].addr, hs[k], hs[k]);
      ReachOf(m, bs[k].addr, hs[k], hs[k]);
    }
  }

  lemma MergeOnList(m: seq<byte>, bs: seq<Block>, hs: seq<Header>, k: nat)
    requires |hs| == |bs| && k + 1 < |bs| && bs[k].addr < TWO32
    requires HeaderAt(m, bs[k].addr) == hs[k] && HeaderAt(m, bs[k + 1].addr) == hs[k + 1]
    requires hs[k].next == NextAddr(bs, k) != 0 && hs[k].size == bs[k].size
    requires hs[k + 1].next == NextAddr(bs, k + 1) && hs[k + 1].size == bs[k + 1].size
    requires hs[k + 1].live == bs[k + 1].live
    requires bs[k].addr + HEADER <= bs[k + 1].addr && bs[k + 1].addr + HEADER <= |m|
    requires hs[k + 1].next != 0 ==> bs[k + 1].addr + HEADER <= hs[k + 1].next && hs[k + 1].next + HEADER <= |m|
    ensures MergeReach(m, bs[k].addr)
    ensures MergeBytes(m, bs[k].addr) == if !bs[k + 1].live then Absorbed(m, bs, k) else m
  {
    ReachOf(m, bs[k].addr, hs[k], hs[k + 1]);
    if bs[k + 1].live {
      MergeOpens(m, bs[k].addr, hs[k], hs[k + 1]);
    } else {
      MergeJoins(m, bs[k].addr, hs[k], hs[k + 1], hs[k].next, hs[k + 1].next, bs[k].size + HEADER + bs[k + 1].size);
    }
  }

  lemma NextInside(m: seq<byte>, bs: seq<Block>, lo: nat, hi: nat, k: nat)
    requires Placed(m, bs, lo, hi) && k < |bs|
    ensures bs[k].addr + HEADER <= |m| && bs[k].addr < TWO32
    ensures NextAddr(bs, k) != 0 <==> k + 1 < |bs|
    ensures NextAddr(bs, k) != 0 ==> bs[k].End() <= NextAddr(bs, k) && NextAddr(bs, k) + HEADER <= |m|
  {
    LinksReal(m, bs, lo, hi, k);
    if k + 1 < |bs| {
      LinksReal(m, bs, lo, hi, k + 1);
      Ordered(bs, lo, hi, k, k + 1);
    }
  }

  /** Its writes when block k absorbs the next one. */
  function Absorbed(m: seq<byte>, bs: seq<Block>, k: nat): (r: seq<byte>)
    requires k + 1 < |bs|
    ensures |r| == |m|
  {
    AbsorbWrites(m, bs[k].addr, NextAddr(bs, k + 1), bs[k].size + HEADER + bs[k + 1].size)
  }

  /** Merging in memory is merging in the list. */
  lemma MergeBytesView(m: seq<byte>, bs: seq<Block>, hs: seq<Header>, lo: nat, hi: nat, k: nat)
    requires Placed(m, bs, lo, hi) && View(m, bs, hs) && Chained(hs, bs) && k < |bs|
    ensures MergeReach(m, bs[k].addr)
    ensures View(MergeBytes(m, bs[k].addr), Merge(bs, k), MergeHeaders(hs, bs, k))
    ensures Keeps(m, MergeBytes(m, bs[k].addr), LiveBlocks(bs), lo, hi)
  {
    MergeBytesAt(m, bs, hs, lo, hi, k);
    if k + 1 < |bs| && !bs[k + 1].live {
      AbsorbView(m, bs, hs, lo, hi, k);
    }
  }

  lemma AbsorbView(m: seq<byte>, bs: seq<Block>, hs: seq<Header>, lo: nat, hi: nat, k: nat)
    requires Placed(m, bs, lo, hi) && View(m, bs, hs) && k + 1 < |bs| && !bs[k + 1].live
    ensures View(Absorbed(m, bs, k), Merge(bs, k), MergedHeaders(hs, bs, k))
    ensures Keeps(m, Absorbed(m, bs, k), LiveBlocks(bs), lo, hi)
  {
    if k + 2 < |bs| {
      AbsorbInside(m, bs, hs, lo, hi, k);
    } else {
      AbsorbLast(m, bs, hs, lo, hi, k);
    }
  }

  lemma AbsorbInside(m: seq<byte>, bs: seq<Block>, hs: seq<Header>, lo: nat, hi: nat, k: nat)
    requires Placed(m, bs, lo, hi) && View(m, bs, hs) && k + 2 < |bs| && !bs[k + 1].live
    ensures View(Absorbed(m, bs, k), Merge(bs, k), MergedHeaders(hs, bs, k))
    ensures Keeps(m, Absorbed(m, bs, k), LiveBlocks(bs), lo, hi)
  {
    var nn, size := bs[k + 2].addr, bs[k].size + HEADER + bs[k + 1].size;
    LinksReal(m, bs, lo, hi, k);
    LinksReal(m, bs, lo, hi, k + 1);
    assert Abuts(bs, k);
    var m1, hs1 := WithPrev(m, nn, bs[k].addr), hs[k + 2 := hs[k + 2].(prev := bs[k].addr)];
    BackView(m, bs, hs, lo, hi, k + 2, bs[k].addr);
    AbsorbSpan(m, m1, Absorbed(m, bs, k), bs, hs1, MergedHeaders(hs, bs, k), lo, hi, k, nn, size);
  }

  lemma AbsorbLast(m: seq<byte>, bs: seq<Block>, hs: seq<Header>, lo: nat, hi: nat, k: nat)
    requires Placed(m, bs, lo, hi) && View(m, bs, hs) && k + 2 == |bs| && !bs[k + 1].live
    ensures View(Absorbed(m, bs, k), Merge(bs, k), MergedHeaders(hs, bs, k))
    ensures Keeps(m, Absorbed(m, bs, k), LiveBlocks(bs), lo, hi)
  {
    LinksReal(m, bs, lo, hi, k);
    LinksReal(m, bs, lo, hi, k + 1);
    assert Abuts(bs, k);
    AbsorbSpan(m, m, Absorbed(m, bs, k), bs, hs, MergedHeaders(hs, bs, k), lo, hi, k, 0,
               bs[k].size + HEADER + bs[k + 1].size);
  }

  lemma AbsorbSpan(m0: seq<byte>, m: seq<byte>, r: seq<byte>, bs: seq<Block>, hs: seq<Header>, rs: seq<Header>,
                   lo: nat, hi: nat, k: nat, nn: u32, size: u32)
    requires Placed(m, bs, lo, hi) && View(m, bs, hs) && k + 1 < |bs| && !bs[k + 1].live
    requires Keeps(m0, m, LiveBlocks(bs), lo, hi)
    requires r == WithSpan(m, bs[k].addr, nn, size)
    requires var t := hs[k := hs[k].(next := nn, size := size)]; rs == t[..k + 1] + t[k + 2..]
    ensures View(r, Merge(bs, k), rs) && Keeps(m0, r, LiveBlocks(bs), lo, hi)
  {
    SpanView(m, bs, hs, lo, hi, k, nn, size);
    KeepsTransitive(m0, m, r, LiveBlocks(bs), lo, hi);
    ViewMerged(r, bs, hs[k := hs[k].(next := nn, size := size)], k);
  }

  // ----- free -----

  /** The prev field of block k is null or names a block in front of it, not necessarily the nearest. */
  ghost predicate BacksUp(hs: seq<Header>, bs: seq<Block>, k: nat)
    requires k < |hs|
  {
    hs[k].prev == 0 || exists j :: 0 <= j < k && j < |bs| && bs[j].addr == hs[k].prev
  }

  /** p is null or the address of a block that is there once block k is released. */
  ghost predicate Names(bs: seq<Block>, k: nat, p: nat)
    requires k < |bs|
  {
    p == 0 || IndexOf(Released(bs, k), p) < |Released(bs, k)|
  }

  lemma BackUpNames(bs: seq<Block>, hs: seq<Header>, lo: nat, hi: nat, k: nat)
    requires Tiles(bs, lo, hi) && Chained(hs, bs) && k < |bs| && BacksUp(hs, bs, k)
    ensures Names(bs, k, hs[k].prev)
  {
    ReleasedFacts(bs, hs, lo, hi, k);
    if hs[k].prev != 0 {
      var i :| 0 <= i < k && bs[i].addr == hs[k].prev;
      assert Released(bs, k)[i].addr == hs[k].prev;
    }
  }

  lemma ReleasedFacts(bs: seq<Block>, hs: seq<Header>, lo: nat, hi: nat, k: nat)
    requires Tiles(bs, lo, hi) && Chained(hs, bs) && k < |bs|
    ensures Tiles(Released(bs, k), lo, hi) && Chained(ReleasedHeaders(hs, bs, k), Released(bs, k))
    ensures k < |Released(bs, k)| && Released(bs, k)[k].addr == bs[k].addr && !Released(bs, k)[k].live
    ensures ReleasedHeaders(hs, bs, k)[k].prev == hs[k].prev
    ensures forall i :: 0 <= i < k ==> Released(bs, k)[i] == bs[i]
  {
    var tagged := bs[k := bs[k].(live := false)];
    var th := hs[k := hs[k].(live := false)];
    RetagTiles(bs, lo, hi, k, false);
    RetagHolds(hs, bs, k, false);
    MergeTiles(tagged, lo, hi, k);
    if k + 1 < |bs| && !bs[k + 1].live {
      MergeHolds(th, tagged, k);
    }
  }

  lemma ReleasedLive(bs: seq<Block>, k: nat)
    requires k < |bs|
    ensures LiveBlocks(bs) - {bs[k]} <= LiveBlocks(Released(bs, k))
  {
    var r := bs[k := bs[k].(live := false)];
    forall b | b in LiveBlocks(bs) - {bs[k]} ensures b in r {
      var i :| 0 <= i < |bs| && bs[i] == b;
      assert r[i] == b;
    }
    MergeLive(r, k);
  }

  lemma ReleaseBytesView(m: seq<byte>, bs: seq<Block>, hs: seq<Header>, lo: nat, hi: nat, k: nat)
    requires Placed(m, bs, lo, hi) && View(m, bs, hs) && Chained(hs, bs) && k < |bs|
    ensures MergeReach(WithLive(m, bs[k].addr, false), bs[k].addr)
    ensures var r := ReleaseBytes(m, bs[k].addr);
            && View(r, Released(bs, k), ReleasedHeaders(hs, bs, k))
            && Keeps(m, r, LiveBlocks(bs) - {bs[k]}, lo, hi)
  {
    var tagged, th := bs[k := bs[k].(live := false)], hs[k := hs[k].(live := false)];
    var m1, kept := WithLive(m, bs[k].addr, false), LiveBlocks(bs) - {bs[k]};
    LiveView(m, bs, hs, lo, hi, k, false);
    RetagTiles(bs, lo, hi, k, false);
    RetagHolds(hs, bs, k, false);
    RetagView(m1, bs, th, k, false);
    MergeBytesView(m1, tagged, th, lo, hi, k);
    TaggedLive(bs, k);
    var r := MergeBytes(m1, bs[k].addr);
    KeepsFewer(m, m1, LiveBlocks(bs), kept, lo, hi);
    KeepsFewer(m1, r, LiveBlocks(tagged), kept, lo, hi);
    KeepsTransitive(m, m1, r, kept, lo, hi);
  }

  lemma RetagView(m: seq<byte>, bs: seq<Block>, hs: seq<Header>, k: nat, live: bool)
    requires k < |bs| && View(m, bs, hs)
    ensures View(m, bs[k := bs[k].(live := live)], hs)
  {
    var r := bs[k := bs[k].(live := live)];
    forall i | 0 <= i < |r| ensures ReadsAs(m, r, hs, i) {
      assert ReadsAs(m, bs, hs, i);
    }
  }

  lemma TaggedLive(bs: seq<Block>, k: nat)
    requires k < |bs|
    ensures LiveBlocks(bs) - {bs[k]} <= LiveBlocks(bs[k := bs[k].(live := false)])
  {
    var r := bs[k := bs[k].(live := false)];
    forall b | b in LiveBlocks(bs) - {bs[k]} ensures b in r {
      var i :| 0 <= i < |bs| && bs[i] == b;
      assert r[i] == b;
    }
  }

  /** The second half of free, for a prev field that names block i of the list, or is null. */
  lemma MergeBackView(m: seq<byte>, bs: seq<Block>, hs: seq<Header>, lo: nat, hi: nat, i: nat)
    requires Placed(m, bs, lo, hi) && View(m, bs, hs) && Chained(hs, bs) && i < |bs|
    ensures HeaderAt(m, bs[i].addr).live == bs[i].live && bs[i].addr + HEADER <= |m|
    ensures bs[i].addr != 0 && IndexOf(bs, bs[i].addr) == i
    ensures MergeReach(m, bs[i].addr)
    ensures View(MergeBytes(m, bs[i].addr), Merge(bs, i), MergeHeaders(hs, bs, i))
    ensures Keeps(m, MergeBytes(m, bs[i].addr), LiveBlocks(bs), lo, hi)
  {
    HeaderOf(m, bs, hs, i);
    LinksReal(m, bs, lo, hi, i);
    IndexOfBlock(bs, lo, hi, i);
    MergeBytesView(m, bs, hs, lo, hi, i);
  }

  /** Freeing in memory is freeing in the list, through whatever block the prev field names. */
  lemma FreeBytesView(m: seq<byte>, bs: seq<Block>, hs: seq<Header>, lo: nat, hi: nat, k: nat)
    requires Placed(m, bs, lo, hi) && View(m, bs, hs) && Chained(hs, bs) && k < |bs|
    requires Names(bs, k, hs[k].prev)
    ensures FreeReach(m, bs[k].Payload())
    ensures View(FreeBytes(m, bs[k].Payload()), FreeVia(bs, k, hs[k].prev), FreeHeaders(hs, bs, k))
    ensures Keeps(m, FreeBytes(m, bs[k].Payload()), LiveBlocks(bs) - {bs[k]}, lo, hi)
  {
    if hs[k].prev == 0 {
      FreeAlone(m, bs, hs, lo, hi, k);
    } else {
      FreeNamed(m, bs, hs, lo, hi, k, IndexOf(Released(bs, k), hs[k].prev));
    }
  }

  lemma FreeOutcome(m: seq<byte>, m': seq<byte>, bs: seq<Block>, hs: seq<Header>, lo: nat, hi: nat, k: nat)
    requires Placed(m, bs, lo, hi) && View(m, bs, hs) && Chained(hs, bs) && k < |bs|
    requires Names(bs, k, hs[k].prev) && m' == FreeBytes(m, bs[k].Payload())
    ensures View(m', FreeVia(bs, k, hs[k].prev), FreeHeaders(hs, bs, k))
    ensures Keeps(m, m', LiveBlocks(bs) - {bs[k]}, lo, hi)
  {
    FreeBytesView(m, bs, hs, lo, hi, k);
  }

  lemma FreeReaches(m: seq<byte>, bs: seq<Block>, hs: seq<Header>, lo: nat, hi: nat, k: nat)
    requires Placed(m, bs, lo, hi) && View(m, bs, hs) && Chained(hs, bs) && k < |bs|
    requires Names(bs, k, hs[k].prev)
    ensures FreeReach(m, bs[k].Payload())
  {
    FreeBytesView(m, bs, hs, lo, hi, k);
  }

  lemma FreeAlone(m: seq<byte>, bs: seq<Block>, hs: seq<Header>, lo: nat, hi: nat, k: nat)
    requires Placed(m, bs, lo, hi) && View(m, bs, hs) && Chained(hs, bs) && k < |bs| && hs[k].prev == 0
    ensures FreeReach(m, bs[k].Payload())
    ensures View(FreeBytes(m, bs[k].Payload()), FreeVia(bs, k, hs[k].prev), FreeHeaders(hs, bs, k))
    ensures Keeps(m, FreeBytes(m, bs[k].Payload()), LiveBlocks(bs) - {bs[k]}, lo, hi)
  {
    FirstHalf(m, bs, hs, lo, hi, k);
    FreeReads(m, bs[k].addr, 0, true);
  }

  lemma FreeNamed(m: seq<byte>, bs: seq<Block>, hs: seq<Header>, lo: nat, hi: nat, k: nat, i: nat)
    requires Placed(m, bs, lo, hi) && View(m, bs, hs) && Chained(hs, bs) && k < |bs|
    requires i < |Released(bs, k)| && Released(bs, k)[i].addr == hs[k].prev
    ensures FreeReach(m, bs[k].Payload())
    ensures View(FreeBytes(m, bs[k].Payload()), FreeVia(bs, k, hs[k].prev), FreeHeaders(hs, bs, k))
    ensures Keeps(m, FreeBytes(m, bs[k].Payload()), LiveBlocks(bs) - {bs[k]}, lo, hi)
  {
    var rel, rh := Released(bs, k), ReleasedHeaders(hs, bs, k);
    var m1, kept := ReleaseBytes(m, bs[k].addr), LiveBlocks(bs) - {bs[k]};
    FirstHalf(m, bs, hs, lo, hi, k);
    SecondHalf(m, m1, rel, rh, kept, lo, hi, i);
    FreeReads(m, bs[k].addr, rel[i].addr, rel[i].live);
    if rel[i].live {
      FreeStops(hs, bs, k, i);
    } else {
      FreeJoins(hs, bs, k, i);
    }
  }

  lemma FirstHalf(m: seq<byte>, bs: seq<Block>, hs: seq<Header>, lo: nat, hi: nat, k: nat)
    requires Placed(m, bs, lo, hi) && View(m, bs, hs) && Chained(hs, bs) && k < |bs|
    ensures bs[k].addr + HEADER <= |m| && MergeReach(WithLive(m, bs[k].addr, false), bs[k].addr)
    ensures var rel, rh, m1 := Released(bs, k), ReleasedHeaders(hs, bs, k), ReleaseBytes(m, bs[k].addr);
            && Placed(m1, rel, lo, hi) && View(m1, rel, rh) && Chained(rh, rel)
            && Keeps(m, m1, LiveBlocks(bs) - {bs[k]}, lo, hi) && LiveBlocks(bs) - {bs[k]} <= LiveBlocks(rel)
            && HeaderAt(m1, bs[k].addr).prev == hs[k].prev
            && k < |rel| && forall j :: 0 <= j < k ==> rel[j] == bs[j]
  {
    LinksReal(m, bs, lo, hi, k);
    ReleaseBytesView(m, bs, hs, lo, hi, k);
    ReleasedFacts(bs, hs, lo, hi, k);
    HeaderOf(ReleaseBytes(m, bs[k].addr), Released(bs, k), ReleasedHeaders(hs, bs, k), k);
    ReleasedLive(bs, k);
  }

  lemma SecondHalf(m: seq<byte>, m1: seq<byte>, rel: seq<Block>, rh: seq<Header>, kept: set<Block>,
                   lo: nat, hi: nat, i: nat)
    requires Placed(m1, rel, lo, hi) && View(m1, rel, rh) && Chained(rh, rel) && i < |rel|
    requires Keeps(m, m1, kept, lo, hi) && kept <= LiveBlocks(rel)
    ensures HeaderAt(m1, rel[i].addr).live == rel[i].live && rel[i].addr != 0 && IndexOf(rel, rel[i].addr) == i
    ensures rel[i].addr + HEADER <= |m1| && MergeReach(m1, rel[i].addr)
    ensures View(MergeBytes(m1, rel[i].addr), Merge(rel, i), MergeHeaders(rh, rel, i))
    ensures Keeps(m, MergeBytes(m1, rel[i].addr), kept, lo, hi)
  {
    MergeBackView(m1, rel, rh, lo, hi, i);
    KeepsOn(m, m1, MergeBytes(m1, rel[i].addr), kept, LiveBlocks(rel), lo, hi);
  }

  lemma FreeStops(hs: seq<Header>, bs: seq<Block>, k: nat, i: nat)
    requires |hs| == |bs| && k < |bs| && hs[k].prev != 0
    requires i < |Released(bs, k)| && IndexOf(Released(bs, k), hs[k].prev) == i
    requires Released(bs, k)[i].live
    ensures FreeVia(bs, k, hs[k].prev) == Released(bs, k) && FreeHeaders(hs, bs, k) == ReleasedHeaders(hs, bs, k)
  {
  }

  lemma FreeJoins(hs: seq<Header>, bs: seq<Block>, k: nat, i: nat)
    requires |hs| == |bs| && k < |bs| && hs[k].prev != 0
    requires i < |Released(bs, k)| && IndexOf(Released(bs, k), hs[k].prev) == i
    requires !Released(bs, k)[i].live
    ensures FreeVia(bs, k, hs[k].prev) == Merge(Released(bs, k), i)
    ensures FreeHeaders(hs, bs, k) == MergeHeaders(ReleasedHeaders(hs, bs, k), Released(bs, k), i)
  {
  }

  lemma KeepsOn(m0: seq<byte>, m1: seq<byte>, m2: seq<byte>, kept: set<Block>, more: set<Block>, lo: nat, hi: nat)
    requires Keeps(m0, m1, kept, lo, hi) && kept <= more && Keeps(m1, m2, more, lo, hi)
    ensures Keeps(m0, m2, kept, lo, hi)
  {
    KeepsFewer(m1, m2, more, kept, lo, hi);
    KeepsTransitive(m0, m1, m2, kept, lo, hi);
  }

  // ----- what free does to the headers -----

  lemma MergeHeadersHold(hs: seq<Header>, bs: seq<Block>, k: nat)
    requires k < |bs| && Chained(hs, bs)
    ensures Chained(MergeHeaders(hs, bs, k), Merge(bs, k))
    ensures MergeHeaders(hs, bs, k)[0].prev == hs[0].prev
    ensures Mends(hs, bs, k) ==> Linked(MergeHeaders(hs, bs, k), Merge(bs, k))
  {
    if k + 1 < |bs| && !bs[k + 1].live {
      MergeHolds(hs, bs, k);
      if LinkedExcept(hs, bs, k + 2) {
        MergeMends(hs, bs, k);
      }
    }
  }

  /** free keeps next, size and isAllocated right, and sets right the one prev field that merging block k
      with the one behind it mends. */
  lemma FreeHolds(hs: seq<Header>, bs: seq<Block>, k: nat)
    requires k < |bs| && Chained(hs, bs)
    ensures Chained(FreeHeaders(hs, bs, k), FreeVia(bs, k, hs[k].prev))
    ensures FreeHeaders(hs, bs, k)[0].prev == hs[0].prev
    ensures Mends(hs, bs, k) ==> Linked(FreeHeaders(hs, bs, k), FreeVia(bs, k, hs[k].prev))
  {
    var tagged, th := bs[k := bs[k].(live := false)], hs[k := hs[k].(live := false)];
    RetagHolds(hs, bs, k, false);
    if Mends(hs, bs, k) {
      RetagMends(hs, bs, k, false);
    }
    MergeHeadersHold(th, tagged, k);
    var rel, rh, j := Released(bs, k), ReleasedHeaders(hs, bs, k), IndexOf(Released(bs, k), hs[k].prev);
    if hs[k].prev != 0 && j < |rel| && !rel[j].live {
      MergeHeadersHold(rh, rel, j);
    }
  }
}

/** free of libc/src/stdlib/heap.c as written through a back link that names no block: what its second half
    writes, and when the headers of the list survive that. */
module HeapHarm {
  import opened Bytes
  import opened HeapBlocks
  import opened HeapMemory
  import opened HeapBytes

  // ----- the writes -----

  /** The bytes at s read as a free header whose next one is free as well: then free merges the two. */
  predicate Merges(m: seq<byte>, s: nat) {
    var h := HeaderAt(m, s);
    !h.live && h.next != 0 && !HeaderAt(m, h.next).live
  }

  /** The link that the merge takes over. */
  function TakenLink(m: seq<byte>, s: nat): nat {
    HeaderAt(m, HeaderAt(m, s).next).next
  }

  /** The sum it stores as the size. */
  function StoredSize(m: seq<byte>, s: nat): u32 {
    Word32(GrownSize(m, s, HeaderAt(m, s).next, TakenLink(m, s)))
  }

  /** What byte x is after the merge: its three words are the back link of the header that the taken link
      names, and then the next and the size field of the header at s. */
  function MergedByte(m: seq<byte>, s: u32, x: nat): byte
    requires x < |m|
  {
    var nn := TakenLink(m, s);
    if s + 8 <= x < s + 12 then Enc32(StoredSize(m, s))[x - s - 8]
    else if s + 4 <= x < s + 8 then Enc32(Word32(nn))[x - s - 4]
    else if nn != 0 && nn <= x < nn + 4 then Enc32(s)[x - nn]
    else m[x]
  }

  lemma PutAt(m: seq<byte>, a: nat, v: int, x: nat)
    requires a + 4 <= |m| && x < |m|
    ensures Put32(m, a, v)[x] == if a <= x < a + 4 then Enc32(Word32(v))[x - a] else m[x]
  {
    StoreIs(m, a, Enc32(Word32(v)), 4);
    assert Enc32(Word32(v))[..4] == Enc32(Word32(v));
  }

  lemma MergedByteIs(m: seq<byte>, s: u32, x: nat)
    requires MergeReach(m, s) && Merges(m, s) && x < |m|
    ensures MergeBytes(m, s)[x] == MergedByte(m, s, x)
  {
    var h := HeaderAt(m, s);
    ReachOf(m, s, h, HeaderAt(m, h.next));
    MergeOpens(m, s, h, HeaderAt(m, h.next));
    AbsorbedByte(m, s, h.next, TakenLink(m, s), x);
  }

  lemma AbsorbedByte(m: seq<byte>, s: u32, next: nat, nn: nat, x: nat)
    requires s + HEADER <= |m| && (nn != 0 ==> nn + HEADER <= |m|) && x < |m|
    ensures AbsorbBytes(m, s, next, nn)[x] ==
            if s + 8 <= x < s + 12 then Enc32(Word32(GrownSize(m, s, next, nn)))[x - s - 8]
            else if s + 4 <= x < s + 8 then Enc32(Word32(nn))[x - s - 4]
            else if nn != 0 && nn <= x < nn + 4 then Enc32(s)[x - nn]
            else m[x]
  {
    var m1 := if nn != 0 then WithPrev(m, nn, s) else m;
    if nn != 0 {
      PutAt(m, nn, s, x);
    }
    PutAt(m1, s + 4, nn, x);
    PutAt(Relinked(m, s, nn), s + 8, GrownSize(m, s, next, nn), x);
  }

  // ----- one header -----

  /** The merge leaves every byte of the header at a as it was, or for isAllocated its truth. */
  ghost predicate Intact(m: seq<byte>, s: u32, a: nat)
    requires a + HEADER <= |m|
  {
    && (forall x {:trigger MergedByte(m, s, x)} :: a <= x < a + 12 ==> MergedByte(m, s, x) == m[x])
    && (MergedByte(m, s, a + 12) == 0 <==> m[a + 12] == 0)
  }

  /** The three words miss the header at a. */
  predicate Misses(m: seq<byte>, s: u32, a: nat) {
    var nn := TakenLink(m, s);
    && (a + 13 <= s + 4 || s + 12 <= a)
    && (nn != 0 ==> a + 13 <= nn || nn + 4 <= a)
  }

  lemma MissesIntact(m: seq<byte>, s: u32, a: nat)
    requires a + HEADER <= |m| && Misses(m, s, a)
    ensures Intact(m, s, a)
  {
  }

  lemma SameWord(m: seq<byte>, m': seq<byte>, a: nat)
    requires a + 4 <= |m| == |m'|
    ensures Le32(m, a) == Le32(m', a) <==> forall x :: a <= x < a + 4 ==> m[x] == m'[x]
  {
    var a0: int, a1: int, a2: int, a3: int := m[a], m[a + 1], m[a + 2], m[a + 3];
    var b0: int, b1: int, b2: int, b3: int := m'[a], m'[a + 1], m'[a + 2], m'[a + 3];
    if Le32(m, a) == Le32(m', a) {
      SameDigits(a0, a1, a2, a3, b0, b1, b2, b3);
    } else {
      assert !(a0 == b0 && a1 == b1 && a2 == b2 && a3 == b3);
    }
  }

  lemma SameDigits(a0: byte, a1: byte, a2: byte, a3: byte, b0: byte, b1: byte, b2: byte, b3: byte)
    requires a0 + 0x100 * a1 + 0x1_0000 * a2 + 0x100_0000 * a3 == b0 + 0x100 * b1 + 0x1_0000 * b2 + 0x100_0000 * b3
    ensures a0 == b0 && a1 == b1 && a2 == b2 && a3 == b3
  {
    FirstDigit(a0, a1 + 0x100 * a2 + 0x1_0000 * a3, b0, b1 + 0x100 * b2 + 0x1_0000 * b3);
    FirstDigit(a1, a2 + 0x100 * a3, b1, b2 + 0x100 * b3);
    FirstDigit(a2, a3, b2, b3);
  }

  lemma FirstDigit(a: byte, x: int, b: byte, y: int)
    requires a + 0x100 * x == b + 0x100 * y
    ensures a == b && x == y
  {
  }

  /** Two headers read the same if and only if their bytes agree. */
  lemma SameHeader(m: seq<byte>, m': seq<byte>, a: nat)
    requires a + HEADER <= |m| == |m'|
    ensures HeaderAt(m, a) == HeaderAt(m', a) <==>
            (forall x :: a <= x < a + 12 ==> m[x] == m'[x]) && (m[a + 12] == 0 <==> m'[a + 12] == 0)
  {
    SameWord(m, m', a);
    SameWord(m, m', a + 4);
    SameWord(m, m', a + 8);
  }

  lemma HeaderIntact(m: seq<byte>, s: u32, a: nat)
    requires MergeReach(m, s) && Merges(m, s) && a + HEADER <= |m|
    ensures HeaderAt(MergeBytes(m, s), a) == HeaderAt(m, a) <==> Intact(m, s, a)
  {
    var r := MergeBytes(m, s);
    forall x | a <= x <= a + 12 ensures r[x] == MergedByte(m, s, x) {
      MergedByteIs(m, s, x);
    }
    SameHeader(m, r, a);
  }

  // ----- the headers of a list -----

  ghost predicate AllIntact(m: seq<byte>, s: u32, bs: seq<Block>) {
    forall i {:trigger Intact(m, s, bs[i].addr)} :: 0 <= i < |bs| ==>
      bs[i].addr + HEADER <= |m| && Intact(m, s, bs[i].addr)
  }

  /** What the second half of free does through s leaves the headers of this list as they are. */
  ghost predicate Spares(m: seq<byte>, s: u32, bs: seq<Block>) {
    Merges(m, s) ==> AllIntact(m, s, bs)
  }

  lemma MissesSpares(m: seq<byte>, s: u32, bs: seq<Block>)
    requires forall i :: 0 <= i < |bs| ==> bs[i].addr + HEADER <= |m| && Misses(m, s, bs[i].addr)
    ensures Spares(m, s, bs)
  {
    forall i | 0 <= i < |bs| ensures bs[i].addr + HEADER <= |m| && Intact(m, s, bs[i].addr) {
      MissesIntact(m, s, bs[i].addr);
    }
  }

  /** The second half of free through s. */
  function SecondBytes(m: seq<byte>, s: nat): (r: seq<byte>)
    ensures |r| == |m|
  {
    if Merges(m, s) then MergeBytes(m, s) else m
  }

  lemma SecondView(m: seq<byte>, s: u32, bs: seq<Block>, hs: seq<Header>, lo: nat, hi: nat)
    requires Placed(m, bs, lo, hi) && View(m, bs, hs) && (Merges(m, s) ==> MergeReach(m, s))
    ensures View(SecondBytes(m, s), bs, hs) <==> Spares(m, s, bs)
  {
    if Merges(m, s) {
      MergedView(m, MergeBytes(m, s), s, bs, hs, lo, hi);
    }
  }

  lemma MergedView(m: seq<byte>, r: seq<byte>, s: u32, bs: seq<Block>, hs: seq<Header>, lo: nat, hi: nat)
    requires Placed(m, bs, lo, hi) && View(m, bs, hs)
    requires Merges(m, s) && MergeReach(m, s) && r == MergeBytes(m, s)
    ensures View(r, bs, hs) <==> AllIntact(m, s, bs)
  {
    forall i | 0 <= i < |bs|
      ensures bs[i].addr + HEADER <= |m| && (ReadsAs(r, bs, hs, i) <==> Intact(m, s, bs[i].addr))
    {
      OneIntact(m, r, s, bs, hs, lo, hi, i);
    }
  }

  lemma OneIntact(m: seq<byte>, r: seq<byte>, s: u32, bs: seq<Block>, hs: seq<Header>, lo: nat, hi: nat, i: nat)
    requires Placed(m, bs, lo, hi) && View(m, bs, hs) && i < |bs|
    requires Merges(m, s) && MergeReach(m, s) && r == MergeBytes(m, s)
    ensures bs[i].addr + HEADER <= |m| && (ReadsAs(r, bs, hs, i) <==> Intact(m, s, bs[i].addr))
  {
    Within(bs, lo, hi, i);
    assert ReadsAs(m, bs, hs, i);
    HeaderIntact(m, s, bs[i].addr);
  }

  /** A free through a prev field that names no block: memory still reads as the list with the block
      released if and only if the words that the merge stores, if there is one, leave every header of it
      as it was. */
  lemma FreeAstray(m: seq<byte>, m1: seq<byte>, m': seq<byte>, bs: seq<Block>, hs: seq<Header>,
                   lo: nat, hi: nat, k: nat)
    requires Placed(m, bs, lo, hi) && View(m, bs, hs) && Chained(hs, bs) && k < |bs|
    requires !Names(bs, k, hs[k].prev) && FreeReach(m, bs[k].Payload())
    requires m1 == ReleaseBytes(m, bs[k].addr) && m' == FreeBytes(m, bs[k].Payload())
    ensures hs[k].prev < TWO32 && m' == SecondBytes(m1, hs[k].prev)
    ensures FreeVia(bs, k, hs[k].prev) == Released(bs, k)
    ensures View(m', FreeVia(bs, k, hs[k].prev), FreeHeaders(hs, bs, k)) <==> Spares(m1, hs[k].prev, Released(bs, k))
  {
    FirstHalf(m, bs, hs, lo, hi, k);
    AstrayIs(m, m1, m', bs, hs, lo, hi, k);
    SecondView(m1, hs[k].prev, Released(bs, k), ReleasedHeaders(hs, bs, k), lo, hi);
  }

  lemma AstrayIs(m: seq<byte>, m1: seq<byte>, m': seq<byte>, bs: seq<Block>, hs: seq<Header>, lo: nat, hi: nat, k: nat)
    requires Placed(m, bs, lo, hi) && View(m, bs, hs) && Chained(hs, bs) && k < |bs|
    requires hs[k].prev != 0 && FreeReach(m, bs[k].Payload())
    requires m1 == ReleaseBytes(m, bs[k].addr) && m' == FreeBytes(m, bs[k].Payload())
    ensures hs[k].prev < TWO32 && m' == SecondBytes(m1, hs[k].prev)
    ensures Merges(m1, hs[k].prev) ==> MergeReach(m1, hs[k].prev)
  {
    FirstFacts(m, m1, bs, hs, lo, hi, k);
    SecondIs(m, m1, m', bs[k].addr, hs[k].prev);
  }

  lemma FirstFacts(m: seq<byte>, m1: seq<byte>, bs: seq<Block>, hs: seq<Header>, lo: nat, hi: nat, k: nat)
    requires Placed(m, bs, lo, hi) && View(m, bs, hs) && Chained(hs, bs) && k < |bs|
    requires m1 == ReleaseBytes(m, bs[k].addr)
    ensures bs[k].addr + HEADER <= |m| && MergeReach(WithLive(m, bs[k].addr, false), bs[k].addr)
    ensures HeaderAt(m1, bs[k].addr).prev == hs[k].prev < TWO32
  {
    FirstHalf(m, bs, hs, lo, hi, k);
    HeaderOf(m, bs, hs, k);
  }

  lemma SecondIs(m: seq<byte>, m1: seq<byte>, m': seq<byte>, a: nat, s: nat)
    requires a + HEADER <= |m| && MergeReach(WithLive(m, a, false), a) && FreeReach(m, a + HEADER)
    requires m1 == ReleaseBytes(m, a) && m' == FreeBytes(m, a + HEADER) && s == HeaderAt(m1, a).prev != 0
    ensures m' == SecondBytes(m1, s) && (Merges(m1, s) ==> MergeReach(m1, s))
  {
    FreeReads(m, a, s, HeaderAt(m1, s).live);
    MergeOpens(m1, s, HeaderAt(m1, s), HeaderAt(m1, HeaderAt(m1, s).next));
  }

  // ----- payloads -----

  /** The three words miss the payload of b. */
  predicate Clears(m: seq<byte>, s: u32, b: Block) {
    var nn := TakenLink(m, s);
    && (b.End() <= s + 4 || s + 12 <= b.Payload())
    && (nn != 0 ==> b.End() <= nn || nn + 4 <= b.Payload())
  }

  /** Such a free leaves every other live payload that the words miss. */
  lemma AstrayKeeps(m: seq<byte>, m1: seq<byte>, m': seq<byte>, bs: seq<Block>, hs: seq<Header>,
                    lo: nat, hi: nat, k: nat, b: Block, x: nat)
    requires Placed(m, bs, lo, hi) && View(m, bs, hs) && Chained(hs, bs) && k < |bs|
    requires hs[k].prev != 0 && FreeReach(m, bs[k].Payload()) && hs[k].prev < TWO32
    requires m1 == ReleaseBytes(m, bs[k].addr) && m' == FreeBytes(m, bs[k].Payload())
    requires b in LiveBlocks(bs) && b != bs[k] && b.Payload() <= x < b.End() && x < |m|
    requires Merges(m1, hs[k].prev) ==> Clears(m1, hs[k].prev, b)
    ensures m'[x] == m[x]
  {
    ReleaseKeeps(m, m1, bs, hs, lo, hi, k, b, x);
    AstrayIs(m, m1, m', bs, hs, lo, hi, k);
    SecondClears(m1, hs[k].prev, b, x);
  }

  lemma ReleaseKeeps(m: seq<byte>, m1: seq<byte>, bs: seq<Block>, hs: seq<Header>,
                     lo: nat, hi: nat, k: nat, b: Block, x: nat)
    requires Placed(m, bs, lo, hi) && View(m, bs, hs) && Chained(hs, bs) && k < |bs|
    requires m1 == ReleaseBytes(m, bs[k].addr)
    requires b in LiveBlocks(bs) && b != bs[k] && b.Payload() <= x < b.End() && x < |m|
    ensures m1[x] == m[x]
  {
    FirstHalf(m, bs, hs, lo, hi, k);
    assert b in LiveBlocks(bs) - {bs[k]};
  }

  lemma SecondClears(m: seq<byte>, s: u32, b: Block, x: nat)
    requires Merges(m, s) ==> MergeReach(m, s) && Clears(m, s, b)
    requires b.Payload() <= x < b.End() && x < |m|
    ensures SecondBytes(m, s)[x] == m[x]
  {
    if Merges(m, s) {
      MergedByteIs(m, s, x);
    }
  }
}

/** What the prev fields name when back links may be lost (libc/src/stdlib/heap.c as written): each is null
    or the address of a block in front, until a block that a lost link still names is merged away. */
module HeapLinks {
  import opened Bytes
  import opened HeapBlocks
  import opened HeapMemory
  import opened HeapBytes

  /** Every prev field is null or names a block in front of its own. */
  ghost predicate AllBackUp(hs: seq<Header>, bs: seq<Block>) {
    |hs| == |bs| && forall i :: 0 <= i < |bs| ==> BacksUp(hs, bs, i)
  }

  /** Merging block k with the next one would leave a header further behind pointing at a block that is
      gone. */
  ghost predicate Orphans(hs: seq<Header>, bs: seq<Block>, k: nat) {
    k + 1 < |bs| && !bs[k + 1].live && exists i :: k + 2 < i < |bs| && i < |hs| && hs[i].prev == bs[k + 1].addr
  }

  lemma BackUpWitness(hs: seq<Header>, bs: seq<Block>, i: nat, j: nat)
    requires j < i < |hs| && j < |bs| && bs[j].addr == hs[i].prev
    ensures BacksUp(hs, bs, i)
  {
  }

  /** Right links back up, and leave no orphans. */
  lemma LinkedBacksUp(hs: seq<Header>, bs: seq<Block>, lo: nat, hi: nat)
    requires Tiles(bs, lo, hi) && Linked(hs, bs)
    ensures AllBackUp(hs, bs)
    ensures forall k: nat :: !Orphans(hs, bs, k)
  {
    forall i | 0 <= i < |bs| ensures BacksUp(hs, bs, i) {
      assert PointsBack(hs[i], bs, i);
      if i > 0 {
        BackUpWitness(hs, bs, i, i - 1);
      }
    }
    forall k: nat ensures !Orphans(hs, bs, k) {
      if Orphans(hs, bs, k) {
        var i :| k + 2 < i < |bs| && hs[i].prev == bs[k + 1].addr;
        assert PointsBack(hs[i], bs, i);
        Ordered(bs, lo, hi, k + 1, i - 1);
      }
    }
  }

  // ----- merging -----

  lemma MergedPrev(hs: seq<Header>, bs: seq<Block>, k: nat, i: nat)
    requires |hs| == |bs| && k + 1 < |bs| && !bs[k + 1].live && i < |Merge(bs, k)|
    ensures Merge(bs, k)[i].addr == bs[if i <= k then i else i + 1].addr
    ensures MergedHeaders(hs, bs, k)[i].prev == if i == k + 1 then bs[k].addr else hs[if i <= k then i else i + 1].prev
  {
  }

  /** A merge keeps every prev field naming a block exactly when it makes no orphan. */
  lemma MergeBackUp(hs: seq<Header>, bs: seq<Block>, lo: nat, hi: nat, k: nat)
    requires Tiles(bs, lo, hi) && AllBackUp(hs, bs) && k < |bs| && lo > 0
    ensures AllBackUp(MergeHeaders(hs, bs, k), Merge(bs, k)) <==> !Orphans(hs, bs, k)
  {
    if k + 1 < |bs| && !bs[k + 1].live {
      var r, rs := Merge(bs, k), MergedHeaders(hs, bs, k);
      if Orphans(hs, bs, k) {
        var i :| k + 2 < i < |bs| && hs[i].prev == bs[k + 1].addr;
        MergedOrphan(hs, bs, lo, hi, k, i);
      } else {
        forall i | 0 <= i < |r| ensures BacksUp(rs, r, i) {
          MergedBackUp(hs, bs, k, i);
        }
      }
    }
  }

  lemma MergedBackUp(hs: seq<Header>, bs: seq<Block>, k: nat, i: nat)
    requires AllBackUp(hs, bs) && k + 1 < |bs| && !bs[k + 1].live && !Orphans(hs, bs, k) && i < |Merge(bs, k)|
    ensures BacksUp(MergedHeaders(hs, bs, k), Merge(bs, k), i)
  {
    var r, rs := Merge(bs, k), MergedHeaders(hs, bs, k);
    MergedPrev(hs, bs, k, i);
    if i == k + 1 {
      MergedPrev(hs, bs, k, k);
      BackUpWitness(rs, r, i, k);
    } else if rs[i].prev != 0 {
      var o := if i <= k then i else i + 1;
      assert BacksUp(hs, bs, o);
      var j: nat :| j < o && bs[j].addr == hs[o].prev;
      StillNamed(hs, bs, k, i, o, j);
    }
  }

  lemma StillNamed(hs: seq<Header>, bs: seq<Block>, k: nat, i: nat, o: nat, j: nat)
    requires |hs| == |bs| && k + 1 < |bs| && !bs[k + 1].live && !Orphans(hs, bs, k) && i < |Merge(bs, k)|
    requires i != k + 1 && o == (if i <= k then i else i + 1) && j < o < |bs| && bs[j].addr == hs[o].prev
    ensures BacksUp(MergedHeaders(hs, bs, k), Merge(bs, k), i)
  {
    assert j == k + 1 ==> o > k + 2;
    var j' := if j <= k then j else j - 1;
    MergedPrev(hs, bs, k, i);
    MergedPrev(hs, bs, k, j');
    BackUpWitness(MergedHeaders(hs, bs, k), Merge(bs, k), i, j');
  }

  lemma MergedOrphan(hs: seq<Header>, bs: seq<Block>, lo: nat, hi: nat, k: nat, i: nat)
    requires Tiles(bs, lo, hi) && lo > 0 && |hs| == |bs| && k + 1 < |bs| && !bs[k + 1].live
    requires k + 2 < i < |bs| && hs[i].prev == bs[k + 1].addr
    ensures !BacksUp(MergedHeaders(hs, bs, k), Merge(bs, k), i - 1)
    ensures i - 1 < |Merge(bs, k)|
  {
    var r, rs := Merge(bs, k), MergedHeaders(hs, bs, k);
    MergedPrev(hs, bs, k, i - 1);
    Within(bs, lo, hi, k + 1);
    forall j | 0 <= j < i - 1 ensures r[j].addr != rs[i - 1].prev {
      MergedPrev(hs, bs, k, j);
      if j <= k {
        Ordered(bs, lo, hi, j, k + 1);
      } else {
        Ordered(bs, lo, hi, k + 1, j + 1);
      }
    }
  }

  // ----- cutting -----

  lemma CutPrev(hs: seq<Header>, bs: seq<Block>, k: nat, n: nat, relinks: bool, i: nat)
    requires |hs| == |bs| && k < |bs| && n + HEADER <= bs[k].size && i < |bs| + 1
    ensures var r, rs := Cut(bs, k, n), CutHeaders(hs, bs, k, n, relinks);
            && |r| == |rs| == |bs| + 1
            && r[i].addr == (if i <= k then bs[i].addr
                             else if i == k + 1 then bs[k].addr + HEADER + n
                             else bs[i - 1].addr)
            && (i != k + 1 ==> (r[i].live <==> bs[if i <= k then i else i - 1].live))
            && rs[i].prev == if i <= k then hs[i].prev else if i == k + 1 then bs[k].addr
                             else if i == k + 2 && relinks then bs[k].addr + HEADER + n else hs[i - 1].prev
  {
  }

  lemma CutBackUp(hs: seq<Header>, bs: seq<Block>, k: nat, n: nat, relinks: bool)
    requires AllBackUp(hs, bs) && k < |bs| && n + HEADER <= bs[k].size
    ensures AllBackUp(CutHeaders(hs, bs, k, n, relinks), Cut(bs, k, n))
  {
    var r, rs := Cut(bs, k, n), CutHeaders(hs, bs, k, n, relinks);
    CutPrev(hs, bs, k, n, relinks, 0);
    forall i | 0 <= i < |r| ensures BacksUp(rs, r, i) {
      CutBackUpAt(hs, bs, k, n, relinks, i);
    }
  }

  lemma CutBackUpAt(hs: seq<Header>, bs: seq<Block>, k: nat, n: nat, relinks: bool, i: nat)
    requires AllBackUp(hs, bs) && k < |bs| && n + HEADER <= bs[k].size && i < |bs| + 1
    ensures |CutHeaders(hs, bs, k, n, relinks)| == |bs| + 1
    ensures BacksUp(CutHeaders(hs, bs, k, n, relinks), Cut(bs, k, n), i)
  {
    var r, rs := Cut(bs, k, n), CutHeaders(hs, bs, k, n, relinks);
    CutPrev(hs, bs, k, n, relinks, i);
    if i == k + 1 || (i == k + 2 && relinks) {
      CutPrev(hs, bs, k, n, relinks, i - 1);
      BackUpWitness(rs, r, i, i - 1);
    } else if rs[i].prev != 0 {
      var o := if i <= k then i else i - 1;
      assert BacksUp(hs, bs, o);
      var j :| 0 <= j < o && bs[j].addr == hs[o].prev;
      var j' := if j <= k then j else j + 1;
      CutPrev(hs, bs, k, n, relinks, j');
      BackUpWitness(rs, r, i, j');
    }
  }

  /** The leftover's merge orphans a header exactly when merging the uncut block would. */
  lemma CutOrphans(hs: seq<Header>, bs: seq<Block>, k: nat, n: nat, relinks: bool)
    requires |hs| == |bs| && k < |bs| && n + HEADER <= bs[k].size
    ensures Orphans(CutHeaders(hs, bs, k, n, relinks), Cut(bs, k, n), k + 1) <==> Orphans(hs, bs, k)
  {
    var r, rs := Cut(bs, k, n), CutHeaders(hs, bs, k, n, relinks);
    CutPrev(hs, bs, k, n, relinks, 0);
    if k + 1 < |bs| {
      CutPrev(hs, bs, k, n, relinks, k + 2);
    }
    if Orphans(hs, bs, k) {
      var i :| k + 2 < i < |bs| && hs[i].prev == bs[k + 1].addr;
      CutPrev(hs, bs, k, n, relinks, i + 1);
      assert rs[i + 1].prev == r[k + 2].addr;
    }
    if Orphans(rs, r, k + 1) {
      var i :| k + 3 < i < |r| && rs[i].prev == r[k + 2].addr;
      CutPrev(hs, bs, k, n, relinks, i);
      assert hs[i - 1].prev == bs[k + 1].addr;
    }
  }

  // ----- whole operations -----

  lemma RetagBackUp(hs: seq<Header>, bs: seq<Block>, k: nat, live: bool)
    requires |hs| == |bs| && k < |bs|
    ensures AllBackUp(hs[k := hs[k].(live := live)], bs[k := bs[k].(live := live)]) <==> AllBackUp(hs, bs)
  {
    var rs, r := hs[k := hs[k].(live := live)], bs[k := bs[k].(live := live)];
    forall i | 0 <= i < |bs| ensures BacksUp(rs, r, i) <==> BacksUp(hs, bs, i) {
      assert forall j :: 0 <= j < |bs| ==> r[j].addr == bs[j].addr;
    }
  }

  /** malloc would merge away a block that a lost link names. */
  ghost predicate MallocOrphans(hs: seq<Header>, bs: seq<Block>, n: u32) {
    var k := FirstFit(bs, Align4(n));
    k < |bs| && bs[k].size > Align4(n) + HEADER + 4 && Orphans(hs, bs, k)
  }

  lemma SplitBackUp(hs: seq<Header>, bs: seq<Block>, lo: nat, hi: nat, k: nat, n: nat, relinks: bool)
    requires Tiles(bs, lo, hi) && lo > 0 && AllBackUp(hs, bs) && k < |bs| && bs[k].size > n + HEADER + 4
    ensures |SplitHeaders(hs, bs, k, n, relinks)| == |Split(bs, k, n)|
    ensures AllBackUp(SplitHeaders(hs, bs, k, n, relinks), Split(bs, k, n)) <==> !Orphans(hs, bs, k)
  {
    var r, rs := Cut(bs, k, n), CutHeaders(hs, bs, k, n, relinks);
    SplitLength(hs, bs, k, n, relinks);
    CutTiles(bs, lo, hi, k, n);
    CutBackUp(hs, bs, k, n, relinks);
    CutOrphans(hs, bs, k, n, relinks);
    MergeBackUp(rs, r, lo, hi, k + 1);
    CutPrev(hs, bs, k, n, relinks, k + 1);
    if k + 1 < |bs| {
      CutPrev(hs, bs, k, n, relinks, k + 2);
    }
    assert SplitHeaders(hs, bs, k, n, relinks) == MergeHeaders(rs, r, k + 1);
  }

  /** malloc keeps every prev field naming a block exactly when it makes no orphan. */
  lemma MallocBackUp(hs: seq<Header>, bs: seq<Block>, lo: nat, hi: nat, n: u32, relinks: bool)
    requires Tiles(bs, lo, hi) && lo > 0 && AllBackUp(hs, bs)
    ensures AllBackUp(MallocHeaders(hs, bs, n, relinks), MallocBlocks(bs, n)) <==> !MallocOrphans(hs, bs, n)
  {
    var k := FirstFit(bs, Align4(n));
    if k < |bs| {
      SplitHead(bs, k, Align4(n));
      SplitLength(hs, bs, k, Align4(n), relinks);
      if bs[k].size > Align4(n) + HEADER + 4 {
        SplitBackUp(hs, bs, lo, hi, k, Align4(n), relinks);
      }
      RetagBackUp(SplitHeaders(hs, bs, k, Align4(n), relinks), Split(bs, k, Align4(n)), k, true);
    }
  }

  /** free of block k would merge away a block that a lost link names. */
  ghost predicate FreeOrphans(hs: seq<Header>, bs: seq<Block>, k: nat)
    requires |hs| == |bs| && k < |bs|
  {
    || Orphans(hs[k := hs[k].(live := false)], bs[k := bs[k].(live := false)], k)
    || (var r, j := Released(bs, k), IndexOf(Released(bs, k), hs[k].prev);
        hs[k].prev != 0 && j < |r| && !r[j].live && Orphans(ReleasedHeaders(hs, bs, k), r, j))
  }

  /** free keeps every prev field naming a block exactly when it makes no orphan. */
  lemma FreeBackUp(hs: seq<Header>, bs: seq<Block>, lo: nat, hi: nat, k: nat)
    requires Tiles(bs, lo, hi) && lo > 0 && AllBackUp(hs, bs) && k < |bs|
    ensures AllBackUp(FreeHeaders(hs, bs, k), FreeVia(bs, k, hs[k].prev)) <==> !FreeOrphans(hs, bs, k)
  {
    var th, tagged := hs[k := hs[k].(live := false)], bs[k := bs[k].(live := false)];
    RetagTiles(bs, lo, hi, k, false);
    RetagBackUp(hs, bs, k, false);
    MergeBackUp(th, tagged, lo, hi, k);
    MergeTiles(tagged, lo, hi, k);
    var rel, rh, j := Released(bs, k), ReleasedHeaders(hs, bs, k), IndexOf(Released(bs, k), hs[k].prev);
    if hs[k].prev != 0 && j < |rel| && !rel[j].live {
      if Orphans(th, tagged, k) {
        var i :| k + 2 < i < |bs| && th[i].prev == tagged[k + 1].addr;
        MergedOrphan(th, tagged, lo, hi, k, i);
        NamedInFront(bs, hs, lo, hi, k, j);
        OrphanStays(rh, rel, lo, hi, k, j, i - 1);
      } else {
        MergeBackUp(rh, rel, lo, hi, j);
      }
    }
  }

  lemma NamedInFront(bs: seq<Block>, hs: seq<Header>, lo: nat, hi: nat, k: nat, j: nat)
    requires Tiles(bs, lo, hi) && AllBackUp(hs, bs) && k < |bs| && hs[k].prev != 0
    requires j == IndexOf(Released(bs, k), hs[k].prev)
    ensures j < k
  {
    assert BacksUp(hs, bs, k);
    var i :| 0 <= i < k && bs[i].addr == hs[k].prev;
    var tagged := bs[k := bs[k].(live := false)];
    RetagTiles(bs, lo, hi, k, false);
    MergeTiles(tagged, lo, hi, k);
    assert Released(bs, k)[i].addr == bs[i].addr;
    IndexOfBlock(Released(bs, k), lo, hi, i);
  }

  /** A merge in front does not help a header that already points at nothing. */
  lemma OrphanStays(hs: seq<Header>, bs: seq<Block>, lo: nat, hi: nat, k: nat, j: nat, i: nat)
    requires Tiles(bs, lo, hi) && |hs| == |bs| && j < k && k + 1 < i < |bs| && !BacksUp(hs, bs, i)
    ensures !AllBackUp(MergeHeaders(hs, bs, j), Merge(bs, j))
  {
    if j + 1 < |bs| && !bs[j + 1].live {
      var r, rs := Merge(bs, j), MergedHeaders(hs, bs, j);
      forall x | 0 <= x < i - 1 ensures r[x].addr != rs[i - 1].prev {
        StillUnnamed(hs, bs, j, i, x);
      }
      MergedPrev(hs, bs, j, i - 1);
      assert !BacksUp(rs, r, i - 1);
    }
  }

  lemma StillUnnamed(hs: seq<Header>, bs: seq<Block>, j: nat, i: nat, x: nat)
    requires |hs| == |bs| && j + 2 < i < |bs| && !bs[j + 1].live && !BacksUp(hs, bs, i) && x < i - 1
    ensures Merge(bs, j)[x].addr != MergedHeaders(hs, bs, j)[i - 1].prev
  {
    MergedPrev(hs, bs, j, i - 1);
    MergedPrev(hs, bs, j, x);
    assert bs[if x <= j then x else x + 1].addr != hs[i].prev;
  }

  // ----- live blocks, whatever the links say -----

  lemma TagLive(bs: seq<Block>, lo: nat, hi: nat, k: nat, live: bool)
    requires Tiles(bs, lo, hi) && k < |bs| && bs[k].live != live
    ensures var r := bs[k := bs[k].(live := live)];
            if live then r[k] !in LiveBlocks(bs) && LiveBlocks(r) == LiveBlocks(bs) + {r[k]}
            else LiveBlocks(r) == LiveBlocks(bs) - {bs[k]}
  {
    var r := bs[k := bs[k].(live := live)];
    assert bs == bs[..k] + [bs[k]] + bs[k + 1..] && r == bs[..k] + [r[k]] + bs[k + 1..];
    LiveAround(bs[..k], [bs[k]], bs[k + 1..]);
    LiveAround(bs[..k], [r[k]], bs[k + 1..]);
    assert LiveBlocks([bs[k]]) == if live then {} else {bs[k]};
    assert LiveBlocks([r[k]]) == if live then {r[k]} else {};
    forall b | b in LiveBlocks(bs[..k]) + LiveBlocks(bs[k + 1..]) ensures b.addr != bs[k].addr {
      Distinct(bs, lo, hi, k, b);
    }
  }

  lemma SplitLive(bs: seq<Block>, k: nat, n: nat)
    requires k < |bs| && !bs[k].live
    ensures LiveBlocks(Split(bs, k, n)) == LiveBlocks(bs) && k < |Split(bs, k, n)| && !Split(bs, k, n)[k].live
  {
    if bs[k].size > n + HEADER + 4 {
      var r := Cut(bs, k, n);
      assert bs == bs[..k] + [bs[k]] + bs[k + 1..];
      assert r == bs[..k] + [r[k], r[k + 1]] + bs[k + 1..];
      LiveAround(bs[..k], [bs[k]], bs[k + 1..]);
      LiveAround(bs[..k], [r[k], r[k + 1]], bs[k + 1..]);
      assert LiveBlocks([bs[k]]) == {} && LiveBlocks([r[k], r[k + 1]]) == {};
      MergeLive(r, k + 1);
    }
  }

  /** malloc adds exactly the block it returns. */
  lemma MallocLive(bs: seq<Block>, lo: nat, hi: nat, n: u32)
    requires Tiles(bs, lo, hi) && FirstFit(bs, Align4(n)) < |bs|
    ensures var k := FirstFit(bs, Align4(n)); var r := MallocBlocks(bs, n);
            && k < |r| && r[k].live && r[k].addr == bs[k].addr && r[k].size >= Align4(n)
            && r[k] !in LiveBlocks(bs) && LiveBlocks(r) == LiveBlocks(bs) + {r[k]}
  {
    var k := FirstFit(bs, Align4(n));
    SplitLive(bs, k, Align4(n));
    SplitHead(bs, k, Align4(n));
    SplitTiles(bs, lo, hi, k, Align4(n));
    TagLive(Split(bs, k, Align4(n)), lo, hi, k, true);
  }

  /** free removes exactly the block it is given, whatever its prev field holds. */
  lemma FreeLive(bs: seq<Block>, lo: nat, hi: nat, k: nat, p: nat)
    requires Tiles(bs, lo, hi) && k < |bs| && bs[k].live
    ensures LiveBlocks(FreeVia(bs, k, p)) == LiveBlocks(bs) - {bs[k]}
  {
    var tagged := bs[k := bs[k].(live := false)];
    TagLive(bs, lo, hi, k, false);
    MergeLive(tagged, k);
    var rel, j := Released(bs, k), IndexOf(Released(bs, k), p);
    if p != 0 && j < |rel| && !rel[j].live {
      MergeLive(rel, j);
    }
  }

  /** True when malloc(n) splits a block that has a live block behind it: the one case in which the
      split as written leaves that block's prev field pointing past the new leftover. */
  ghost predicate LosesBackLink(bs: seq<Block>, n: u32) {
    var k := FirstFit(bs, Align4(n));
    k + 1 < |bs| && bs[k + 1].live && bs[k].size > Align4(n) + HEADER + 4
  }

  // ----- realloc on the list -----

  /** The copy of realloc stays inside the new block. */
  predicate CopyFits(bs: seq<Block>, k: nat, n: u32)
    requires k < |bs|
  {
    var f := FirstFit(bs, Align4(n));
    f < |bs| ==> f < |MallocBlocks(bs, n)| && Min(bs[k].size, n) <= MallocBlocks(bs, n)[f].size
  }

  /** It does for every request up to 2^32 - 4; a larger one wraps to 0, and then only if the new block
      happens to be as large as the old one. */
  lemma CopyFitsWhen(bs: seq<Block>, lo: nat, hi: nat, k: nat, n: u32)
    requires Tiles(bs, lo, hi) && hi < TWO32 && k < |bs|
    ensures n <= 0xFFFF_FFFC ==> CopyFits(bs, k, n)
    ensures n > 0xFFFF_FFFC && FirstFit(bs, 0) < |bs| ==>
              FirstFit(bs, 0) < |MallocBlocks(bs, n)|
              && (CopyFits(bs, k, n) <==> bs[k].size <= MallocBlocks(bs, n)[FirstFit(bs, 0)].size)
  {
    Align4Covers(n);
    Within(bs, lo, hi, k);
    if FirstFit(bs, Align4(n)) < |bs| {
      MallocLive(bs, lo, hi, n);
    }
  }

  /** Where the first free block can be split, such a request gives an empty block with a header right behind
      it, over which any copy goes. */
  lemma HugeCopies(bs: seq<Block>, k: nat, n: u32)
    requires k < |bs| && n > 0xFFFF_FFFC
    requires FirstFit(bs, 0) < |bs| && bs[FirstFit(bs, 0)].size > HEADER + 4
    ensures var f, r := FirstFit(bs, 0), MallocBlocks(bs, n);
            f + 1 < |r| && r[f].live && r[f].size == 0 && r[f].End() == r[f + 1].addr
    ensures CopyFits(bs, k, n) <==> bs[k].size == 0
  {
    Align4Covers(n);
    var f := FirstFit(bs, 0);
    SplitHead(bs, f, 0);
    assert Cut(bs, f, 0)[f + 1].addr == bs[f].addr + HEADER;
  }

  /** realloc(p, 2^32 - 3) of a block of 100 bytes with room behind it: the 100 bytes it copies go over the
      header of the rest, with either split. */
  lemma HugeRealloc(lo: nat, r: nat)
    requires r > 20
    ensures var bs := [Block(lo, 100, true), Block(lo + 116, r, false)]; var n := 0xFFFF_FFFD;
            && MallocBlocks(bs, n)
               == [Block(lo, 100, true), Block(lo + 116, 0, true), Block(lo + 132, r - 16, false)]
            && !CopyFits(bs, 0, n)
  {
    var bs := [Block(lo, 100, true), Block(lo + 116, r, false)];
    assert bs[1..] == [Block(lo + 116, r, false)];
    assert FirstFit(bs[1..], 0) == 0;
    HugeCopies(bs, 0, 0xFFFF_FFFD);
  }

  /** malloc, then free of block k through the prev field it has by then. */
  function ReallocVia(bs: seq<Block>, hs: seq<Header>, k: nat, n: u32, relinks: bool): (r: (seq<Block>, seq<Header>))
    requires k < |bs| == |hs|
  {
    var gb, gh := MallocBlocks(bs, n), MallocHeaders(hs, bs, n, relinks);
    var j := LiveIndex(gb, bs[k].Payload());
    if FirstFit(bs, Align4(n)) == |bs| || j == |gb| then (bs, hs)
    else (FreeVia(gb, j, gh[j].prev), FreeHeaders(gh, gb, j))
  }
}

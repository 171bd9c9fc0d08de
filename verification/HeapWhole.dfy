/** When the full heap invariant survives a call of libc/src/stdlib/heap.c as written: next and prev inverse,
    no two neighbours free. */
module HeapWhole {
  import opened Bytes
  import opened HeapBlocks
  import opened HeapMemory
  import opened HeapBytes
  import opened HeapLinks

  ghost predicate Whole(bs: seq<Block>, hs: seq<Header>, lo: nat, hi: nat) {
    lo > 0 && WellFormed(bs, lo, hi) && Chained(hs, bs) && Linked(hs, bs)
  }

  /** malloc keeps it if and only if the split is repaired or loses no back link. */
  lemma MallocWhole(bs: seq<Block>, hs: seq<Header>, lo: nat, hi: nat, n: u32, relinks: bool)
    requires Whole(bs, hs, lo, hi)
    ensures Whole(MallocBlocks(bs, n), MallocHeaders(hs, bs, n, relinks), lo, hi) <==> relinks || !LosesBackLink(bs, n)
    ensures Chained(MallocHeaders(hs, bs, n, relinks), MallocBlocks(bs, n))
  {
    var k := FirstFit(bs, Align4(n));
    MallocKeeps(bs, lo, hi, n);
    if k < |bs| {
      SplitHolds(hs, bs, k, Align4(n), relinks);
      SplitHead(bs, k, Align4(n));
      RetagHolds(SplitHeaders(hs, bs, k, Align4(n), relinks), Split(bs, k, Align4(n)), k, true);
    }
  }

  /** free keeps it. */
  lemma FreeWhole(bs: seq<Block>, hs: seq<Header>, lo: nat, hi: nat, k: nat)
    requires Whole(bs, hs, lo, hi) && k < |bs| && bs[k].live
    ensures FreeVia(bs, k, hs[k].prev) == FreeBlocks(bs, k)
    ensures Whole(FreeVia(bs, k, hs[k].prev), FreeHeaders(hs, bs, k), lo, hi)
  {
    assert PointsBack(hs[k], bs, k);
    FreeKeeps(bs, lo, hi, k);
    FreeHolds(hs, bs, k);
  }

  // ----- a lost link -----

  /** A free block between two live ones, to which the one behind does not point back. */
  ghost predicate StalePair(bs: seq<Block>, hs: seq<Header>, i: nat) {
    && 0 < i && i + 1 < |bs| && i + 1 < |hs|
    && bs[i - 1].live && !bs[i].live && bs[i + 1].live && hs[i + 1].prev != bs[i].addr
  }

  lemma StaleUnlinked(bs: seq<Block>, hs: seq<Header>, i: nat)
    requires StalePair(bs, hs, i)
    ensures !Linked(hs, bs)
  {
    assert !PointsBack(hs[i + 1], bs, i + 1);
  }

  /** What a malloc that loses a link leaves behind. */
  lemma LostShape(bs: seq<Block>, hs: seq<Header>, lo: nat, hi: nat, n: u32)
    requires Whole(bs, hs, lo, hi) && LosesBackLink(bs, n)
    ensures var f := FirstFit(bs, Align4(n));
            && StalePair(MallocBlocks(bs, n), MallocHeaders(hs, bs, n, false), f + 1)
            && MallocHeaders(hs, bs, n, false)[f + 2].prev == bs[f].addr == MallocBlocks(bs, n)[f].addr
            && |MallocBlocks(bs, n)| == |bs| + 1 && MallocBlocks(bs, n)[f + 2] == bs[f + 1]
  {
    var f := FirstFit(bs, Align4(n));
    assert PointsBack(hs[f + 1], bs, f + 1);
  }

  /** A merge elsewhere leaves the pair as it is. */
  lemma MergeStale(bs: seq<Block>, hs: seq<Header>, k: nat, i: nat) returns (i': nat)
    requires |hs| == |bs| && k < |bs| && !bs[k].live && StalePair(bs, hs, i)
    ensures StalePair(Merge(bs, k), MergeHeaders(hs, bs, k), i')
  {
    i' := i;
    if k + 1 < |bs| && !bs[k + 1].live {
      assert k + 1 < i - 1 || k > i + 1;
      if k < i {
        i' := i - 1;
        MergeInFront(bs, hs, k, i);
      } else {
        MergeBehind(bs, hs, k, i);
      }
    }
  }

  lemma MergeInFront(bs: seq<Block>, hs: seq<Header>, k: nat, i: nat)
    requires |hs| == |bs| && k + 2 < i < |bs| && !bs[k + 1].live && StalePair(bs, hs, i)
    ensures StalePair(Merge(bs, k), MergedHeaders(hs, bs, k), i - 1)
  {
    var r, rs := Merge(bs, k), MergedHeaders(hs, bs, k);
    assert r[i - 2] == bs[i - 1] && r[i - 1] == bs[i] && r[i] == bs[i + 1] && rs[i].prev == hs[i + 1].prev;
  }

  lemma MergeBehind(bs: seq<Block>, hs: seq<Header>, k: nat, i: nat)
    requires |hs| == |bs| && i + 1 < k && k + 1 < |bs| && !bs[k + 1].live && StalePair(bs, hs, i)
    ensures StalePair(Merge(bs, k), MergedHeaders(hs, bs, k), i)
  {
    var r, rs := Merge(bs, k), MergedHeaders(hs, bs, k);
    assert r[i - 1] == bs[i - 1] && r[i] == bs[i] && r[i + 1] == bs[i + 1] && rs[i + 1].prev == hs[i + 1].prev;
  }

  /** So does freeing any other block. */
  lemma FreeStale(bs: seq<Block>, hs: seq<Header>, k: nat, i: nat) returns (i': nat)
    requires |hs| == |bs| && k < |bs| && StalePair(bs, hs, i) && k != i - 1 && k != i + 1
    ensures StalePair(FreeVia(bs, k, hs[k].prev), FreeHeaders(hs, bs, k), i')
  {
    i' := MergeStale(bs[k := bs[k].(live := false)], hs[k := hs[k].(live := false)], k, i);
    var rel, j := Released(bs, k), IndexOf(Released(bs, k), hs[k].prev);
    if hs[k].prev != 0 && j < |rel| && !rel[j].live {
      i' := MergeStale(rel, ReleasedHeaders(hs, bs, k), j, i');
    }
  }

  // ----- realloc -----

  /** realloc keeps the invariant if and only if its malloc does: freeing the old block mends nothing, and
      if it was the old block whose link was lost, it leaves two free neighbours. */
  lemma ReallocWhole(bs: seq<Block>, hs: seq<Header>, lo: nat, hi: nat, k: nat, n: u32, relinks: bool)
    requires Whole(bs, hs, lo, hi) && k < |bs| && bs[k].live
    ensures var (r, rs) := ReallocVia(bs, hs, k, n, relinks);
            && (Whole(r, rs, lo, hi) <==> relinks || !LosesBackLink(bs, n))
            && (relinks || !LosesBackLink(bs, n) ==> r == ReallocBlocks(bs, k, n))
  {
    var gb, gh := MallocBlocks(bs, n), MallocHeaders(hs, bs, n, relinks);
    var f, j := FirstFit(bs, Align4(n)), LiveIndex(gb, bs[k].Payload());
    if f < |bs| {
      MallocWhole(bs, hs, lo, hi, n, relinks);
      OldBlockStays(bs, lo, hi, k, n);
      if relinks || !LosesBackLink(bs, n) {
        FreeWhole(gb, gh, lo, hi, j);
      } else {
        LostShape(bs, hs, lo, hi, n);
        ReallocLoses(bs, hs, lo, hi, k, n);
      }
    }
  }

  /** After the malloc the old block is still there, and is not the new one. */
  lemma OldBlockStays(bs: seq<Block>, lo: nat, hi: nat, k: nat, n: u32)
    requires Tiles(bs, lo, hi) && k < |bs| && bs[k].live && FirstFit(bs, Align4(n)) < |bs|
    ensures var gb := MallocBlocks(bs, n); var j := LiveIndex(gb, bs[k].Payload());
            j < |gb| && gb[j] == bs[k] && j != FirstFit(bs, Align4(n))
  {
    MallocTiles(bs, lo, hi, n);
    MallocLive(bs, lo, hi, n);
    LiveMember(bs, k);
    LiveIndexFinds(MallocBlocks(bs, n), lo, hi, bs[k]);
  }

  lemma MallocChained(hs: seq<Header>, bs: seq<Block>, n: u32, relinks: bool)
    requires Chained(hs, bs)
    ensures Chained(MallocHeaders(hs, bs, n, relinks), MallocBlocks(bs, n))
  {
    var k := FirstFit(bs, Align4(n));
    if k < |bs| {
      SplitHolds(hs, bs, k, Align4(n), relinks);
      SplitHead(bs, k, Align4(n));
      RetagHolds(SplitHeaders(hs, bs, k, Align4(n), relinks), Split(bs, k, Align4(n)), k, true);
    }
  }

  /** The free inside realloc goes through a prev field that is null or names a block. */
  ghost predicate ReallocNames(hs: seq<Header>, bs: seq<Block>, k: nat, n: u32, relinks: bool)
    requires |hs| == |bs| && k < |bs|
  {
    var gb, gh := MallocBlocks(bs, n), MallocHeaders(hs, bs, n, relinks);
    var j := LiveIndex(gb, bs[k].Payload());
    FirstFit(bs, Align4(n)) < |bs| && j < |gb| ==> Names(gb, j, gh[j].prev)
  }

  /** Which is so when every prev field does and the malloc inside it makes no orphan. */
  lemma ReallocNamed(hs: seq<Header>, bs: seq<Block>, lo: nat, hi: nat, k: nat, n: u32, relinks: bool)
    requires lo > 0 && Tiles(bs, lo, hi) && Chained(hs, bs) && AllBackUp(hs, bs) && k < |bs| && bs[k].live
    requires !MallocOrphans(hs, bs, n)
    ensures ReallocNames(hs, bs, k, n, relinks)
  {
    if FirstFit(bs, Align4(n)) < |bs| {
      var gb, gh := MallocBlocks(bs, n), MallocHeaders(hs, bs, n, relinks);
      OldBlockStays(bs, lo, hi, k, n);
      MallocBackUp(hs, bs, lo, hi, n, relinks);
      MallocTiles(bs, lo, hi, n);
      MallocChained(hs, bs, n, relinks);
      BackUpNames(gb, gh, lo, hi, LiveIndex(gb, bs[k].Payload()));
    }
  }

  lemma ReallocLoses(bs: seq<Block>, hs: seq<Header>, lo: nat, hi: nat, k: nat, n: u32)
    requires Whole(bs, hs, lo, hi) && k < |bs| && bs[k].live && LosesBackLink(bs, n)
    ensures var (r, rs) := ReallocVia(bs, hs, k, n, false); !Coalesced(r) || !Linked(rs, r)
  {
    var gb, gh := MallocBlocks(bs, n), MallocHeaders(hs, bs, n, false);
    var f, j := FirstFit(bs, Align4(n)), LiveIndex(gb, bs[k].Payload());
    OldBlockStays(bs, lo, hi, k, n);
    LostShape(bs, hs, lo, hi, n);
    if j == f + 2 {
      MallocKeeps(bs, lo, hi, n);
      Ordered(gb, lo, hi, f, f + 1);
      StaleBackLink(gb, lo, hi, j, gh[j].prev);
    } else {
      var i := FreeStale(gb, gh, j, f + 1);
      StaleUnlinked(FreeVia(gb, j, gh[j].prev), FreeHeaders(gh, gb, j), i);
    }
  }
}

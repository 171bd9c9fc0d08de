/** Whole runs of the allocator: any sequence of malloc, free and realloc calls by a program that keeps
    its pointers in slots, clears a slot when it frees it, and passes free and realloc only what malloc
    gave it. */
module HeapRuns {
  import opened Bytes
  import opened HeapBlocks
  import opened HeapMemory
  import opened HeapBytes
  import opened HeapLinks
  import opened HeapWhole
  import opened Heap

  datatype Op = Alloc(slot: nat, size: u32) | Release(slot: nat) | Resize(slot: nat, size: u32)

  /** The heap as a block list with its headers, and the program's pointer variables (0 is NULL). */
  datatype State = State(blocks: seq<Block>, headers: seq<Header>, ptrs: seq<nat>)

  /** slot = malloc(n) */
  function AllocState(s: State, i: nat, n: u32, relinks: bool): State
    requires i < |s.ptrs| && |s.headers| == |s.blocks|
  {
    var k := FirstFit(s.blocks, Align4(n));
    State(MallocBlocks(s.blocks, n), MallocHeaders(s.headers, s.blocks, n, relinks),
          s.ptrs[i := if k == |s.blocks| then 0 else s.blocks[k].Payload()])
  }

  /** free(slot); slot = NULL */
  function ReleaseState(s: State, i: nat): State
    requires i < |s.ptrs| && |s.headers| == |s.blocks|
  {
    var k := LiveIndex(s.blocks, s.ptrs[i]);
    if k == |s.blocks| then s.(ptrs := s.ptrs[i := 0])
    else State(FreeVia(s.blocks, k, s.headers[k].prev), FreeHeaders(s.headers, s.blocks, k), s.ptrs[i := 0])
  }

  /** p = realloc(slot, n), kept in the slot unless it is NULL */
  function ResizeState(s: State, i: nat, n: u32, relinks: bool): State
    requires i < |s.ptrs| && |s.headers| == |s.blocks|
  {
    var k, f := LiveIndex(s.blocks, s.ptrs[i]), FirstFit(s.blocks, Align4(n));
    if k == |s.blocks| || f == |s.blocks| then s
    else
      var (r, rs) := ReallocVia(s.blocks, s.headers, k, n, relinks);
      State(r, rs, s.ptrs[i := s.blocks[f].Payload()])
  }

  function Step(s: State, op: Op, relinks: bool): (s': State)
    requires |s.headers| == |s.blocks|
    ensures |s'.headers| == |s'.blocks| && |s'.ptrs| == |s.ptrs|
  {
    if op.slot >= |s.ptrs| then s else
      match op
      case Alloc(i, n) => AllocState(s, i, n, relinks)
      case Release(i) => ReleaseState(s, i)
      case Resize(i, n) => ResizeState(s, i, n, relinks)
  }

  function Run(s: State, ops: seq<Op>, relinks: bool): State
    requires |s.headers| == |s.blocks|
    decreases |ops|
  {
    if ops == [] then s else Run(Step(s, ops[0], relinks), ops[1..], relinks)
  }

  // ----- what every run keeps -----

  /** A slot is NULL or holds the pointer of a live block, its own. */
  ghost predicate Owns(s: State, i: nat)
    requires i < |s.ptrs|
  {
    s.ptrs[i] != 0 ==> LiveIndex(s.blocks, s.ptrs[i]) < |s.blocks|
  }

  ghost predicate Apart(s: State, i: nat, j: nat)
    requires i < |s.ptrs| && j < |s.ptrs|
  {
    s.ptrs[i] != 0 ==> s.ptrs[i] != s.ptrs[j]
  }

  /** Blocks tile the region, headers are aligned and describe the blocks, slots are good and apart. */
  ghost predicate Sane(s: State, lo: nat, hi: nat) {
    && lo > 0 && Sized(s.blocks, s.headers, lo, hi)
    && (forall i :: 0 <= i < |s.ptrs| ==> Owns(s, i))
    && (forall i, j :: 0 <= i < j < |s.ptrs| ==> Apart(s, i, j))
  }

  ghost predicate Sized(bs: seq<Block>, hs: seq<Header>, lo: nat, hi: nat) {
    Tiles(bs, lo, hi) && Aligned(bs) && Chained(hs, bs) && hs[0].prev == 0
  }

  /** A pointer of a live block is still one after the block list changed, if that block stayed. */
  lemma StillOwned(bs: seq<Block>, bs': seq<Block>, lo: nat, hi: nat, p: nat)
    requires Tiles(bs', lo, hi) && LiveIndex(bs, p) < |bs|
    requires bs[LiveIndex(bs, p)] in LiveBlocks(bs')
    ensures LiveIndex(bs', p) < |bs'| && bs'[LiveIndex(bs', p)] == bs[LiveIndex(bs, p)]
  {
    LiveIndexFinds(bs', lo, hi, bs[LiveIndex(bs, p)]);
  }

  lemma FreshPointer(bs: seq<Block>, bs': seq<Block>, lo: nat, hi: nat, b: Block, p: nat)
    requires Tiles(bs', lo, hi) && LiveIndex(bs, p) < |bs|
    requires bs[LiveIndex(bs, p)] in LiveBlocks(bs') && b in LiveBlocks(bs') && b != bs[LiveIndex(bs, p)]
    ensures b.Payload() != p
  {
    if b.Payload() == p {
      LiveByPayload(bs', lo, hi, b, bs[LiveIndex(bs, p)]);
    }
  }

  /** The pointer table after slot i was given the pointer of block b. */
  lemma SlotReplaced(s: State, s': State, lo: nat, hi: nat, i: nat, b: Block)
    requires Sane(s, lo, hi) && i < |s.ptrs| && Sized(s'.blocks, s'.headers, lo, hi)
    requires s'.ptrs == s.ptrs[i := b.Payload()] && b in LiveBlocks(s'.blocks)
    requires forall j :: 0 <= j < |s.ptrs| && j != i && s.ptrs[j] != 0 ==>
               Owns(s, j) && s.blocks[LiveIndex(s.blocks, s.ptrs[j])] in LiveBlocks(s'.blocks)
               && s.blocks[LiveIndex(s.blocks, s.ptrs[j])] != b
    ensures Sane(s', lo, hi)
  {
    LiveIndexFinds(s'.blocks, lo, hi, b);
    forall j | 0 <= j < |s'.ptrs| ensures Owns(s', j) && (j != i ==> s'.ptrs[j] == s.ptrs[j])
      ensures j != i && s.ptrs[j] != 0 ==> s.ptrs[j] != b.Payload()
    {
      if j != i && s.ptrs[j] != 0 {
        assert Owns(s, j);
        StillOwned(s.blocks, s'.blocks, lo, hi, s.ptrs[j]);
        FreshPointer(s.blocks, s'.blocks, lo, hi, b, s.ptrs[j]);
      }
    }
    forall j, l | 0 <= j < l < |s'.ptrs| ensures Apart(s', j, l) {
      assert Apart(s, j, l);
    }
  }

  lemma SlotCleared(s: State, s': State, lo: nat, hi: nat, i: nat)
    requires Sane(s, lo, hi) && i < |s.ptrs| && Sized(s'.blocks, s'.headers, lo, hi)
    requires s'.ptrs == s.ptrs[i := 0]
    requires forall j :: 0 <= j < |s.ptrs| && j != i && s.ptrs[j] != 0 ==>
               Owns(s, j) && s.blocks[LiveIndex(s.blocks, s.ptrs[j])] in LiveBlocks(s'.blocks)
    ensures Sane(s', lo, hi)
  {
    forall j | 0 <= j < |s'.ptrs| ensures Owns(s', j) {
      if j != i && s.ptrs[j] != 0 {
        assert Owns(s, j);
        StillOwned(s.blocks, s'.blocks, lo, hi, s.ptrs[j]);
      }
    }
    forall j, l | 0 <= j < l < |s'.ptrs| ensures Apart(s', j, l) {
      assert Apart(s, j, l);
    }
  }

  /** The block behind another slot's pointer is live, and is not this slot's. */
  lemma OtherSlot(s: State, lo: nat, hi: nat, i: nat, j: nat)
    requires Sane(s, lo, hi) && i < |s.ptrs| && j < |s.ptrs| && i != j && s.ptrs[j] != 0
    ensures Owns(s, j) && LiveIndex(s.blocks, s.ptrs[j]) < |s.blocks|
    ensures var b := s.blocks[LiveIndex(s.blocks, s.ptrs[j])]; b in LiveBlocks(s.blocks) && b.Payload() != s.ptrs[i]
  {
    assert Owns(s, j);
    if i < j { assert Apart(s, i, j); } else { assert Apart(s, j, i); }
  }

  lemma MallocSized(bs: seq<Block>, hs: seq<Header>, lo: nat, hi: nat, n: u32, relinks: bool)
    requires Sized(bs, hs, lo, hi)
    ensures Sized(MallocBlocks(bs, n), MallocHeaders(hs, bs, n, relinks), lo, hi)
  {
    var k := FirstFit(bs, Align4(n));
    MallocTiles(bs, lo, hi, n);
    MallocChained(hs, bs, n, relinks);
    if k < |bs| {
      SplitHead0(hs, bs, k, Align4(n), relinks);
    }
  }

  lemma FreeSized(bs: seq<Block>, hs: seq<Header>, lo: nat, hi: nat, k: nat)
    requires Sized(bs, hs, lo, hi) && k < |bs|
    ensures Sized(FreeVia(bs, k, hs[k].prev), FreeHeaders(hs, bs, k), lo, hi)
  {
    FreeTiles(bs, lo, hi, k, hs[k].prev);
    FreeHolds(hs, bs, k);
  }

  lemma AllocKeeps(s: State, lo: nat, hi: nat, i: nat, n: u32, relinks: bool)
    requires Sane(s, lo, hi) && i < |s.ptrs|
    ensures Sane(AllocState(s, i, n, relinks), lo, hi)
  {
    var s' := AllocState(s, i, n, relinks);
    MallocSized(s.blocks, s.headers, lo, hi, n, relinks);
    forall j | 0 <= j < |s.ptrs| && j != i && s.ptrs[j] != 0
      ensures Owns(s, j) && s.blocks[LiveIndex(s.blocks, s.ptrs[j])] in LiveBlocks(s.blocks)
    {
      OtherSlot(s, lo, hi, i, j);
    }
    var k := FirstFit(s.blocks, Align4(n));
    if k < |s.blocks| {
      MallocLive(s.blocks, lo, hi, n);
      SlotReplaced(s, s', lo, hi, i, s'.blocks[k]);
    } else {
      SlotCleared(s, s', lo, hi, i);
    }
  }

  lemma ReleaseKeeps(s: State, lo: nat, hi: nat, i: nat)
    requires Sane(s, lo, hi) && i < |s.ptrs|
    ensures Sane(ReleaseState(s, i), lo, hi)
  {
    var s' := ReleaseState(s, i);
    var k := LiveIndex(s.blocks, s.ptrs[i]);
    if k < |s.blocks| {
      FreeSized(s.blocks, s.headers, lo, hi, k);
      FreeLive(s.blocks, lo, hi, k, s.headers[k].prev);
    }
    forall j | 0 <= j < |s.ptrs| && j != i && s.ptrs[j] != 0
      ensures Owns(s, j) && s.blocks[LiveIndex(s.blocks, s.ptrs[j])] in LiveBlocks(s'.blocks)
    {
      OtherSlot(s, lo, hi, i, j);
    }
    SlotCleared(s, s', lo, hi, i);
  }

  lemma ResizeKeeps(s: State, lo: nat, hi: nat, i: nat, n: u32, relinks: bool)
    requires Sane(s, lo, hi) && i < |s.ptrs|
    ensures Sane(ResizeState(s, i, n, relinks), lo, hi)
  {
    var s' := ResizeState(s, i, n, relinks);
    var k := LiveIndex(s.blocks, s.ptrs[i]);
    var f := FirstFit(s.blocks, Align4(n));
    if k < |s.blocks| && f < |s.blocks| {
      ResizedFacts(s, lo, hi, i, k, f, n, relinks);
      ResizeSlots(s, s', lo, hi, i, k, MallocBlocks(s.blocks, n)[f], s.blocks[f].Payload());
    }
  }

  lemma ResizedFacts(s: State, lo: nat, hi: nat, i: nat, k: nat, f: nat, n: u32, relinks: bool)
    requires Sized(s.blocks, s.headers, lo, hi) && i < |s.ptrs| && k < |s.blocks| && f < |s.blocks|
    requires k == LiveIndex(s.blocks, s.ptrs[i]) && f == FirstFit(s.blocks, Align4(n))
    ensures f < |MallocBlocks(s.blocks, n)|
    ensures var s' := ResizeState(s, i, n, relinks); var b := MallocBlocks(s.blocks, n)[f];
            && Sized(s'.blocks, s'.headers, lo, hi) && b !in LiveBlocks(s.blocks)
            && LiveBlocks(s'.blocks) == LiveBlocks(s.blocks) - {s.blocks[k]} + {b}
            && b.Payload() == s.blocks[f].Payload()
  {
    ReallocFacts(s.blocks, s.headers, lo, hi, k, f, n, relinks);
  }

  lemma ReallocFacts(bs: seq<Block>, hs: seq<Header>, lo: nat, hi: nat, k: nat, f: nat, n: u32, relinks: bool)
    requires Sized(bs, hs, lo, hi) && k < |bs| && bs[k].live && f < |bs| && f == FirstFit(bs, Align4(n))
    ensures f < |MallocBlocks(bs, n)|
    ensures var (r, rs) := ReallocVia(bs, hs, k, n, relinks); var b := MallocBlocks(bs, n)[f];
            && Sized(r, rs, lo, hi) && b !in LiveBlocks(bs)
            && LiveBlocks(r) == LiveBlocks(bs) - {bs[k]} + {b} && b.Payload() == bs[f].Payload()
  {
    var gb, gh := MallocBlocks(bs, n), MallocHeaders(hs, bs, n, relinks);
    MallocSized(bs, hs, lo, hi, n, relinks);
    MallocLive(bs, lo, hi, n);
    OldBlockStays(bs, lo, hi, k, n);
    OldReleased(gb, gh, lo, hi, LiveIndex(gb, bs[k].Payload()));
    LiveMember(bs, k);
  }

  lemma OldReleased(bs: seq<Block>, hs: seq<Header>, lo: nat, hi: nat, j: nat)
    requires Sized(bs, hs, lo, hi) && j < |bs| && bs[j].live
    ensures Sized(FreeVia(bs, j, hs[j].prev), FreeHeaders(hs, bs, j), lo, hi)
    ensures LiveBlocks(FreeVia(bs, j, hs[j].prev)) == LiveBlocks(bs) - {bs[j]}
  {
    FreeSized(bs, hs, lo, hi, j);
    FreeLive(bs, lo, hi, j, hs[j].prev);
  }

  lemma ResizeSlots(s: State, s': State, lo: nat, hi: nat, i: nat, k: nat, b: Block, q: nat)
    requires Sane(s, lo, hi) && i < |s.ptrs| && k < |s.blocks| && k == LiveIndex(s.blocks, s.ptrs[i])
    requires Sized(s'.blocks, s'.headers, lo, hi) && b !in LiveBlocks(s.blocks)
    requires LiveBlocks(s'.blocks) == LiveBlocks(s.blocks) - {s.blocks[k]} + {b}
    requires s'.ptrs == s.ptrs[i := q] && q == b.Payload()
    ensures Sane(s', lo, hi)
  {
    forall j | 0 <= j < |s.ptrs| && j != i && s.ptrs[j] != 0
      ensures Owns(s, j) && s.blocks[LiveIndex(s.blocks, s.ptrs[j])] in LiveBlocks(s'.blocks)
      ensures s.blocks[LiveIndex(s.blocks, s.ptrs[j])] != b
    {
      OtherSlot(s, lo, hi, i, j);
    }
    SlotReplaced(s, s', lo, hi, i, b);
  }

  lemma StepKeeps(s: State, lo: nat, hi: nat, op: Op, relinks: bool)
    requires Sane(s, lo, hi)
    ensures Sane(Step(s, op, relinks), lo, hi)
  {
    if op.slot < |s.ptrs| {
      match op
      case Alloc(i, n) => AllocKeeps(s, lo, hi, i, n, relinks);
      case Release(i) => ReleaseKeeps(s, lo, hi, i);
      case Resize(i, n) => ResizeKeeps(s, lo, hi, i, n, relinks);
    }
  }

  /** The free in the call goes through a prev field that is null or names a block, so that the lists follow
      what the source does to memory (Heap.Free). */
  ghost predicate NamedFree(s: State, op: Op, relinks: bool)
    requires |s.headers| == |s.blocks|
  {
    op.slot < |s.ptrs| && LiveIndex(s.blocks, s.ptrs[op.slot]) < |s.blocks| ==>
      var k := LiveIndex(s.blocks, s.ptrs[op.slot]);
      match op
      case Alloc(_, _) => true
      case Release(_) => Names(s.blocks, k, s.headers[k].prev)
      case Resize(_, n) => ReallocNames(s.headers, s.blocks, k, n, relinks)
  }

  ghost predicate FreesNamed(s: State, ops: seq<Op>, relinks: bool)
    requires |s.headers| == |s.blocks|
    decreases |ops|
  {
    ops != [] ==> NamedFree(s, ops[0], relinks) && FreesNamed(Step(s, ops[0], relinks), ops[1..], relinks)
  }

  /** Every run whose frees go through blocks, with either split, keeps the tiling, the alignment, the total
      and the program's pointers. (With the repaired split every run is one: RepairedFreesNamed. For the
      split as written see HeapWreck.WreckRun.) */
  lemma {:induction false} RunKeeps(s: State, lo: nat, hi: nat, ops: seq<Op>, relinks: bool)
    requires Sane(s, lo, hi) && FreesNamed(s, ops, relinks)
    ensures Sane(Run(s, ops, relinks), lo, hi)
    ensures Footprint(Run(s, ops, relinks).blocks) == hi - lo
    decreases |ops|
  {
    if ops == [] {
      FootprintConserved(s.blocks, lo, hi);
    } else {
      StepKeeps(s, lo, hi, ops[0], relinks);
      RunKeeps(Step(s, ops[0], relinks), lo, hi, ops[1..], relinks);
    }
  }

  /** The state after init_malloc, with all pointer variables NULL. */
  lemma InitialSane(lo: nat, hi: nat, ptrs: seq<nat>)
    requires 0 < lo && lo % 4 == 0 && lo + HEADER <= hi && forall i :: 0 <= i < |ptrs| ==> ptrs[i] == 0
    ensures var s := State(Initial(lo, hi), [Header(0, 0, hi - lo - HEADER, false)], ptrs);
            Sane(s, lo, hi) && Whole(s.blocks, s.headers, lo, hi)
  {
    InitialHolds(lo, hi);
  }

  // ----- when the full invariant lasts -----

  /** A call of the source as written whose malloc loses a back link. */
  ghost predicate Loses(s: State, op: Op, relinks: bool) {
    && !relinks && op.slot < |s.ptrs|
    && match op
       case Alloc(_, n) => LosesBackLink(s.blocks, n)
       case Release(_) => false
       case Resize(i, n) => LiveIndex(s.blocks, s.ptrs[i]) < |s.blocks| && LosesBackLink(s.blocks, n)
  }

  lemma WholeStep(s: State, lo: nat, hi: nat, op: Op, relinks: bool)
    requires Whole(s.blocks, s.headers, lo, hi)
    ensures var s' := Step(s, op, relinks); Whole(s'.blocks, s'.headers, lo, hi) <==> !Loses(s, op, relinks)
  {
    if op.slot < |s.ptrs| {
      match op
      case Alloc(i, n) => MallocWhole(s.blocks, s.headers, lo, hi, n, relinks);
      case Release(i) => ReleaseWhole(s, lo, hi, i);
      case Resize(i, n) => ResizeWhole(s, lo, hi, i, n, relinks);
    }
  }

  lemma ReleaseWhole(s: State, lo: nat, hi: nat, i: nat)
    requires Whole(s.blocks, s.headers, lo, hi) && i < |s.ptrs|
    ensures var s' := ReleaseState(s, i); Whole(s'.blocks, s'.headers, lo, hi)
  {
    var k := LiveIndex(s.blocks, s.ptrs[i]);
    if k < |s.blocks| {
      FreeWhole(s.blocks, s.headers, lo, hi, k);
    }
  }

  lemma ResizeWhole(s: State, lo: nat, hi: nat, i: nat, n: u32, relinks: bool)
    requires Whole(s.blocks, s.headers, lo, hi) && i < |s.ptrs|
    ensures var s' := ResizeState(s, i, n, relinks);
            Whole(s'.blocks, s'.headers, lo, hi) <==>
              relinks || !(LiveIndex(s.blocks, s.ptrs[i]) < |s.blocks| && LosesBackLink(s.blocks, n))
  {
    var k := LiveIndex(s.blocks, s.ptrs[i]);
    if k < |s.blocks| {
      ReallocWhole(s.blocks, s.headers, lo, hi, k, n, relinks);
    }
  }

  /** The heap is whole now and after every call of the run. */
  ghost predicate StaysWhole(s: State, lo: nat, hi: nat, ops: seq<Op>, relinks: bool)
    requires |s.headers| == |s.blocks|
    decreases |ops|
  {
    && Whole(s.blocks, s.headers, lo, hi)
    && (ops != [] ==> StaysWhole(Step(s, ops[0], relinks), lo, hi, ops[1..], relinks))
  }

  /** No call of the run loses a back link. */
  ghost predicate LosesNone(s: State, ops: seq<Op>, relinks: bool)
    requires |s.headers| == |s.blocks|
    decreases |ops|
  {
    ops != [] ==> !Loses(s, ops[0], relinks) && LosesNone(Step(s, ops[0], relinks), ops[1..], relinks)
  }

  /** A run from a whole heap keeps it whole throughout if and only if no call loses a back link. */
  lemma {:induction false} WholeRun(s: State, lo: nat, hi: nat, ops: seq<Op>, relinks: bool)
    requires Whole(s.blocks, s.headers, lo, hi)
    ensures StaysWhole(s, lo, hi, ops, relinks) <==> LosesNone(s, ops, relinks)
    decreases |ops|
  {
    if ops != [] {
      WholeStep(s, lo, hi, ops[0], relinks);
      if !Loses(s, ops[0], relinks) {
        WholeRun(Step(s, ops[0], relinks), lo, hi, ops[1..], relinks);
      }
    }
  }

  /** With the repaired split none does. */
  lemma {:induction false} RepairedLosesNone(s: State, ops: seq<Op>)
    requires |s.headers| == |s.blocks|
    ensures LosesNone(s, ops, true)
    decreases |ops|
  {
    if ops != [] {
      RepairedLosesNone(Step(s, ops[0], true), ops[1..]);
    }
  }

  lemma {:induction false} WholeAtEnd(s: State, lo: nat, hi: nat, ops: seq<Op>, relinks: bool)
    requires |s.headers| == |s.blocks| && StaysWhole(s, lo, hi, ops, relinks)
    ensures var e := Run(s, ops, relinks); Whole(e.blocks, e.headers, lo, hi)
    decreases |ops|
  {
    if ops != [] {
      WholeAtEnd(Step(s, ops[0], relinks), lo, hi, ops[1..], relinks);
    }
  }

  /** After any such run, freeing the live blocks in any order leaves what init_malloc set up. */
  lemma RunThenFreeAll(s: State, lo: nat, hi: nat, ops: seq<Op>, order: seq<nat>, relinks: bool)
    requires Whole(s.blocks, s.headers, lo, hi) && LosesNone(s, ops, relinks)
    requires forall b :: b in LiveBlocks(Run(s, ops, relinks).blocks) ==> b.Payload() in order
    ensures FreeAll(Run(s, ops, relinks).blocks, order) == Initial(lo, hi)
  {
    WholeRun(s, lo, hi, ops, relinks);
    WholeAtEnd(s, lo, hi, ops, relinks);
    FreeAllRestores(Run(s, ops, relinks).blocks, lo, hi, order);
  }

  // ----- when every prev field names a block -----

  /** The free inside realloc merges away a block that a lost link names. */
  ghost predicate ReallocOrphans(bs: seq<Block>, hs: seq<Header>, k: nat, n: u32, relinks: bool)
    requires k < |bs| == |hs|
  {
    var gb, gh := MallocBlocks(bs, n), MallocHeaders(hs, bs, n, relinks);
    var j := LiveIndex(gb, bs[k].Payload());
    MallocOrphans(hs, bs, n) || (j < |gb| && FreeOrphans(gh, gb, j))
  }

  /** A call that merges away a block which a lost link still names. */
  ghost predicate MakesOrphan(s: State, op: Op, relinks: bool)
    requires |s.headers| == |s.blocks|
  {
    && op.slot < |s.ptrs|
    && match op
       case Alloc(_, n) => MallocOrphans(s.headers, s.blocks, n)
       case Release(i) =>
         LiveIndex(s.blocks, s.ptrs[i]) < |s.blocks| && FreeOrphans(s.headers, s.blocks, LiveIndex(s.blocks, s.ptrs[i]))
       case Resize(i, n) =>
         && LiveIndex(s.blocks, s.ptrs[i]) < |s.blocks| && FirstFit(s.blocks, Align4(n)) < |s.blocks|
         && ReallocOrphans(s.blocks, s.headers, LiveIndex(s.blocks, s.ptrs[i]), n, relinks)
  }

  /** Every prev field names a block after the call, and after the malloc inside it. */
  ghost predicate NamesAfter(s: State, op: Op, relinks: bool)
    requires |s.headers| == |s.blocks|
  {
    && (op.slot < |s.ptrs| && op.Resize? && LiveIndex(s.blocks, s.ptrs[op.slot]) < |s.blocks| ==>
          AllBackUp(MallocHeaders(s.headers, s.blocks, op.size, relinks), MallocBlocks(s.blocks, op.size)))
    && AllBackUp(Step(s, op, relinks).headers, Step(s, op, relinks).blocks)
  }

  lemma NamedStep(s: State, lo: nat, hi: nat, op: Op, relinks: bool)
    requires Sane(s, lo, hi) && AllBackUp(s.headers, s.blocks)
    ensures NamesAfter(s, op, relinks) <==> !MakesOrphan(s, op, relinks)
  {
    if op.slot < |s.ptrs| {
      match op
      case Alloc(i, n) => MallocBackUp(s.headers, s.blocks, lo, hi, n, relinks);
      case Release(i) =>
        var k := LiveIndex(s.blocks, s.ptrs[i]);
        if k < |s.blocks| {
          FreeBackUp(s.headers, s.blocks, lo, hi, k);
        }
      case Resize(i, n) => NamedResize(s, lo, hi, i, n, relinks);
    }
  }

  lemma NamedResize(s: State, lo: nat, hi: nat, i: nat, n: u32, relinks: bool)
    requires Sane(s, lo, hi) && AllBackUp(s.headers, s.blocks) && i < |s.ptrs|
    ensures NamesAfter(s, Resize(i, n), relinks) <==> !MakesOrphan(s, Resize(i, n), relinks)
  {
    var k := LiveIndex(s.blocks, s.ptrs[i]);
    if k < |s.blocks| {
      ReallocBackUp(s.blocks, s.headers, lo, hi, k, n, relinks);
    }
  }

  lemma ReallocBackUp(bs: seq<Block>, hs: seq<Header>, lo: nat, hi: nat, k: nat, n: u32, relinks: bool)
    requires Tiles(bs, lo, hi) && lo > 0 && AllBackUp(hs, bs) && k < |bs| && bs[k].live
    ensures var (r, rs) := ReallocVia(bs, hs, k, n, relinks);
            AllBackUp(MallocHeaders(hs, bs, n, relinks), MallocBlocks(bs, n)) && AllBackUp(rs, r) <==>
              !(FirstFit(bs, Align4(n)) < |bs| && ReallocOrphans(bs, hs, k, n, relinks))
  {
    MallocBackUp(hs, bs, lo, hi, n, relinks);
    if FirstFit(bs, Align4(n)) < |bs| && !MallocOrphans(hs, bs, n) {
      MallocTiles(bs, lo, hi, n);
      OldBlockStays(bs, lo, hi, k, n);
      var gb, gh := MallocBlocks(bs, n), MallocHeaders(hs, bs, n, relinks);
      FreeBackUp(gh, gb, lo, hi, LiveIndex(gb, bs[k].Payload()));
    }
  }

  ghost predicate StaysNamed(s: State, ops: seq<Op>, relinks: bool)
    requires |s.headers| == |s.blocks|
    decreases |ops|
  {
    ops != [] ==> NamesAfter(s, ops[0], relinks) && StaysNamed(Step(s, ops[0], relinks), ops[1..], relinks)
  }

  ghost predicate OrphansNone(s: State, ops: seq<Op>, relinks: bool)
    requires |s.headers| == |s.blocks|
    decreases |ops|
  {
    ops != [] ==> !MakesOrphan(s, ops[0], relinks) && OrphansNone(Step(s, ops[0], relinks), ops[1..], relinks)
  }

  /** Throughout a run every prev field is null or names a block in front if and only if no call merges
      away a block that a lost link still names. */
  lemma {:induction false} NamedRun(s: State, lo: nat, hi: nat, ops: seq<Op>, relinks: bool)
    requires Sane(s, lo, hi) && AllBackUp(s.headers, s.blocks)
    ensures StaysNamed(s, ops, relinks) <==> OrphansNone(s, ops, relinks)
    decreases |ops|
  {
    if ops != [] {
      NamedStep(s, lo, hi, ops[0], relinks);
      if NamesAfter(s, ops[0], relinks) {
        StepKeeps(s, lo, hi, ops[0], relinks);
        NamedRun(Step(s, ops[0], relinks), lo, hi, ops[1..], relinks);
      }
    }
  }

  /** A run that makes no orphan frees through blocks only. */
  lemma {:induction false} OrphansNoneFrees(s: State, lo: nat, hi: nat, ops: seq<Op>, relinks: bool)
    requires Sane(s, lo, hi) && AllBackUp(s.headers, s.blocks) && OrphansNone(s, ops, relinks)
    ensures FreesNamed(s, ops, relinks)
    decreases |ops|
  {
    if ops != [] {
      NamedFreeWhen(s, lo, hi, ops[0], relinks);
      NamedStep(s, lo, hi, ops[0], relinks);
      StepKeeps(s, lo, hi, ops[0], relinks);
      OrphansNoneFrees(Step(s, ops[0], relinks), lo, hi, ops[1..], relinks);
    }
  }

  lemma NamedFreeWhen(s: State, lo: nat, hi: nat, op: Op, relinks: bool)
    requires Sane(s, lo, hi) && AllBackUp(s.headers, s.blocks) && !MakesOrphan(s, op, relinks)
    ensures NamedFree(s, op, relinks)
  {
    if op.slot < |s.ptrs| && LiveIndex(s.blocks, s.ptrs[op.slot]) < |s.blocks| {
      var k := LiveIndex(s.blocks, s.ptrs[op.slot]);
      match op
      case Alloc(_, _) =>
      case Release(_) => BackUpNames(s.blocks, s.headers, lo, hi, k);
      case Resize(_, n) =>
        if FirstFit(s.blocks, Align4(n)) < |s.blocks| {
          ReallocNamed(s.headers, s.blocks, lo, hi, k, n, relinks);
        }
    }
  }

  /** With the repaired split that is every run from a whole heap. */
  lemma RepairedFreesNamed(s: State, lo: nat, hi: nat, ops: seq<Op>)
    requires Sane(s, lo, hi) && Whole(s.blocks, s.headers, lo, hi)
    ensures FreesNamed(s, ops, true)
  {
    RepairedLosesNone(s, ops);
    WholeOrphansNone(s, lo, hi, ops, true);
    LinkedBacksUp(s.headers, s.blocks, lo, hi);
    OrphansNoneFrees(s, lo, hi, ops, true);
  }

  /** A run that loses no link makes no orphan. */
  lemma {:induction false} WholeOrphansNone(s: State, lo: nat, hi: nat, ops: seq<Op>, relinks: bool)
    requires Sane(s, lo, hi) && Whole(s.blocks, s.headers, lo, hi) && LosesNone(s, ops, relinks)
    ensures OrphansNone(s, ops, relinks)
    decreases |ops|
  {
    if ops != [] {
      WholeStep(s, lo, hi, ops[0], relinks);
      WholeNames(s, lo, hi, ops[0], relinks);
      StepKeeps(s, lo, hi, ops[0], relinks);
      WholeOrphansNone(Step(s, ops[0], relinks), lo, hi, ops[1..], relinks);
    }
  }

  lemma WholeNames(s: State, lo: nat, hi: nat, op: Op, relinks: bool)
    requires Sane(s, lo, hi) && Whole(s.blocks, s.headers, lo, hi) && !Loses(s, op, relinks)
    ensures !MakesOrphan(s, op, relinks)
  {
    var s' := Step(s, op, relinks);
    LinkedBacksUp(s.headers, s.blocks, lo, hi);
    WholeStep(s, lo, hi, op, relinks);
    LinkedBacksUp(s'.headers, s'.blocks, lo, hi);
    if op.slot < |s.ptrs| && op.Resize? && LiveIndex(s.blocks, s.ptrs[op.slot]) < |s.blocks| {
      MallocWhole(s.blocks, s.headers, lo, hi, op.size, relinks);
      LinkedBacksUp(MallocHeaders(s.headers, s.blocks, op.size, relinks), MallocBlocks(s.blocks, op.size), lo, hi);
    }
    NamedStep(s, lo, hi, op, relinks);
  }
}

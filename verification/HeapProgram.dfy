/** Running a program on the real memory: the in-place allocator of libc/src/stdlib/heap.c, with either
    split, follows HeapRuns.Run. */
module HeapProgram {
  import opened Bytes
  import opened HeapBlocks
  import opened HeapMemory
  import opened HeapBytes
  import opened HeapLinks
  import opened HeapWhole
  import opened Heap
  import opened HeapRuns

  ghost function StateOf(h: Heap, slots: array<nat>): State
    reads h, slots
  {
    State(h.blocks, h.headers, slots[..])
  }

  ghost predicate Good(h: Heap, slots: array<nat>)
    reads h, h.mem, slots
  {
    h.Sound() && Sane(StateOf(h, slots), h.lo, h.hi)
  }

  /** The copy of every realloc of the run stays inside the new block. */
  ghost predicate CopyFitsAt(s: State, op: Op) {
    op.slot < |s.ptrs| && op.Resize? && LiveIndex(s.blocks, s.ptrs[op.slot]) < |s.blocks| ==>
      CopyFits(s.blocks, LiveIndex(s.blocks, s.ptrs[op.slot]), op.size)
  }

  ghost predicate CopiesFit(s: State, ops: seq<Op>, relinks: bool)
    requires |s.headers| == |s.blocks|
    decreases |ops|
  {
    ops != [] ==> CopyFitsAt(s, ops[0]) && CopiesFit(Step(s, ops[0], relinks), ops[1..], relinks)
  }

  /** Which is so when no request is above 2^32 - 4. */
  lemma {:induction false} SmallCopiesFit(s: State, lo: nat, hi: nat, ops: seq<Op>, relinks: bool)
    requires Sane(s, lo, hi) && hi < TWO32 && FreesNamed(s, ops, relinks)
    requires forall op :: op in ops && op.Resize? ==> op.size <= 0xFFFF_FFFC
    ensures CopiesFit(s, ops, relinks)
    decreases |ops|
  {
    if ops != [] {
      var op := ops[0];
      assert op in ops;
      if op.slot < |s.ptrs| && op.Resize? && LiveIndex(s.blocks, s.ptrs[op.slot]) < |s.blocks| {
        CopyFitsWhen(s.blocks, lo, hi, LiveIndex(s.blocks, s.ptrs[op.slot]), op.size);
      }
      StepKeeps(s, lo, hi, op, relinks);
      SmallCopiesFit(Step(s, op, relinks), lo, hi, ops[1..], relinks);
    }
  }

  // ----- blocks the program does not touch -----

  /** b is live and not the block of slot i. */
  ghost predicate Foreign(s: State, i: nat, b: Block)
    requires i < |s.ptrs|
  {
    b in LiveBlocks(s.blocks) && b.Payload() != s.ptrs[i]
  }

  /** b is live and no operation of the program goes through its pointer. */
  ghost predicate Spared(s: State, ops: seq<Op>, b: Block) {
    b in LiveBlocks(s.blocks) && forall op :: op in ops && op.slot < |s.ptrs| ==> Foreign(s, op.slot, b)
  }

  lemma NewPointer(bs: seq<Block>, lo: nat, hi: nat, c: Block, b: Block)
    requires Tiles(bs, lo, hi) && b in bs && c in bs && b != c
    ensures b.Payload() != c.Payload()
  {
    if b.Payload() == c.Payload() {
      LiveByPayload(bs, lo, hi, b, c);
    }
  }

  /** An operation on another slot leaves a live block where it is, and gives its pointer to nobody. */
  lemma ForeignStays(s: State, lo: nat, hi: nat, op: Op, b: Block, relinks: bool)
    requires Sane(s, lo, hi) && op.slot < |s.ptrs| && Foreign(s, op.slot, b)
    ensures Foreign(Step(s, op, relinks), op.slot, b)
  {
    match op
    case Alloc(i, n) => ForeignAlloc(s, lo, hi, i, n, b, relinks);
    case Release(i) =>
      var k := LiveIndex(s.blocks, s.ptrs[i]);
      if k < |s.blocks| {
        FreeLive(s.blocks, lo, hi, k, s.headers[k].prev);
      }
    case Resize(i, n) => ForeignResize(s, lo, hi, i, n, b, relinks);
  }

  lemma ForeignAlloc(s: State, lo: nat, hi: nat, i: nat, n: u32, b: Block, relinks: bool)
    requires Sane(s, lo, hi) && i < |s.ptrs| && Foreign(s, i, b)
    ensures Foreign(AllocState(s, i, n, relinks), i, b)
  {
    MallocTiles(s.blocks, lo, hi, n);
    var k := FirstFit(s.blocks, Align4(n));
    if k < |s.blocks| {
      MallocLive(s.blocks, lo, hi, n);
      NewPointer(MallocBlocks(s.blocks, n), lo, hi, MallocBlocks(s.blocks, n)[k], b);
    }
  }

  lemma ForeignResize(s: State, lo: nat, hi: nat, i: nat, n: u32, b: Block, relinks: bool)
    requires Sane(s, lo, hi) && i < |s.ptrs| && Foreign(s, i, b)
    ensures Foreign(ResizeState(s, i, n, relinks), i, b)
  {
    var k := LiveIndex(s.blocks, s.ptrs[i]);
    var f := FirstFit(s.blocks, Align4(n));
    if k < |s.blocks| && f < |s.blocks| {
      ResizedFacts(s, lo, hi, i, k, f, n, relinks);
      ForeignReplaced(s, ResizeState(s, i, n, relinks), lo, hi, i, k, MallocBlocks(s.blocks, n)[f],
                      s.blocks[f].Payload(), b);
    }
  }

  lemma ForeignReplaced(s: State, s': State, lo: nat, hi: nat, i: nat, k: nat, c: Block, q: nat, b: Block)
    requires i < |s.ptrs| && Foreign(s, i, b) && k < |s.blocks| && s.blocks[k].Payload() == s.ptrs[i]
    requires Tiles(s'.blocks, lo, hi) && c !in LiveBlocks(s.blocks)
    requires LiveBlocks(s'.blocks) == LiveBlocks(s.blocks) - {s.blocks[k]} + {c}
    requires s'.ptrs == s.ptrs[i := q] && q == c.Payload()
    ensures Foreign(s', i, b)
  {
    assert b in LiveBlocks(s'.blocks) && c in LiveBlocks(s'.blocks);
    NewPointer(s'.blocks, lo, hi, c, b);
  }

  lemma SparedStays(s: State, lo: nat, hi: nat, ops: seq<Op>, op: Op, b: Block, relinks: bool)
    requires Sane(s, lo, hi) && Spared(s, ops, b) && op in ops
    ensures Spared(Step(s, op, relinks), ops, b)
  {
    if op.slot < |s.ptrs| {
      assert Foreign(s, op.slot, b);
      ForeignStays(s, lo, hi, op, b, relinks);
      forall o | o in ops && o.slot < |s.ptrs| ensures Foreign(Step(s, op, relinks), o.slot, b) {
        assert Foreign(s, o.slot, b);
      }
    }
  }

  // ----- the run -----

  /** What is known before the rest of the run. */
  ghost predicate Ahead(s: State, ops: seq<Op>, relinks: bool) {
    |s.headers| == |s.blocks| && FreesNamed(s, ops, relinks) && CopiesFit(s, ops, relinks)
  }

  /** The in-place allocator, with either split, follows Run on every program whose frees go through blocks and
      whose realloc copies fit, and over the whole run changes no payload byte of a block the program does
      not operate on and no byte outside the heap. A whole heap is whole at the end if no call loses a back
      link (and throughout, if and only if none does: HeapRuns.WholeRun). */
  method Execute(h: Heap, slots: array<nat>, ops: seq<Op>, ghost kept: set<Block>)
    requires Good(h, slots) && Ahead(StateOf(h, slots), ops, h.relinks)
    requires forall b :: b in kept ==> Spared(StateOf(h, slots), ops, b)
    modifies h, h.mem, slots
    ensures Good(h, slots)
    ensures StateOf(h, slots) == Run(old(StateOf(h, slots)), ops, h.relinks)
    ensures kept <= LiveBlocks(h.blocks)
    ensures Keeps(old(h.mem[..]), h.mem[..], kept, h.lo, h.hi)
    ensures old(h.Valid()) && LosesNone(old(StateOf(h, slots)), ops, h.relinks) ==> h.Valid()
  {
    ghost var start := StateOf(h, slots);
    WholeOutcome(h, slots, ops);
    var i := 0;
    assert ops[0..] == ops;
    while i < |ops|
      invariant 0 <= i <= |ops| && Good(h, slots)
      invariant Ahead(StateOf(h, slots), ops[i..], h.relinks)
      invariant Run(StateOf(h, slots), ops[i..], h.relinks) == Run(start, ops, h.relinks)
      invariant forall b :: b in kept ==> Spared(StateOf(h, slots), ops, b)
      invariant Keeps(old(h.mem[..]), h.mem[..], kept, h.lo, h.hi)
    {
      ghost var m := h.mem[..];
      ExecuteNext(h, slots, ops, i, kept);
      KeepsTransitive(old(h.mem[..]), m, h.mem[..], kept, h.lo, h.hi);
      i := i + 1;
    }
  }

  method ExecuteNext(h: Heap, slots: array<nat>, ops: seq<Op>, i: nat, ghost kept: set<Block>)
    requires i < |ops| && Good(h, slots) && Ahead(StateOf(h, slots), ops[i..], h.relinks)
    requires forall b :: b in kept ==> Spared(StateOf(h, slots), ops, b)
    modifies h, h.mem, slots
    ensures Good(h, slots) && Ahead(StateOf(h, slots), ops[i + 1..], h.relinks)
    ensures Run(StateOf(h, slots), ops[i + 1..], h.relinks) == Run(old(StateOf(h, slots)), ops[i..], h.relinks)
    ensures forall b :: b in kept ==> Spared(StateOf(h, slots), ops, b)
    ensures Keeps(old(h.mem[..]), h.mem[..], kept, h.lo, h.hi)
  {
    ghost var s := StateOf(h, slots);
    Unrolled(s, ops, i, h.relinks);
    assert ops[i] in ops;
    forall b | b in kept ensures Spared(Step(s, ops[i], h.relinks), ops, b) {
      SparedStays(s, h.lo, h.hi, ops, ops[i], b, h.relinks);
    }
    ExecuteOne(h, slots, ops[i], kept);
  }

  lemma WholeOutcome(h: Heap, slots: array<nat>, ops: seq<Op>)
    requires Good(h, slots)
    ensures h.Valid() && LosesNone(StateOf(h, slots), ops, h.relinks) ==>
              var e := Run(StateOf(h, slots), ops, h.relinks); Whole(e.blocks, e.headers, h.lo, h.hi)
  {
    if h.Valid() && LosesNone(StateOf(h, slots), ops, h.relinks) {
      WholeRun(StateOf(h, slots), h.lo, h.hi, ops, h.relinks);
      WholeAtEnd(StateOf(h, slots), h.lo, h.hi, ops, h.relinks);
    }
  }

  lemma Unrolled(s: State, ops: seq<Op>, i: nat, relinks: bool)
    requires i < |ops| && Ahead(s, ops[i..], relinks)
    ensures Run(s, ops[i..], relinks) == Run(Step(s, ops[i], relinks), ops[i + 1..], relinks)
    ensures NamedFree(s, ops[i], relinks) && CopyFitsAt(s, ops[i])
    ensures Ahead(Step(s, ops[i], relinks), ops[i + 1..], relinks)
  {
    assert ops[i..][0] == ops[i] && ops[i..][1..] == ops[i + 1..];
  }

  method ExecuteOne(h: Heap, slots: array<nat>, op: Op, ghost kept: set<Block>)
    requires Good(h, slots) && NamedFree(StateOf(h, slots), op, h.relinks) && CopyFitsAt(StateOf(h, slots), op)
    requires op.slot < slots.Length ==> forall b :: b in kept ==> Foreign(StateOf(h, slots), op.slot, b)
    modifies h, h.mem, slots
    ensures Good(h, slots)
    ensures StateOf(h, slots) == Step(old(StateOf(h, slots)), op, h.relinks)
    ensures Keeps(old(h.mem[..]), h.mem[..], kept, h.lo, h.hi)
  {
    StepKeeps(StateOf(h, slots), h.lo, h.hi, op, h.relinks);
    if op.slot < slots.Length {
      match op
      case Alloc(i, n) => DoAlloc(h, slots, i, n, kept);
      case Release(i) => DoRelease(h, slots, i, kept);
      case Resize(i, n) => DoResize(h, slots, i, n, kept);
    }
  }

  method DoAlloc(h: Heap, slots: array<nat>, i: nat, n: u32, ghost kept: set<Block>)
    requires Good(h, slots) && i < slots.Length
    requires forall b :: b in kept ==> Foreign(StateOf(h, slots), i, b)
    modifies h, h.mem, slots
    ensures h.Sound()
    ensures StateOf(h, slots) == AllocState(old(StateOf(h, slots)), i, n, h.relinks)
    ensures Keeps(old(h.mem[..]), h.mem[..], kept, h.lo, h.hi)
  {
    ghost var m := h.mem[..];
    KeptForeign(StateOf(h, slots), i, kept);
    var p := h.Malloc(n);
    KeepsFewer(m, h.mem[..], LiveBlocks(old(h.blocks)), kept, h.lo, h.hi);
    slots[i] := p;
  }

  method DoRelease(h: Heap, slots: array<nat>, i: nat, ghost kept: set<Block>)
    requires Good(h, slots) && i < slots.Length && NamedFree(StateOf(h, slots), Release(i), h.relinks)
    requires forall b :: b in kept ==> Foreign(StateOf(h, slots), i, b)
    modifies h, h.mem, slots
    ensures h.Sound()
    ensures StateOf(h, slots) == ReleaseState(old(StateOf(h, slots)), i)
    ensures Keeps(old(h.mem[..]), h.mem[..], kept, h.lo, h.hi)
  {
    assert Owns(StateOf(h, slots), i);
    NoBlockAtNull(h.blocks);
    KeptForeign(StateOf(h, slots), i, kept);
    if slots[i] != 0 {
      ghost var m, k := h.mem[..], LiveIndex(h.blocks, slots[i]);
      ghost var b := h.blocks[k];
      h.Free(slots[i]);
      KeepsFewer(m, h.mem[..], LiveBlocks(old(h.blocks)) - {b}, kept, h.lo, h.hi);
    }
    slots[i] := 0;
  }

  method DoResize(h: Heap, slots: array<nat>, i: nat, n: u32, ghost kept: set<Block>)
    requires Good(h, slots) && i < slots.Length && CopyFitsAt(StateOf(h, slots), Resize(i, n))
    requires NamedFree(StateOf(h, slots), Resize(i, n), h.relinks)
    requires forall b :: b in kept ==> Foreign(StateOf(h, slots), i, b)
    modifies h, h.mem, slots
    ensures h.Sound()
    ensures StateOf(h, slots) == ResizeState(old(StateOf(h, slots)), i, n, h.relinks)
    ensures Keeps(old(h.mem[..]), h.mem[..], kept, h.lo, h.hi)
  {
    assert Owns(StateOf(h, slots), i);
    NoBlockAtNull(h.blocks);
    KeptForeign(StateOf(h, slots), i, kept);
    if slots[i] != 0 {
      ghost var m, b := h.mem[..], h.blocks[LiveIndex(h.blocks, slots[i])];
      var q := h.Realloc(slots[i], n);
      if q != 0 {
        KeepsFewer(m, h.mem[..], LiveBlocks(old(h.blocks)) - {b}, kept, h.lo, h.hi);
        slots[i] := q;
      }
    }
  }

  lemma KeptForeign(s: State, i: nat, kept: set<Block>)
    requires i < |s.ptrs| && forall b :: b in kept ==> Foreign(s, i, b)
    ensures kept <= LiveBlocks(s.blocks)
    ensures var k := LiveIndex(s.blocks, s.ptrs[i]);
            k < |s.blocks| ==> kept <= LiveBlocks(s.blocks) - {s.blocks[k]}
  {
  }

  lemma NoBlockAtNull(bs: seq<Block>)
    ensures LiveIndex(bs, 0) == |bs|
  {
  }
}

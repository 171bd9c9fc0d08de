/** loadELF as a whole (src/lib/elf/elf.c): open, allocate, read, check, load, free. */
module ElfLoader {
  import opened Bytes
  import opened Disk
  import opened FatVolume
  import opened FatHandle
  import opened FatFile
  import opened FatMount
  import opened HeapBlocks
  import opened HeapMemory
  import opened Heap
  import opened ElfImage
  import opened Elf

  // ----- the buffer -----

  /** Block k is on loan: freeing it gives back the list bs0. */
  ghost predicate Borrowed(bs: seq<Block>, bs0: seq<Block>, k: nat, p: nat, size: nat) {
    && k < |bs| && bs[k].live && bs[k].Payload() == p && size <= bs[k].size
    && bs[k] !in LiveBlocks(bs0) && LiveBlocks(bs) == LiveBlocks(bs0) + {bs[k]}
    && FreeBlocks(bs, k) == bs0
  }

  lemma MallocLends(bs: seq<Block>, lo: nat, hi: nat, n: u32, k: nat)
    requires WellFormed(bs, lo, hi) && lo > 0 && n <= 0xFFFF_FFFC && k == FirstFit(bs, Align4(n)) < |bs|
    ensures Borrowed(MallocBlocks(bs, n), bs, k, bs[k].Payload(), n)
  {
    MallocKeeps(bs, lo, hi, n);
    MallocGrants(bs, lo, hi, n);
    FreeUndoesMalloc(bs, lo, hi, n);
  }

  lemma IndexOfLive(bs: seq<Block>, lo: nat, hi: nat, k: nat)
    requires Tiles(bs, lo, hi) && k < |bs| && bs[k].live
    ensures LiveIndex(bs, bs[k].Payload()) == k
  {
    LiveMember(bs, k);
    LiveIndexFinds(bs, lo, hi, bs[k]);
    var i := LiveIndex(bs, bs[k].Payload());
    if i < k {
      Ordered(bs, lo, hi, i, k);
    } else if k < i {
      Ordered(bs, lo, hi, k, i);
    }
  }

  /** The heap while block k is on loan: a back link that its allocation lost is the only one wrong. */
  ghost predicate Lending(h: Heap, k: nat)
    reads h, h.mem
  {
    h.Sound() && Coalesced(h.blocks) && Mends(h.headers, h.blocks, k)
  }

  /** malloc, with either split. */
  method Borrow(h: Heap, size: u32) returns (p: nat, ghost k: nat)
    requires h.Valid() && size <= 0xFFFF_FFFC
    modifies h, h.mem
    ensures k == FirstFit(old(h.blocks), Align4(size)) && h.blocks == MallocBlocks(old(h.blocks), size)
    ensures if p == 0 then h.Valid() else Lending(h, k)
    ensures p == 0 <==> k == |old(h.blocks)|
    ensures p == 0 ==> h.mem[..] == old(h.mem[..]) && h.blocks == old(h.blocks)
    ensures p != 0 ==> Borrowed(h.blocks, old(h.blocks), k, p, size)
    ensures Keeps(old(h.mem[..]), h.mem[..], LiveBlocks(old(h.blocks)), h.lo, h.hi)
  {
    k := FirstFit(h.blocks, Align4(size));
    MallocKeeps(h.blocks, h.lo, h.hi, size);
    if k < |h.blocks| {
      MallocLends(h.blocks, h.lo, h.hi, size, k);
    }
    p := h.Malloc(size);
  }

  /** free of the borrowed block: the heap is whole again, whichever split is in use. */
  method GiveBack(h: Heap, p: nat, ghost k: nat, ghost size: nat, ghost bs0: seq<Block>)
    requires Lending(h, k) && Borrowed(h.blocks, bs0, k, p, size)
    modifies h, h.mem
    ensures h.Valid() && h.blocks == bs0
    ensures Keeps(old(h.mem[..]), h.mem[..], LiveBlocks(bs0), h.lo, h.hi)
  {
    ghost var m, bs := h.mem[..], h.blocks;
    IndexOfLive(bs, h.lo, h.hi, k);
    h.FreeValid(p);
    KeepsFewer(m, h.mem[..], LiveBlocks(bs) - {bs[k]}, LiveBlocks(bs0), h.lo, h.hi);
  }

  /** The whole file, to the borrowed block, if no read fails. */
  method Fill(h: Heap, d: Driver, id: u32, p: nat, ghost k: nat, ghost bs0: seq<Block>, ghost file: seq<byte>)
    returns (ok: bool)
    requires Lending(h, k) && d.Valid() && Borrowed(h.blocks, bs0, k, p, |file|)
    requires d.Open(id) && d.handles[id].pos == 0 && d.handles[id].size == |file| < TWO31
    requires d.Readable(id) && d.FileBytes(id) == file
    modifies h.mem, d.handles
    ensures Lending(h, k) && d.Valid() && d.OthersKept(id) && d.Open(id)
    ensures if ok then Buffered(h.mem[..], p, file, h.lo, h.hi) else !d.card.reliable
    ensures Keeps(old(h.mem[..]), h.mem[..], LiveBlocks(bs0), h.lo, h.hi)
  {
    ghost var m := h.mem[..];
    Room(h.blocks, h.lo, h.hi, k);
    ghost var lookup;
    ok, lookup := d.Read(id, h.mem, p, d.handles[id].size);
    ghost var n := d.handles[id].pos;
    assert h.mem[..] == Splice(m, p, file[0..n]);
    h.Touched(m, k);
    KeepsFewer(m, h.mem[..], LiveBlocks(h.blocks) - {h.blocks[k]}, LiveBlocks(bs0), h.lo, h.hi);
    if ok {
      assert file[0..n] == file;
      Arrived(m, p, file, h.lo, h.hi);
    }
  }

  lemma Room(bs: seq<Block>, lo: nat, hi: nat, k: nat)
    requires Tiles(bs, lo, hi) && k < |bs|
    ensures lo <= bs[k].Payload() && bs[k].End() <= hi
  {
    Within(bs, lo, hi, k);
  }

  lemma Arrived(m: seq<byte>, p: nat, file: seq<byte>, lo: nat, hi: nat)
    requires lo <= p && p + |file| <= hi <= |m|
    ensures Buffered(Splice(m, p, file), p, file, lo, hi)
  {
    var m' := Splice(m, p, file);
    forall k | 0 <= k < |file| ensures ByteHeld(m', p, file, k) {
    }
  }

  // ----- the checks -----

  method CheckHeader(mem: array<byte>, data: nat, ghost file: seq<byte>) returns (ok: bool)
    requires HoldsFile(mem[..], data, file) && |file| >= EHDR
    ensures ok == Executable(file)
  {
    forall o | o in {0, 1, 2, 3, 4, 5, 0x10, 0x12} ensures mem[data + o] == file[o] {
      FileByte(mem[..], data, file, o);
    }
    if mem[data] != 0x7F || mem[data + 1] != 0x45 || mem[data + 2] != 0x4C || mem[data + 3] != 0x46 {
      return false;
    } else if mem[data + 4] == 2 {
      return false;
    } else if mem[data + 5] == 2 {
      return false;
    } else if mem[data + 0x10] != 2 {
      return false;
    } else if mem[data + 0x12] != 0x28 {
      return false;
    }
    return true;
  }

  /** The fields of the ELF header, and the loop over the program headers. */
  method LoadProgram(mem: array<byte>, data: nat, ghost file: seq<byte>, ghost lo: nat, ghost hi: nat)
    returns (entry: u32)
    requires Buffered(mem[..], data, file, lo, hi) && Loadable(file, mem.Length, lo, hi)
    modifies mem
    ensures entry == EntryPoint(file)
    ensures LoadedTo(old(mem[..]), mem[..], file, HeaderCount(file), lo, hi)
  {
    entry := ReadField(mem, data, 0, 0x18, 0, file);
    var phoff := ReadField(mem, data, 0, 0x1C, 0, file);
    FileWord(mem[..], data, file, 0x2A);
    FileWord(mem[..], data, file, 0x2C);
    var phentsize := Le16(mem[..], data + 0x2A);
    var phnum := Le16(mem[..], data + 0x2C);
    LoadTable(mem, data, phoff, phentsize, phnum, file, lo, hi);
  }

  // ----- the image -----

  /** Every segment is in place, and outside the heap nothing else has changed. */
  ghost predicate Loaded(m: seq<byte>, m': seq<byte>, file: seq<byte>, ss: seq<Segment>, lo: nat, hi: nat) {
    && |m'| == |m| && AllFit(ss, file, |m|, lo, hi)
    && (forall i, x :: 0 <= i < |ss| && ss[i].Covers(x) ==> InImage(m', file, ss[i], x))
    && (forall x :: 0 <= x < |m| && Uncovered(ss, x) && (x < lo || hi <= x) ==> m'[x] == m[x])
  }

  ghost predicate InImage(m: seq<byte>, file: seq<byte>, s: Segment, x: nat) {
    s.offset + s.filesz <= |file| && s.vaddr <= x < |m| && m[x] == SegmentByte(s, file, x - s.vaddr)
  }

  /** The bytes of these blocks are what they were. */
  ghost predicate PayloadsKept(m: seq<byte>, m': seq<byte>, kept: set<Block>) {
    |m'| == |m| && forall b, x :: b in kept && b.Payload() <= x < b.End() && x < |m| ==> m'[x] == m[x]
  }

  lemma InsideSame(m: seq<byte>, m': seq<byte>, file: seq<byte>, n: nat, lo: nat, hi: nat)
    requires LoadedTo(m, m', file, n, lo, hi)
    ensures SameWithin(m, m', lo, hi)
  {
    forall x | 0 <= x < |m| && lo <= x < hi ensures m'[x] == m[x] {
      PlaceAllElsewhere(m, file, Segments(file, n), lo, hi, x);
    }
  }

  /** m0 before, m1 when the file has been read, m2 when the segments are loaded, m3 when the buffer is
      freed. */
  lemma ImageComplete(m0: seq<byte>, m1: seq<byte>, m2: seq<byte>, m3: seq<byte>, file: seq<byte>, n: nat,
                      kept: set<Block>, lo: nat, hi: nat)
    requires Keeps(m0, m1, kept, lo, hi) && LoadedTo(m1, m2, file, n, lo, hi) && Keeps(m2, m3, kept, lo, hi)
    requires AllApart(Segments(file, n))
    ensures Loaded(m0, m3, file, Segments(file, n), lo, hi)
  {
    var ss := Segments(file, n);
    forall i, x | 0 <= i < |ss| && ss[i].Covers(x) ensures InImage(m3, file, ss[i], x) {
      PlaceAllPlaces(m1, file, ss, lo, hi, i, x);
    }
    forall x | 0 <= x < |m0| && Uncovered(ss, x) && (x < lo || hi <= x) ensures m3[x] == m0[x] {
      PlaceAllElsewhere(m1, file, ss, lo, hi, x);
    }
  }

  lemma PayloadsComplete(m0: seq<byte>, m1: seq<byte>, m2: seq<byte>, m3: seq<byte>, bs: seq<Block>, lo: nat, hi: nat)
    requires Tiles(bs, lo, hi) && hi <= |m0|
    requires Keeps(m0, m1, LiveBlocks(bs), lo, hi) && SameWithin(m1, m2, lo, hi)
    requires Keeps(m2, m3, LiveBlocks(bs), lo, hi)
    ensures PayloadsKept(m0, m3, LiveBlocks(bs))
  {
    forall b, x | b in LiveBlocks(bs) && b.Payload() <= x < b.End() && x < |m0| ensures m3[x] == m0[x] {
      var k :| 0 <= k < |bs| && bs[k] == b;
      Room(bs, lo, hi, k);
    }
  }

  // ----- loadELF -----

  /** What loadELF has done, from memory m and block list bs to m' and bs': nothing if there is no room for
      the file; allocated a buffer, and left it allocated, if the file is no executable; otherwise made the
      image, with the heap's blocks and their contents as before. */
  ghost predicate Result(r: u32, m: seq<byte>, m': seq<byte>, bs: seq<Block>, bs': seq<Block>, file: seq<byte>,
                         lo: nat, hi: nat)
    requires EHDR <= |file| < TWO31
  {
    if FirstFit(bs, Align4(|file|)) == |bs| then
      r == 2 && m' == m && bs' == bs
    else if !Executable(file) then
      r == 1 && bs' == MallocBlocks(bs, |file|) && Keeps(m, m', LiveBlocks(bs), lo, hi)
    else
      && TableReadable(file)
      && r == EntryPoint(file) && bs' == bs
      && Loaded(m, m', file, Segments(file, HeaderCount(file)), lo, hi) && PayloadsKept(m, m', LiveBlocks(bs))
  }

  /** The loading of a file that is open: read it, check it, place its segments, free the buffer. A run in
      which the read fails is not followed to its end: the source ignores the failure and goes on with
      whatever the buffer holds. */
  method LoadOpened(h: Heap, d: Driver, id: u32, size: u32, ghost file: seq<byte>)
    returns (r: u32, ghost followed: bool)
    requires h.Valid() && d.Valid()
    requires d.Open(id) && d.handles[id].pos == 0 && d.handles[id].size == |file| == size < TWO31
    requires d.Readable(id) && d.FileBytes(id) == file
    requires |file| >= EHDR
    requires Executable(file) ==> && Loadable(file, h.mem.Length, h.lo, h.hi)
                                  && AllApart(Segments(file, HeaderCount(file)))
    modifies h, h.mem, d.handles
    ensures h.Sound() && d.Valid() && d.OthersKept(id) && d.Open(id)
    ensures !followed ==> !d.card.reliable && Keeps(old(h.mem[..]), h.mem[..], LiveBlocks(old(h.blocks)), h.lo, h.hi)
    ensures followed ==> (Executable(file) || r == 2 ==> h.Valid())
    ensures followed ==> Result(r, old(h.mem[..]), h.mem[..], old(h.blocks), h.blocks, file, h.lo, h.hi)
  {
    ghost var m0, bs0 := h.mem[..], h.blocks;
    var data, ok;
    ghost var k;
    data, ok, k := ReadWhole(h, d, id, size, file);
    if data == 0 {
      return 2, true;
    }
    if !ok {
      return 0, false;
    }
    r := Conclude(h, data, file, k, bs0, m0);
    followed := true;
  }

  /** Checking and loading what has been read. */
  method Conclude(h: Heap, data: nat, ghost file: seq<byte>, ghost k: nat, ghost bs0: seq<Block>, ghost m0: seq<byte>)
    returns (r: u32)
    requires Lending(h, k) && Borrowed(h.blocks, bs0, k, data, |file|) && Tiles(bs0, h.lo, h.hi)
    requires EHDR <= |file| < TWO31 && FirstFit(bs0, Align4(|file|)) < |bs0| && h.blocks == MallocBlocks(bs0, |file|)
    requires Buffered(h.mem[..], data, file, h.lo, h.hi) && Keeps(m0, h.mem[..], LiveBlocks(bs0), h.lo, h.hi)
    requires Executable(file) ==> && Loadable(file, h.mem.Length, h.lo, h.hi)
                                  && AllApart(Segments(file, HeaderCount(file)))
    modifies h, h.mem
    ensures h.Sound() && (Executable(file) ==> h.Valid())
    ensures !Executable(file) ==> r == ELF_INVALID_EXECUTABLE
    ensures Result(r, m0, h.mem[..], bs0, h.blocks, file, h.lo, h.hi)
  {
    var ok := CheckHeader(h.mem, data, file);
    if !ok {
      return ELF_INVALID_EXECUTABLE;
    }
    r := Finish(h, data, file, k, bs0, m0);
  }

  /** Allocating the buffer and reading the file. */
  method ReadWhole(h: Heap, d: Driver, id: u32, size: u32, ghost file: seq<byte>)
    returns (data: nat, ok: bool, ghost k: nat)
    requires h.Valid() && d.Valid()
    requires d.Open(id) && d.handles[id].pos == 0 && d.handles[id].size == |file| == size < TWO31
    requires d.Readable(id) && d.FileBytes(id) == file
    modifies h, h.mem, d.handles
    ensures (if data == 0 then h.Valid() else Lending(h, k)) && d.Valid() && d.OthersKept(id) && d.Open(id)
    ensures data == 0 <==> FirstFit(old(h.blocks), Align4(size)) == |old(h.blocks)|
    ensures data == 0 ==> h.mem[..] == old(h.mem[..]) && h.blocks == old(h.blocks)
    ensures data != 0 ==> && Borrowed(h.blocks, old(h.blocks), k, data, |file|)
                          && h.blocks == MallocBlocks(old(h.blocks), size)
                          && (if ok then Buffered(h.mem[..], data, file, h.lo, h.hi) else !d.card.reliable)
                          && Keeps(old(h.mem[..]), h.mem[..], LiveBlocks(old(h.blocks)), h.lo, h.hi)
  {
    ghost var m0, bs0 := h.mem[..], h.blocks;
    ok := true;
    data, k := Borrow(h, size);
    if data == 0 {
      return;
    }
    ghost var m1 := h.mem[..];
    ok := Fill(h, d, id, data, k, bs0, file);
    KeepsTransitive(m0, m1, h.mem[..], LiveBlocks(bs0), h.lo, h.hi);
  }

  /** The rest of it, for an executable. */
  method Finish(h: Heap, data: nat, ghost file: seq<byte>, ghost k: nat, ghost bs0: seq<Block>, ghost m0: seq<byte>)
    returns (entry: u32)
    requires Lending(h, k) && Borrowed(h.blocks, bs0, k, data, |file|) && Tiles(bs0, h.lo, h.hi)
    requires Buffered(h.mem[..], data, file, h.lo, h.hi) && Loadable(file, h.mem.Length, h.lo, h.hi)
    requires AllApart(Segments(file, HeaderCount(file))) && Keeps(m0, h.mem[..], LiveBlocks(bs0), h.lo, h.hi)
    modifies h, h.mem
    ensures h.Valid() && h.blocks == bs0 && entry == EntryPoint(file)
    ensures Loaded(m0, h.mem[..], file, Segments(file, HeaderCount(file)), h.lo, h.hi)
    ensures PayloadsKept(m0, h.mem[..], LiveBlocks(bs0))
  {
    ghost var m1 := h.mem[..];
    entry := PlaceProgram(h, data, file, k);
    ghost var m2 := h.mem[..];
    GiveBack(h, data, k, |file|, bs0);
    ImageComplete(m0, m1, m2, h.mem[..], file, HeaderCount(file), LiveBlocks(bs0), h.lo, h.hi);
    PayloadsComplete(m0, m1, m2, h.mem[..], bs0, h.lo, h.hi);
  }

  method PlaceProgram(h: Heap, data: nat, ghost file: seq<byte>, ghost k: nat) returns (entry: u32)
    requires Lending(h, k) && Buffered(h.mem[..], data, file, h.lo, h.hi) && Loadable(file, h.mem.Length, h.lo, h.hi)
    modifies h.mem
    ensures Lending(h, k) && entry == EntryPoint(file)
    ensures LoadedTo(old(h.mem[..]), h.mem[..], file, HeaderCount(file), h.lo, h.hi)
    ensures SameWithin(old(h.mem[..]), h.mem[..], h.lo, h.hi)
  {
    ghost var m := h.mem[..];
    entry := LoadProgram(h.mem, data, file, h.lo, h.hi);
    InsideSame(m, h.mem[..], file, HeaderCount(file), h.lo, h.hi);
    h.TouchedOutside(m);
  }

  /** loadELF, for a path in the domain of get_file that names, if anything, a stored file of at least the
      size of an ELF header. It is followed whenever the file opens and is read to its end, so always on a
      reliable card with a free handle. Its results: 2 if there is no room for the file; 1 if it is no
      executable, in which case the buffer is never freed; otherwise the entry point, the image complete and
      the heap as before. The handle stays open in every case. */
  method LoadElf(h: Heap, d: Driver, path: seq<byte>, ghost file: seq<byte>)
    returns (r: u32, ghost id: u32, ghost followed: bool)
    requires h.Valid() && d.Valid() && Openable(d.card, d.vol, path)
    requires Target(d.card, d.vol, path).Found? ==>
               file == StoredBytes(d.card, d.vol, Target(d.card, d.vol, path).info) && EHDR <= |file| < TWO31
               && (Executable(file) ==>
                     Loadable(file, h.mem.Length, h.lo, h.hi) && AllApart(Segments(file, HeaderCount(file))))
    modifies h, h.mem, d`chains, d.handles
    ensures h.Sound() && d.Valid() && d.OthersKept(id)
    ensures d.card.reliable && Target(d.card, d.vol, path).Found? && !old(d.TakenBelow(MAX_OPEN_FILES)) ==> followed
    ensures followed ==>
              && Target(d.card, d.vol, path).Found? && d.Open(id) && old(d.handles[id].isFree)
              && (Executable(file) || r == 2 ==> h.Valid())
              && Result(r, old(h.mem[..]), h.mem[..], old(h.blocks), h.blocks, file, h.lo, h.hi)
    ensures !followed ==> Keeps(old(h.mem[..]), h.mem[..], LiveBlocks(old(h.blocks)), h.lo, h.hi)
  {
    var fileId := OpenFile(d, path, 0);
    id := fileId;
    if fileId == TWO32 - 1 {
      return 0, id, false;
    }
    var size := d.GetSize(fileId);
    ReadableAtStart(d, fileId);
    r, followed := LoadOpened(h, d, fileId, size, file);
  }

  lemma ReadableAtStart(d: Driver, id: nat)
    requires d.Valid() && d.Open(id) && d.handles[id].pos == 0 && d.handles[id].offset == 0
    ensures d.Readable(id)
  {
    assert d.SlotOk(id);
    assert 0 < d.vol.bytesPerCluster;
  }
}

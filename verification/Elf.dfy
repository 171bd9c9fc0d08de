/** The program loader (src/lib/elf/elf.c: loadELF), over one memory that also holds the heap. */
module Elf {
  import opened Bytes
  import opened Memory
  import opened Disk
  import opened FatHandle
  import opened FatFile
  import opened FatMount
  import opened HeapBlocks
  import opened HeapMemory
  import opened Heap
  import opened ElfImage

  const ELF_INVALID_EXECUTABLE: u32 := 1

  /** The file lies in memory at `data`. */
  ghost predicate HoldsFile(m: seq<byte>, data: nat, file: seq<byte>) {
    data + |file| <= |m| && forall k :: 0 <= k < |file| ==> ByteHeld(m, data, file, k)
  }

  ghost predicate ByteHeld(m: seq<byte>, data: nat, file: seq<byte>, k: nat)
    requires data + |file| <= |m| && k < |file|
  {
    m[data + k] == file[k]
  }

  lemma FileByte(m: seq<byte>, data: nat, file: seq<byte>, o: nat)
    requires HoldsFile(m, data, file) && o < |file|
    ensures m[data + o] == file[o]
  {
    assert ByteHeld(m, data, file, o);
  }

  lemma FileWord(m: seq<byte>, data: nat, file: seq<byte>, o: nat)
    requires HoldsFile(m, data, file)
    ensures o + 2 <= |file| ==> Le16(m, data + o) == Le16(file, o)
    ensures o + 4 <= |file| ==> Le32(m, data + o) == Le32(file, o)
  {
    if o + 2 <= |file| {
      FileByte(m, data, file, o);
      FileByte(m, data, file, o + 1);
    }
    if o + 4 <= |file| {
      FileByte(m, data, file, o + 2);
      FileByte(m, data, file, o + 3);
    }
  }

  /** read_le32: the offset is cut to 16 bits. */
  method ReadLe32(mem: array<byte>, data: nat, offset: u32) returns (v: u32)
    requires data + Reached(offset) + 4 <= mem.Length
    ensures v == Le32(mem[..], data + Reached(offset))
  {
    v := Le32(mem[..], data + offset % TWO16);
  }

  /** The field at a distance from the header at o, with the sum in 32-bit arithmetic. */
  method ReadField(mem: array<byte>, data: nat, offset: u32, distance: u16, ghost o: nat, ghost file: seq<byte>)
    returns (v: u32)
    requires offset == o % TWO32 && HoldsFile(mem[..], data, file) && Reached(o + distance) + 4 <= |file|
    ensures v == Le32(file, Reached(o + distance))
  {
    SameReached(o, distance);
    FileWord(mem[..], data, file, Reached(o + distance));
    v := ReadLe32(mem, data, (offset + distance) % TWO32);
  }

  lemma SameReached(o: nat, distance: u16)
    ensures Reached((o % TWO32 + distance) % TWO32) == Reached(o + distance)
  {
    var q, s := o / TWO32, o % TWO32 + distance;
    SameLowBits(s, TWO16 * q);
    assert s + TWO16 * (TWO16 * q) == o + distance;
    if s >= TWO32 {
      SameLowBits(s - TWO32, TWO16);
    }
  }

  lemma SameLowBits(s: nat, q: nat)
    ensures (s + TWO16 * q) % TWO16 == s % TWO16
  {
  }

  // ----- one program header -----

  /** The buffer's place in the heap region. */
  ghost predicate Buffered(m: seq<byte>, data: nat, file: seq<byte>, lo: nat, hi: nat) {
    lo <= data && data + |file| <= hi <= |m| && HoldsFile(m, data, file)
  }

  ghost predicate SameWithin(m: seq<byte>, m': seq<byte>, lo: nat, hi: nat) {
    |m'| == |m| && forall x :: 0 <= x < |m| && lo <= x < hi ==> m'[x] == m[x]
  }

  lemma StillBuffered(m: seq<byte>, m': seq<byte>, data: nat, file: seq<byte>, lo: nat, hi: nat)
    requires Buffered(m, data, file, lo, hi) && SameWithin(m, m', lo, hi)
    ensures Buffered(m', data, file, lo, hi)
  {
    forall k | 0 <= k < |file| ensures ByteHeld(m', data, file, k) {
      assert ByteHeld(m, data, file, k);
    }
  }

  /** Copying the segment's bytes and zeroing the rest. */
  method LoadSegment(mem: array<byte>, data: nat, s: Segment, ghost file: seq<byte>, ghost lo: nat, ghost hi: nat)
    requires Buffered(mem[..], data, file, lo, hi) && Fits(s, file, mem.Length, lo, hi)
    modifies mem
    ensures mem[..] == Place(old(mem[..]), file, s)
  {
    ghost var m, bytes := mem[..], file[s.offset..s.offset + s.filesz];
    CopySegment(mem, data, s, bytes, file, lo, hi);
    ZeroRest(mem, s);
    assert mem[..] == Splice(Splice(m, s.vaddr, bytes), s.vaddr + s.filesz, Zeros(s.Extent() - s.filesz));
  }

  /** The buffer is out of the segment's way. */
  lemma PlaceBuffered(m: seq<byte>, data: nat, file: seq<byte>, s: Segment, lo: nat, hi: nat)
    requires Buffered(m, data, file, lo, hi) && Fits(s, file, |m|, lo, hi)
    ensures Buffered(Place(m, file, s), data, file, lo, hi)
  {
    PlacedOutside(m, file, s, lo, hi);
    StillBuffered(m, Place(m, file, s), data, file, lo, hi);
  }

  method CopySegment(mem: array<byte>, data: nat, s: Segment, ghost bytes: seq<byte>,
                     ghost file: seq<byte>, ghost lo: nat, ghost hi: nat)
    requires Buffered(mem[..], data, file, lo, hi) && Fits(s, file, mem.Length, lo, hi)
    requires bytes == file[s.offset..s.offset + s.filesz]
    modifies mem
    ensures mem[..] == Splice(old(mem[..]), s.vaddr, bytes)
  {
    SourceSlice(mem[..], data, file, s.offset, s.filesz);
    MemCpy(mem, s.vaddr, data + s.offset, s.filesz, bytes);
  }

  method ZeroRest(mem: array<byte>, s: Segment)
    requires s.vaddr + s.Extent() <= mem.Length
    modifies mem
    ensures mem[..] == Splice(old(mem[..]), s.vaddr + s.filesz, Zeros(s.Extent() - s.filesz))
  {
    if s.memsz > s.filesz {
      MemZero(mem, s.vaddr + s.filesz, s.memsz - s.filesz);
    } else {
      NoZeros(mem[..], s.vaddr + s.filesz);
    }
  }

  lemma SourceSlice(m: seq<byte>, data: nat, file: seq<byte>, o: nat, n: nat)
    requires HoldsFile(m, data, file) && o + n <= |file|
    ensures m[data + o..data + o + n] == file[o..o + n]
  {
    var there, bytes := m[data + o..data + o + n], file[o..o + n];
    forall k | 0 <= k < n ensures there[k] == bytes[k] {
      FileByte(m, data, file, o + k);
    }
  }

  lemma NoZeros(m: seq<byte>, a: nat)
    requires a <= |m|
    ensures Splice(m, a, Zeros(0)) == m
  {
  }

  lemma PlacedOutside(m: seq<byte>, file: seq<byte>, s: Segment, lo: nat, hi: nat)
    requires Fits(s, file, |m|, lo, hi)
    ensures SameWithin(m, Place(m, file, s), lo, hi)
  {
  }

  /** One program header: what the loader takes for a segment to load is placed, anything else is not. */
  method LoadHeader(mem: array<byte>, data: nat, offset: u32,
                    ghost o: nat, ghost file: seq<byte>, ghost lo: nat, ghost hi: nat)
    requires Buffered(mem[..], data, file, lo, hi) && offset == o % TWO32 && HeaderReadable(file, o)
    requires SeenType(file, o) == PT_LOAD ==> Fits(SegmentSeen(file, o), file, mem.Length, lo, hi)
    modifies mem
    ensures Buffered(mem[..], data, file, lo, hi)
    ensures mem[..] == if SeenType(file, o) == PT_LOAD then Place(old(mem[..]), file, SegmentSeen(file, o))
                       else old(mem[..])
  {
    var pType := ReadType(mem, data, offset, o, file);
    if pType != PT_LOAD {
      return;
    }
    var s := ReadSegment(mem, data, offset, o, file);
    LoadBuffered(mem, data, s, file, lo, hi);
  }

  /** The file stays in its buffer when a segment is loaded. */
  method LoadBuffered(mem: array<byte>, data: nat, s: Segment, ghost file: seq<byte>, ghost lo: nat, ghost hi: nat)
    requires Buffered(mem[..], data, file, lo, hi) && Fits(s, file, mem.Length, lo, hi)
    modifies mem
    ensures Buffered(mem[..], data, file, lo, hi)
    ensures mem[..] == Place(old(mem[..]), file, s)
  {
    PlaceBuffered(mem[..], data, file, s, lo, hi);
    LoadSegment(mem, data, s, file, lo, hi);
  }

  method ReadType(mem: array<byte>, data: nat, offset: u32, ghost o: nat, ghost file: seq<byte>) returns (pType: u32)
    requires HoldsFile(mem[..], data, file) && offset == o % TWO32 && HeaderReadable(file, o)
    ensures pType == SeenType(file, o)
  {
    pType := ReadField(mem, data, offset, 0, o, file);
  }

  method ReadSegment(mem: array<byte>, data: nat, offset: u32, ghost o: nat, ghost file: seq<byte>) returns (s: Segment)
    requires HoldsFile(mem[..], data, file) && offset == o % TWO32
    requires HeaderReadable(file, o) && SeenType(file, o) == PT_LOAD
    ensures s == SegmentSeen(file, o)
  {
    var pOffset := ReadField(mem, data, offset, 0x04, o, file);
    var pVaddr := ReadField(mem, data, offset, 0x08, o, file);
    var pFilesz := ReadField(mem, data, offset, 0x10, o, file);
    var pMemsz := ReadField(mem, data, offset, 0x14, o, file);
    s := Segment(pOffset, pVaddr, pFilesz, pMemsz);
  }

  // ----- the table -----

  lemma {:induction false} SegmentsFit(file: seq<byte>, n: nat, i: nat, size: nat, lo: nat, hi: nat)
    requires TableReadable(file) && i <= n <= HeaderCount(file) && AllFit(Segments(file, n), file, size, lo, hi)
    ensures AllFit(Segments(file, i), file, size, lo, hi)
    decreases n
  {
    if i < n {
      var ss, ts := Segments(file, n), Segments(file, n - 1);
      forall k | 0 <= k < |ts| ensures Fits(ts[k], file, size, lo, hi) {
        assert ss[k] == ts[k] && Fits(ss[k], file, size, lo, hi);
      }
      SegmentsFit(file, n - 1, i, size, lo, hi);
    }
  }

  /** The loader gets at all program headers, and every segment fits. */
  ghost predicate Loadable(file: seq<byte>, size: nat, lo: nat, hi: nat) {
    TableReadable(file) && AllFit(Segments(file, HeaderCount(file)), file, size, lo, hi)
  }

  lemma HeaderFits(file: seq<byte>, i: nat, size: nat, lo: nat, hi: nat)
    requires Loadable(file, size, lo, hi) && i < HeaderCount(file)
    ensures var o := HeaderStart(file, i);
            HeaderReadable(file, o) && (SeenType(file, o) == PT_LOAD ==> Fits(SegmentSeen(file, o), file, size, lo, hi))
  {
    SegmentsFit(file, HeaderCount(file), i + 1, size, lo, hi);
    var o, ss := HeaderStart(file, i), Segments(file, i + 1);
    assert HeaderReadable(file, o);
    if SeenType(file, o) == PT_LOAD {
      assert ss[|ss| - 1] == SegmentSeen(file, o) && Fits(ss[|ss| - 1], file, size, lo, hi);
    }
  }

  /** The first i program headers have been dealt with. */
  ghost predicate LoadedTo(m: seq<byte>, m': seq<byte>, file: seq<byte>, i: nat, lo: nat, hi: nat) {
    && TableReadable(file) && i <= HeaderCount(file) && AllFit(Segments(file, i), file, |m|, lo, hi)
    && m' == PlaceAll(m, file, Segments(file, i), lo, hi)
  }

  lemma LoadedNone(m: seq<byte>, file: seq<byte>, lo: nat, hi: nat)
    requires TableReadable(file)
    ensures LoadedTo(m, m, file, 0, lo, hi)
  {
  }

  /** One more header loads one more segment, or none. */
  lemma LoadedNext(m: seq<byte>, m1: seq<byte>, m2: seq<byte>, file: seq<byte>, i: nat, lo: nat, hi: nat)
    requires LoadedTo(m, m1, file, i, lo, hi) && i < HeaderCount(file) && Loadable(file, |m|, lo, hi)
    requires var o := HeaderStart(file, i);
             && HeaderReadable(file, o)
             && (SeenType(file, o) == PT_LOAD ==> Fits(SegmentSeen(file, o), file, |m1|, lo, hi))
             && m2 == if SeenType(file, o) == PT_LOAD then Place(m1, file, SegmentSeen(file, o)) else m1
    ensures LoadedTo(m, m2, file, i + 1, lo, hi)
  {
    SegmentsFit(file, HeaderCount(file), i + 1, |m|, lo, hi);
    var o, ss := HeaderStart(file, i), Segments(file, i + 1);
    if SeenType(file, o) == PT_LOAD {
      assert ss[..|ss| - 1] == Segments(file, i);
    } else {
      assert ss == Segments(file, i);
    }
  }

  /** Where the next header starts, in 32-bit arithmetic. */
  method Offset(phoff: u32, phentsize: u16, i: nat, ghost file: seq<byte>) returns (offset: u32)
    requires |file| >= EHDR && phoff == Le32(file, 0x1C) && phentsize == Le16(file, 0x2A)
    ensures offset == HeaderStart(file, i) % TWO32
  {
    HeaderStartIs(file, i);
    offset := (phoff + i * phentsize) % TWO32;
  }

  /** The loop over the program headers. */
  method LoadTable(mem: array<byte>, data: nat, phoff: u32, phentsize: u16, phnum: u16,
                   ghost file: seq<byte>, ghost lo: nat, ghost hi: nat)
    requires Buffered(mem[..], data, file, lo, hi) && Loadable(file, mem.Length, lo, hi)
    requires phoff == Le32(file, 0x1C) && phentsize == Le16(file, 0x2A) && phnum == HeaderCount(file)
    modifies mem
    ensures LoadedTo(old(mem[..]), mem[..], file, phnum, lo, hi)
  {
    ghost var m := mem[..];
    var i: nat := 0;
    LoadedNone(m, file, lo, hi);
    while i < phnum
      invariant 0 <= i <= phnum && Buffered(mem[..], data, file, lo, hi)
      invariant LoadedTo(m, mem[..], file, i, lo, hi)
    {
      LoadNext(mem, data, phoff, phentsize, i, file, lo, hi, m);
      i := i + 1;
    }
  }

  method LoadNext(mem: array<byte>, data: nat, phoff: u32, phentsize: u16, i: nat,
                  ghost file: seq<byte>, ghost lo: nat, ghost hi: nat, ghost m: seq<byte>)
    requires Buffered(mem[..], data, file, lo, hi) && Loadable(file, mem.Length, lo, hi) && |m| == mem.Length
    requires phoff == Le32(file, 0x1C) && phentsize == Le16(file, 0x2A) && i < HeaderCount(file)
    requires LoadedTo(m, mem[..], file, i, lo, hi)
    modifies mem
    ensures Buffered(mem[..], data, file, lo, hi)
    ensures LoadedTo(m, mem[..], file, i + 1, lo, hi)
  {
    HeaderFits(file, i, mem.Length, lo, hi);
    ghost var m1 := mem[..];
    var offset := Offset(phoff, phentsize, i, file);
    LoadHeader(mem, data, offset, HeaderStart(file, i), file, lo, hi);
    LoadedNext(m, m1, mem[..], file, i, lo, hi);
  }
}

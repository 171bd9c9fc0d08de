/** Executables written byte by byte (TIS ELF Specification 1.2, Book I, "ELF Header" and "Program Header"),
    and what the loader of src/lib/elf/elf.c reads in them. The layout is stated by the order of the fields. */
module ElfFormat {
  import opened Bytes
  import opened HeapBlocks
  import opened ElfImage
  import opened ElfLoader

  // ----- the ELF header -----

  datatype ElfHeader = ElfHeader(
    magic: seq<byte>, bits: byte, encoding: byte, rest: seq<byte>,
    kind: u16, machine: u16, version: u32, entry: u32, phoff: u32, shoff: u32, flags: u32,
    ehsize: u16, phentsize: u16, phnum: u16, shentsize: u16, shnum: u16, shstrndx: u16)

  /** e_ident has sixteen bytes: the magic number, the class, the encoding and ten more. */
  predicate Ident(h: ElfHeader) {
    |h.magic| == 4 && |h.rest| == 10
  }

  function WriteHeader(h: ElfHeader): (s: seq<byte>)
    requires Ident(h)
    ensures |s| == 52
  {
    (h.magic + [h.bits, h.encoding] + h.rest)
    + Write16(h.kind) + Write16(h.machine) + Write32(h.version)
    + Write32(h.entry) + Write32(h.phoff) + Write32(h.shoff) + Write32(h.flags)
    + Write16(h.ehsize) + Write16(h.phentsize) + Write16(h.phnum)
    + (Write16(h.shentsize) + Write16(h.shnum) + Write16(h.shstrndx))
  }

  lemma HeaderParts(w: seq<byte>, ident: seq<byte>, kind: seq<byte>, machine: seq<byte>, version: seq<byte>,
                    entry: seq<byte>, phoff: seq<byte>, shoff: seq<byte>, flags: seq<byte>, ehsize: seq<byte>,
                    phentsize: seq<byte>, phnum: seq<byte>, tail: seq<byte>)
    requires |ident| == 16 && |kind| == |machine| == |ehsize| == |phentsize| == |phnum| == 2
    requires |version| == |entry| == |phoff| == |shoff| == |flags| == 4
    requires w == ident + kind + machine + version + entry + phoff + shoff + flags + ehsize + phentsize + phnum + tail
    ensures w[..16] == ident && w[16..18] == kind && w[18..20] == machine && w[24..28] == entry && w[28..32] == phoff
    ensures w[42..44] == phentsize && w[44..46] == phnum
  {
  }

  lemma HeaderFields(h: ElfHeader, file: seq<byte>)
    requires Ident(h) && |file| >= 52 && file[..52] == WriteHeader(h)
    ensures file[..16] == h.magic + [h.bits, h.encoding] + h.rest
    ensures file[16..18] == Write16(h.kind) && file[18..20] == Write16(h.machine)
    ensures file[24..28] == Write32(h.entry) && file[28..32] == Write32(h.phoff)
    ensures file[42..44] == Write16(h.phentsize) && file[44..46] == Write16(h.phnum)
  {
    HeaderParts(WriteHeader(h), h.magic + [h.bits, h.encoding] + h.rest, Write16(h.kind), Write16(h.machine),
                Write32(h.version), Write32(h.entry), Write32(h.phoff), Write32(h.shoff), Write32(h.flags),
                Write16(h.ehsize), Write16(h.phentsize), Write16(h.phnum),
                Write16(h.shentsize) + Write16(h.shnum) + Write16(h.shstrndx));
    SameSlices(file, WriteHeader(h));
  }

  lemma SameSlices(file: seq<byte>, w: seq<byte>)
    requires |file| >= 52 && |w| == 52 && file[..52] == w
    ensures file[..16] == w[..16] && file[16..18] == w[16..18] && file[18..20] == w[18..20]
    ensures file[24..28] == w[24..28] && file[28..32] == w[28..32]
    ensures file[42..44] == w[42..44] && file[44..46] == w[44..46]
  {
    SubSlice(file, 0, 52, 0, 16);
    SubSlice(file, 0, 52, 16, 18);
    SubSlice(file, 0, 52, 18, 20);
    SubSlice(file, 0, 52, 24, 28);
    SubSlice(file, 0, 52, 28, 32);
    SubSlice(file, 0, 52, 42, 44);
    SubSlice(file, 0, 52, 44, 46);
  }

  lemma IdentBytes(h: ElfHeader, file: seq<byte>)
    requires Ident(h) && |file| >= 16 && file[..16] == h.magic + [h.bits, h.encoding] + h.rest
    ensures file[0] == h.magic[0] && file[1] == h.magic[1] && file[2] == h.magic[2] && file[3] == h.magic[3]
    ensures file[4] == h.bits && file[5] == h.encoding
  {
    var w := file[..16];
    assert w[0] == file[0] && w[1] == file[1] && w[2] == file[2] && w[3] == file[3];
    assert w[4] == file[4] && w[5] == file[5];
  }

  /** A file that starts with a header: the loader takes it exactly when the magic number is right, it is
      not of the 64-bit class and not big-endian, and the low bytes of its type and machine are those of an
      executable and of ARM; it finds the entry point and the program headers that were written. */
  lemma HeaderRead(h: ElfHeader, file: seq<byte>, i: nat)
    requires Ident(h) && |file| >= 52 && file[..52] == WriteHeader(h)
    ensures Executable(file) <==>
              && h.magic == [0x7F, 0x45, 0x4C, 0x46] && h.bits != 2 && h.encoding != 2
              && h.kind % 0x100 == 2 && h.machine % 0x100 == 0x28
    ensures EntryPoint(file) == h.entry && HeaderCount(file) == h.phnum
    ensures HeaderStart(file, i) == h.phoff + i * h.phentsize
  {
    HeaderFields(h, file);
    HeaderWords(h, file);
    HeaderStartIs(file, i);
    LowByteFirst(file, 16, h.kind);
    LowByteFirst(file, 18, h.machine);
    IdentBytes(h, file);
    FourEqual(h.magic);
  }

  lemma HeaderWords(h: ElfHeader, file: seq<byte>)
    requires |file| >= 52
    requires file[24..28] == Write32(h.entry) && file[28..32] == Write32(h.phoff)
    requires file[42..44] == Write16(h.phentsize) && file[44..46] == Write16(h.phnum)
    ensures Le32(file, 24) == h.entry && Le32(file, 28) == h.phoff
    ensures Le16(file, 42) == h.phentsize && Le16(file, 44) == h.phnum
  {
    WordAt(file, 24, h.entry);
    WordAt(file, 28, h.phoff);
    HalfAt(file, 42, h.phentsize);
    HalfAt(file, 44, h.phnum);
  }

  lemma LowByteFirst(s: seq<byte>, o: nat, v: u16)
    requires o + 2 <= |s| && s[o..o + 2] == Write16(v)
    ensures s[o] == v % 0x100
  {
    assert s[o] == s[o..o + 2][0];
  }

  lemma FourEqual(s: seq<byte>)
    requires |s| == 4
    ensures s == [0x7F, 0x45, 0x4C, 0x46] <==> s[0] == 0x7F && s[1] == 0x45 && s[2] == 0x4C && s[3] == 0x46
  {
  }

  // ----- program headers -----

  datatype ProgramHeader = ProgramHeader(kind: u32, offset: u32, vaddr: u32, paddr: u32, filesz: u32, memsz: u32,
                                         flags: u32, align: u32)

  function WriteProgramHeader(p: ProgramHeader): (s: seq<byte>)
    ensures |s| == 32
  {
    Write32(p.kind) + Write32(p.offset) + Write32(p.vaddr) + Write32(p.paddr)
    + Write32(p.filesz) + Write32(p.memsz) + Write32(p.flags) + Write32(p.align)
  }

  /** The segment that a header describes: PT_LOAD is 1. */
  function Described(p: ProgramHeader): seq<Segment> {
    if p.kind == 1 then [Segment(p.offset, p.vaddr, p.filesz, p.memsz)] else []
  }

  ghost predicate HoldsHeader(file: seq<byte>, o: nat, p: ProgramHeader) {
    o + 32 <= |file| && file[o..o + 32] == WriteProgramHeader(p)
  }

  lemma ProgramParts(w: seq<byte>, kind: seq<byte>, offset: seq<byte>, vaddr: seq<byte>, paddr: seq<byte>,
                     filesz: seq<byte>, memsz: seq<byte>, flags: seq<byte>, align: seq<byte>)
    requires |kind| == |offset| == |vaddr| == |paddr| == |filesz| == |memsz| == 4
    requires w == kind + offset + vaddr + paddr + filesz + memsz + flags + align
    ensures w[..4] == kind && w[4..8] == offset && w[8..12] == vaddr && w[16..20] == filesz && w[20..24] == memsz
  {
  }

  lemma ProgramFields(file: seq<byte>, o: nat, p: ProgramHeader)
    requires HoldsHeader(file, o, p)
    ensures file[o..o + 4] == Write32(p.kind) && file[o + 4..o + 8] == Write32(p.offset)
    ensures file[o + 8..o + 12] == Write32(p.vaddr)
    ensures file[o + 16..o + 20] == Write32(p.filesz) && file[o + 20..o + 24] == Write32(p.memsz)
  {
    ProgramParts(WriteProgramHeader(p), Write32(p.kind), Write32(p.offset), Write32(p.vaddr), Write32(p.paddr),
                 Write32(p.filesz), Write32(p.memsz), Write32(p.flags), Write32(p.align));
    SubSlice(file, o, 32, 0, 4);
    SubSlice(file, o, 32, 4, 8);
    SubSlice(file, o, 32, 8, 12);
    SubSlice(file, o, 32, 16, 20);
    SubSlice(file, o, 32, 20, 24);
  }

  /** What the header at o states is what was written there. */
  lemma ProgramHeaderRead(file: seq<byte>, o: nat, p: ProgramHeader)
    requires HoldsHeader(file, o, p)
    ensures Stated(file, o) && Le32(file, o) == p.kind
    ensures SegmentAt(file, o) == Segment(p.offset, p.vaddr, p.filesz, p.memsz)
  {
    ProgramFields(file, o, p);
    WordAt(file, o, p.kind);
    WordAt(file, o + 4, p.offset);
    WordAt(file, o + 8, p.vaddr);
    WordAt(file, o + 16, p.filesz);
    WordAt(file, o + 20, p.memsz);
  }

  // ----- a whole file -----

  /** The file starts with the header, and the program headers stand where it says. */
  ghost predicate Written(file: seq<byte>, h: ElfHeader, ps: seq<ProgramHeader>) {
    && Ident(h) && |file| >= 52 && file[..52] == WriteHeader(h) && h.phnum == |ps|
    && forall i :: 0 <= i < |ps| ==> HoldsHeader(file, StartOf(h, i), ps[i])
  }

  /** Where program header i stands. */
  function StartOf(h: ElfHeader, i: nat): nat {
    h.phoff + i * h.phentsize
  }

  /** read_le32 gets at the headers: at the types, and at the last fields of those to load. */
  predicate Near(h: ElfHeader, ps: seq<ProgramHeader>) {
    forall i :: 0 <= i < |ps| ==> StartOf(h, i) < 0x1_0000 && (ps[i].kind == 1 ==> StartOf(h, i) + 20 < 0x1_0000)
  }

  function AllDescribed(ps: seq<ProgramHeader>, n: nat): seq<Segment>
    requires n <= |ps|
  {
    if n == 0 then [] else AllDescribed(ps, n - 1) + Described(ps[n - 1])
  }

  /** The loader's view of program header i, taken where the ELF header says. */
  ghost predicate StatedIs(file: seq<byte>, i: nat, p: ProgramHeader)
    requires |file| >= EHDR
  {
    var o := HeaderStart(file, i);
    && Stated(file, o) && InSight(file, o) && Le32(file, o) == p.kind
    && (p.kind == 1 ==> [SegmentAt(file, o)] == Described(p))
  }

  lemma HeaderPlace(file: seq<byte>, h: ElfHeader, ps: seq<ProgramHeader>, i: nat)
    requires Written(file, h, ps) && Near(h, ps) && i < |ps|
    ensures StatedIs(file, i, ps[i])
  {
    HeaderRead(h, file, i);
    assert HoldsHeader(file, StartOf(h, i), ps[i]);
    ProgramHeaderRead(file, StartOf(h, i), ps[i]);
  }

  lemma {:induction false} StatedAsWritten(file: seq<byte>, ps: seq<ProgramHeader>, n: nat)
    requires |file| >= EHDR && n <= |ps| && forall i :: 0 <= i < |ps| ==> StatedIs(file, i, ps[i])
    ensures forall i :: 0 <= i < n ==> Stated(file, HeaderStart(file, i))
    ensures StatedSegments(file, n) == AllDescribed(ps, n)
  {
    forall i | 0 <= i < n ensures Stated(file, HeaderStart(file, i)) {
      assert StatedIs(file, i, ps[i]);
    }
    if n > 0 {
      assert StatedIs(file, n - 1, ps[n - 1]);
      StatedAsWritten(file, ps, n - 1);
      StatedStep(file, n, ps[n - 1]);
    }
  }

  lemma StatedStep(file: seq<byte>, n: nat, p: ProgramHeader)
    requires |file| >= EHDR && n > 0 && forall i :: 0 <= i < n ==> Stated(file, HeaderStart(file, i))
    requires StatedIs(file, n - 1, p)
    ensures StatedSegments(file, n) == StatedSegments(file, n - 1) + Described(p)
  {
  }

  /** The loader loads, in order, exactly the segments whose headers were written with type 1. */
  lemma SegmentsAsWritten(file: seq<byte>, h: ElfHeader, ps: seq<ProgramHeader>)
    requires Written(file, h, ps) && Near(h, ps)
    ensures TableReadable(file) && HeaderCount(file) == |ps|
    ensures Segments(file, |ps|) == AllDescribed(ps, |ps|)
  {
    HeaderRead(h, file, 0);
    forall i | 0 <= i < |ps| ensures StatedIs(file, i, ps[i]) {
      HeaderPlace(file, h, ps, i);
    }
    forall i | 0 <= i < HeaderCount(file)
      ensures Stated(file, HeaderStart(file, i)) && InSight(file, HeaderStart(file, i))
    {
      assert StatedIs(file, i, ps[i]);
    }
    SegmentsAsStated(file, |ps|);
    StatedAsWritten(file, ps, |ps|);
  }

  lemma {:induction false} DescribedIn(ps: seq<ProgramHeader>, n: nat, j: nat) returns (i: nat)
    requires j < n <= |ps| && ps[j].kind == 1
    ensures i < |AllDescribed(ps, n)|
    ensures AllDescribed(ps, n)[i] == Segment(ps[j].offset, ps[j].vaddr, ps[j].filesz, ps[j].memsz)
  {
    if j == n - 1 {
      i := |AllDescribed(ps, n - 1)|;
    } else {
      i := DescribedIn(ps, n - 1, j);
    }
  }

  /** Byte k of the segment is at its virtual address: from the file, or zero behind the file's bytes. */
  ghost predicate ByteRight(file: seq<byte>, p: ProgramHeader, m: seq<byte>, k: nat) {
    && p.vaddr + k < |m|
    && if k < p.filesz then p.offset + k < |file| && m[p.vaddr + k] == file[p.offset + k] else m[p.vaddr + k] == 0x00
  }

  /** Every byte of every segment of type 1 is in place. */
  ghost predicate ImageRight(file: seq<byte>, ps: seq<ProgramHeader>, m: seq<byte>) {
    forall j, k :: 0 <= j < |ps| && ps[j].kind == 1 && 0 <= k < Max(ps[j].filesz, ps[j].memsz) ==>
      ByteRight(file, ps[j], m, k)
  }

  function Max(a: nat, b: nat): nat {
    if a < b then b else a
  }

  lemma ByteLoaded(file: seq<byte>, m: seq<byte>, m': seq<byte>, ss: seq<Segment>, lo: nat, hi: nat, i: nat,
                   p: ProgramHeader, k: nat)
    requires Loaded(m, m', file, ss, lo, hi) && i < |ss| && k < Max(p.filesz, p.memsz)
    requires ss[i] == Segment(p.offset, p.vaddr, p.filesz, p.memsz)
    ensures ByteRight(file, p, m', k)
  {
    assert ss[i].Covers(ss[i].vaddr + k);
    assert InImage(m', file, ss[i], ss[i].vaddr + k);
  }

  lemma ImageAsWritten(file: seq<byte>, h: ElfHeader, ps: seq<ProgramHeader>, m: seq<byte>, m': seq<byte>,
                       lo: nat, hi: nat)
    requires Loaded(m, m', file, AllDescribed(ps, |ps|), lo, hi)
    ensures ImageRight(file, ps, m')
  {
    forall j, k | 0 <= j < |ps| && ps[j].kind == 1 && 0 <= k < Max(ps[j].filesz, ps[j].memsz)
      ensures ByteRight(file, ps[j], m', k)
    {
      var i := DescribedIn(ps, |ps|, j);
      ByteLoaded(file, m, m', AllDescribed(ps, |ps|), lo, hi, i, ps[j], k);
    }
  }

  /** The header of an executable for ARM, neither of the 64-bit class nor big-endian, by the low bytes of its
      type and machine. */
  predicate Accepted(h: ElfHeader) {
    && h.magic == [0x7F, 0x45, 0x4C, 0x46] && h.bits != 2 && h.encoding != 2
    && h.kind % 0x100 == 2 && h.machine % 0x100 == 0x28
  }

  /** The outcome of loadELF (ElfLoader.LoadElf) for a file so written: 2 if there is no room, 1 if the header
      is not accepted, otherwise the entry point as written, with every byte of every segment in place. */
  lemma ResultAsWritten(r: u32, m: seq<byte>, m': seq<byte>, bs: seq<Block>, bs': seq<Block>, file: seq<byte>,
                        lo: nat, hi: nat, h: ElfHeader, ps: seq<ProgramHeader>)
    requires EHDR <= |file| < TWO31 && Result(r, m, m', bs, bs', file, lo, hi)
    requires Written(file, h, ps) && Near(h, ps)
    ensures if FirstFit(bs, Align4(|file|)) == |bs| then r == 2
            else if !Accepted(h) then r == 1
            else r == h.entry && bs' == bs && ImageRight(file, ps, m')
  {
    HeaderRead(h, file, 0);
    if FirstFit(bs, Align4(|file|)) < |bs| && Accepted(h) {
      SegmentsAsWritten(file, h, ps);
      ImageAsWritten(file, h, ps, m, m', lo, hi);
    }
  }
}

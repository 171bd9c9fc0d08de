/** The memory image that an executable describes (src/lib/elf/elf.c; TIS ELF Specification 1.2, Book I
    Part 2, "Program Header"). */
module ElfImage {
  import opened Bytes
  import opened Memory

  const PT_LOAD: nat := 1
  const EHDR: nat := 0x34
  const PHDR: nat := 0x18

  /** The fields of a program header that the loader uses. */
  datatype Segment = Segment(offset: u32, vaddr: u32, filesz: u32, memsz: u32) {
    /** How many bytes of memory it writes. */
    function Extent(): nat {
      if memsz > filesz then memsz else filesz
    }

    predicate Covers(x: nat) {
      vaddr <= x < vaddr + Extent()
    }
  }

  /** The header checks of loadELF: the magic number, not 64-bit, not big-endian, an executable, for ARM. */
  predicate Executable(file: seq<byte>)
    requires |file| >= EHDR
  {
    && file[0] == 0x7F && file[1] == 0x45 && file[2] == 0x4C && file[3] == 0x46
    && file[4] != 2 && file[5] != 2 && file[0x10] == 2 && file[0x12] == 0x28
  }

  function EntryPoint(file: seq<byte>): u32
    requires |file| >= EHDR
  {
    Le32(file, 0x18)
  }

  function HeaderCount(file: seq<byte>): u16
    requires |file| >= EHDR
  {
    Le16(file, 0x2C)
  }

  /** Where program header i starts, without wrap-around. */
  function HeaderStart(file: seq<byte>, i: nat): nat
    requires |file| >= EHDR
  {
    if i == 0 then Le32(file, 0x1C) else HeaderStart(file, i - 1) + Le16(file, 0x2A)
  }

  lemma {:induction false} HeaderStartIs(file: seq<byte>, i: nat)
    requires |file| >= EHDR
    ensures HeaderStart(file, i) == Le32(file, 0x1C) + i * Le16(file, 0x2A)
  {
    if i > 0 {
      HeaderStartIs(file, i - 1);
      assert (i - 1) * Le16(file, 0x2A) + Le16(file, 0x2A) == i * Le16(file, 0x2A);
    }
  }

  /** The offset that read_le32 really uses: the low 16 bits. */
  function Reached(offset: nat): u16 {
    offset % TWO16
  }

  /** What the loader takes for the type of the program header at o. */
  function SeenType(file: seq<byte>, o: nat): u32
    requires Reached(o) + 4 <= |file|
  {
    Le32(file, Reached(o))
  }

  /** The loader finds a type there, and for a segment to load the four other fields. */
  predicate HeaderReadable(file: seq<byte>, o: nat) {
    && Reached(o) + 4 <= |file|
    && (SeenType(file, o) == PT_LOAD ==>
          && Reached(o + 4) + 4 <= |file| && Reached(o + 8) + 4 <= |file|
          && Reached(o + 0x10) + 4 <= |file| && Reached(o + 0x14) + 4 <= |file|)
  }

  /** What the loader takes for the segment. */
  function SegmentSeen(file: seq<byte>, o: nat): Segment
    requires HeaderReadable(file, o) && SeenType(file, o) == PT_LOAD
  {
    Segment(Le32(file, Reached(o + 4)), Le32(file, Reached(o + 8)),
            Le32(file, Reached(o + 0x10)), Le32(file, Reached(o + 0x14)))
  }

  ghost predicate TableReadable(file: seq<byte>) {
    |file| >= EHDR && forall i :: 0 <= i < HeaderCount(file) ==> HeaderReadable(file, HeaderStart(file, i))
  }

  /** The segments the loader loads for the first n program headers, in the table's order. */
  ghost function Segments(file: seq<byte>, n: nat): seq<Segment>
    requires TableReadable(file) && n <= HeaderCount(file)
  {
    if n == 0 then [] else
      var o := HeaderStart(file, n - 1);
      Segments(file, n - 1) + if SeenType(file, o) == PT_LOAD then [SegmentSeen(file, o)] else []
  }

  // ----- what the headers say -----

  /** The segment of the program header at o, as it stands in the file. */
  function SegmentAt(file: seq<byte>, o: nat): Segment
    requires o + PHDR <= |file|
  {
    Segment(Le32(file, o + 4), Le32(file, o + 8), Le32(file, o + 0x10), Le32(file, o + 0x14))
  }

  /** The header's type is in the file, and the rest of it if it describes a segment to load. */
  predicate Stated(file: seq<byte>, o: nat) {
    o + 4 <= |file| && (Le32(file, o) == PT_LOAD ==> o + PHDR <= |file|)
  }

  /** The segments that the first n program headers describe. */
  function StatedSegments(file: seq<byte>, n: nat): seq<Segment>
    requires |file| >= EHDR && forall i :: 0 <= i < n ==> Stated(file, HeaderStart(file, i))
  {
    if n == 0 then [] else
      var o := HeaderStart(file, n - 1);
      assert Stated(file, HeaderStart(file, n - 1));
      StatedSegments(file, n - 1) + if Le32(file, o) == PT_LOAD then [SegmentAt(file, o)] else []
  }

  /** The loader looks at all five fields of a header in their places if and only if the last of them starts
      before 65536. */
  lemma FieldsReached(o: nat)
    ensures (Reached(o) == o && Reached(o + 4) == o + 4 && Reached(o + 8) == o + 8 && Reached(o + 0x10) == o + 0x10
             && Reached(o + 0x14) == o + 0x14) <==> o + 0x14 < TWO16
  {
  }

  /** The offsets that read_le32 gets at: of the type, and of the last field of a segment to load. */
  predicate InSight(file: seq<byte>, o: nat)
    requires Stated(file, o)
  {
    o < TWO16 && (Le32(file, o) == PT_LOAD ==> o + 0x14 < TWO16)
  }

  lemma SeenAsStated(file: seq<byte>, o: nat)
    requires Stated(file, o) && InSight(file, o)
    ensures HeaderReadable(file, o) && SeenType(file, o) == Le32(file, o)
    ensures SeenType(file, o) == PT_LOAD ==> SegmentSeen(file, o) == SegmentAt(file, o)
  {
    if o + 0x14 < TWO16 {
      FieldsReached(o);
    }
  }

  /** When all headers are in sight, the loader loads exactly what they say. */
  lemma {:induction false} SegmentsAsStated(file: seq<byte>, n: nat)
    requires |file| >= EHDR && n <= HeaderCount(file)
    requires forall i :: 0 <= i < HeaderCount(file) ==>
               Stated(file, HeaderStart(file, i)) && InSight(file, HeaderStart(file, i))
    ensures TableReadable(file) && Segments(file, n) == StatedSegments(file, n)
  {
    forall i | 0 <= i < HeaderCount(file) ensures HeaderReadable(file, HeaderStart(file, i)) {
      SeenAsStated(file, HeaderStart(file, i));
    }
    if n > 0 {
      SegmentsAsStated(file, n - 1);
      SeenAsStated(file, HeaderStart(file, n - 1));
    }
  }

  /** In every executable, a program header at offset 65536 is taken for the start of the file and never
      loads anything, whatever it says. */
  lemma HeaderAt65536(file: seq<byte>)
    requires |file| >= EHDR && Executable(file)
    ensures HeaderReadable(file, TWO16) && SeenType(file, TWO16) == 0x464C_457F != PT_LOAD
  {
  }

  // ----- placing segments -----

  /** The segment's bytes are in the file, and its target is in memory, outside [lo, hi). */
  predicate Fits(s: Segment, file: seq<byte>, size: nat, lo: nat, hi: nat) {
    && s.offset + s.filesz <= |file|
    && s.vaddr + s.Extent() <= size
    && (s.vaddr + s.Extent() <= lo || hi <= s.vaddr)
  }

  /** What byte k of the segment's memory holds. */
  function SegmentByte(s: Segment, file: seq<byte>, k: nat): byte
    requires s.offset + s.filesz <= |file|
  {
    if k < s.filesz then file[s.offset + k] else 0
  }

  /** Loading one segment: its bytes, then zeros. */
  function Place(m: seq<byte>, file: seq<byte>, s: Segment): (r: seq<byte>)
    requires s.offset + s.filesz <= |file| && s.vaddr + s.Extent() <= |m|
    ensures |r| == |m|
  {
    Splice(Splice(m, s.vaddr, file[s.offset..s.offset + s.filesz]), s.vaddr + s.filesz, Zeros(s.Extent() - s.filesz))
  }

  ghost predicate AllFit(ss: seq<Segment>, file: seq<byte>, size: nat, lo: nat, hi: nat) {
    forall i :: 0 <= i < |ss| ==> Fits(ss[i], file, size, lo, hi)
  }

  predicate Apart(s: Segment, t: Segment) {
    s.vaddr + s.Extent() <= t.vaddr || t.vaddr + t.Extent() <= s.vaddr
  }

  ghost predicate AllApart(ss: seq<Segment>) {
    forall i, j :: 0 <= i < j < |ss| ==> Apart(ss[i], ss[j])
  }

  /** Loading segments one after another. */
  ghost function PlaceAll(m: seq<byte>, file: seq<byte>, ss: seq<Segment>, lo: nat, hi: nat): (r: seq<byte>)
    requires AllFit(ss, file, |m|, lo, hi)
    ensures |r| == |m|
  {
    if ss == [] then m else
      var last := ss[|ss| - 1];
      assert Fits(last, file, |m|, lo, hi);
      AllFitFewer(ss, file, |m|, lo, hi);
      Place(PlaceAll(m, file, ss[..|ss| - 1], lo, hi), file, last)
  }

  lemma AllFitFewer(ss: seq<Segment>, file: seq<byte>, size: nat, lo: nat, hi: nat)
    requires AllFit(ss, file, size, lo, hi) && ss != []
    ensures AllFit(ss[..|ss| - 1], file, size, lo, hi)
  {
    var rest := ss[..|ss| - 1];
    forall i | 0 <= i < |rest| ensures Fits(rest[i], file, size, lo, hi) {
      assert Fits(ss[i], file, size, lo, hi);
    }
  }

  // ----- the image -----

  ghost predicate Uncovered(ss: seq<Segment>, x: nat) {
    forall i :: 0 <= i < |ss| ==> !ss[i].Covers(x)
  }

  /** Loading writes nothing but the targets, and nothing in [lo, hi). */
  lemma {:induction false} PlaceAllElsewhere(m: seq<byte>, file: seq<byte>, ss: seq<Segment>, lo: nat, hi: nat, x: nat)
    requires AllFit(ss, file, |m|, lo, hi) && x < |m| && (Uncovered(ss, x) || lo <= x < hi)
    ensures PlaceAll(m, file, ss, lo, hi)[x] == m[x]
    decreases |ss|
  {
    if ss != [] {
      var last, rest := ss[|ss| - 1], ss[..|ss| - 1];
      assert Fits(last, file, |m|, lo, hi);
      AllFitFewer(ss, file, |m|, lo, hi);
      if Uncovered(ss, x) {
        assert !last.Covers(x);
        forall i | 0 <= i < |rest| ensures !rest[i].Covers(x) {
          assert !ss[i].Covers(x);
        }
      }
      PlaceAllElsewhere(m, file, rest, lo, hi, x);
    }
  }

  lemma AllApartFewer(ss: seq<Segment>)
    requires AllApart(ss) && ss != []
    ensures AllApart(ss[..|ss| - 1])
    ensures forall i :: 0 <= i < |ss| - 1 ==> Apart(ss[i], ss[|ss| - 1])
  {
    var rest := ss[..|ss| - 1];
    forall a, b | 0 <= a < b < |rest| ensures Apart(rest[a], rest[b]) {
      assert Apart(ss[a], ss[b]);
    }
  }

  lemma PlaceAt(m: seq<byte>, file: seq<byte>, s: Segment, x: nat)
    requires s.offset + s.filesz <= |file| && s.vaddr + s.Extent() <= |m| && x < |m|
    ensures Place(m, file, s)[x] == if s.Covers(x) then SegmentByte(s, file, x - s.vaddr) else m[x]
  {
  }

  lemma ApartCovers(s: Segment, t: Segment, x: nat)
    requires Apart(s, t) && s.Covers(x)
    ensures !t.Covers(x)
  {
  }

  /** Where the targets do not overlap, every segment ends up in place. */
  lemma {:induction false} PlaceAllPlaces(m: seq<byte>, file: seq<byte>, ss: seq<Segment>,
                                          lo: nat, hi: nat, i: nat, x: nat)
    requires AllFit(ss, file, |m|, lo, hi) && AllApart(ss) && i < |ss| && ss[i].Covers(x)
    ensures Fits(ss[i], file, |m|, lo, hi)
    ensures PlaceAll(m, file, ss, lo, hi)[x] == SegmentByte(ss[i], file, x - ss[i].vaddr)
    decreases |ss|
  {
    var last, rest := ss[|ss| - 1], ss[..|ss| - 1];
    assert Fits(ss[i], file, |m|, lo, hi);
    PlacedLast(m, file, ss, lo, hi, x);
    if i < |ss| - 1 {
      AllFitFewer(ss, file, |m|, lo, hi);
      AllApartFewer(ss);
      ApartCovers(ss[i], last, x);
      PlaceAllPlaces(m, file, rest, lo, hi, i, x);
    }
  }

  lemma PlacedLast(m: seq<byte>, file: seq<byte>, ss: seq<Segment>, lo: nat, hi: nat, x: nat)
    requires AllFit(ss, file, |m|, lo, hi) && ss != [] && x < |m|
    ensures var last, rest := ss[|ss| - 1], ss[..|ss| - 1];
            && Fits(last, file, |m|, lo, hi) && AllFit(rest, file, |m|, lo, hi)
            && PlaceAll(m, file, ss, lo, hi)[x]
               == if last.Covers(x) then SegmentByte(last, file, x - last.vaddr) else PlaceAll(m, file, rest, lo, hi)[x]
  {
    var last, rest := ss[|ss| - 1], ss[..|ss| - 1];
    assert Fits(last, file, |m|, lo, hi);
    AllFitFewer(ss, file, |m|, lo, hi);
    PlaceAt(PlaceAll(m, file, rest, lo, hi), file, last, x);
  }

  /** So the order of the program headers does not matter. */
  lemma OrderIrrelevant(m: seq<byte>, file: seq<byte>, ss: seq<Segment>, ts: seq<Segment>, lo: nat, hi: nat)
    requires AllFit(ss, file, |m|, lo, hi) && AllFit(ts, file, |m|, lo, hi) && AllApart(ss) && AllApart(ts)
    requires forall s :: s in ss <==> s in ts
    ensures PlaceAll(m, file, ss, lo, hi) == PlaceAll(m, file, ts, lo, hi)
  {
    forall x | 0 <= x < |m| ensures PlaceAll(m, file, ss, lo, hi)[x] == PlaceAll(m, file, ts, lo, hi)[x] {
      SameAt(m, file, ss, ts, lo, hi, x);
    }
  }

  lemma SameAt(m: seq<byte>, file: seq<byte>, ss: seq<Segment>, ts: seq<Segment>, lo: nat, hi: nat, x: nat)
    requires AllFit(ss, file, |m|, lo, hi) && AllFit(ts, file, |m|, lo, hi) && AllApart(ss) && AllApart(ts)
    requires (forall s :: s in ss <==> s in ts) && x < |m|
    ensures PlaceAll(m, file, ss, lo, hi)[x] == PlaceAll(m, file, ts, lo, hi)[x]
  {
    if Uncovered(ss, x) {
      UncoveredToo(ss, ts, x);
      PlaceAllElsewhere(m, file, ss, lo, hi, x);
      PlaceAllElsewhere(m, file, ts, lo, hi, x);
    } else {
      var i :| 0 <= i < |ss| && ss[i].Covers(x);
      assert ss[i] in ts;
      var j :| 0 <= j < |ts| && ts[j] == ss[i];
      PlaceAllPlaces(m, file, ss, lo, hi, i, x);
      PlaceAllPlaces(m, file, ts, lo, hi, j, x);
    }
  }

  lemma UncoveredToo(ss: seq<Segment>, ts: seq<Segment>, x: nat)
    requires Uncovered(ss, x) && forall s :: s in ss <==> s in ts
    ensures Uncovered(ts, x)
  {
    forall j | 0 <= j < |ts| ensures !ts[j].Covers(x) {
      assert ts[j] in ss;
      var i :| 0 <= i < |ss| && ss[i] == ts[j];
      assert !ss[i].Covers(x);
    }
  }
}

/** Short directory records written byte by byte (Microsoft FAT Specification, sections 6, 6.1 and 7.2), and
    what the directory scan makes of them. The layout is stated by the order of the fields. */
module FatRecords {
  import opened Bytes
  import opened FatNames

  // ----- attributes -----

  /** The bits of DIR_Attr, lowest first. The last two have no meaning. */
  datatype Flags = Flags(readOnly: bool, hidden: bool, system: bool, volume: bool, directory: bool, archive: bool,
                         unused: bool, reserved: bool)

  function Bit(b: bool, value: nat): nat {
    if b then value else 0
  }

  function AttrByte(f: Flags): byte {
    Bit(f.readOnly, 0x01) + Bit(f.hidden, 0x02) + Bit(f.system, 0x04) + Bit(f.volume, 0x08)
    + Bit(f.directory, 0x10) + Bit(f.archive, 0x20) + Bit(f.unused, 0x40) + Bit(f.reserved, 0x80)
  }

  /** The mark of a long-name record. */
  predicate LongMark(f: Flags) {
    f.readOnly && f.hidden && f.system && f.volume
  }

  /** The records that are listed: neither long-name records nor volume labels. */
  predicate Lists(f: Flags) {
    !LongMark(f) && (f.volume ==> f.directory)
  }

  lemma FlagsRead(r: Record, f: Flags)
    requires r[11] == AttrByte(f)
    ensures IsLong(r) <==> LongMark(f)
    ensures IsDirectory(r) <==> f.directory
    ensures IsLabel(r) <==> f.volume && !f.directory
  {
    var low := Bit(f.readOnly, 1) + Bit(f.hidden, 2) + Bit(f.system, 4) + Bit(f.volume, 8);
    var high := Bit(f.directory, 1) + 2 * (Bit(f.archive, 1) + Bit(f.unused, 2) + Bit(f.reserved, 4));
    assert r[11] == 16 * high + low;
    Nibbles(r[11], high, low);
    assert low / 8 == Bit(f.volume, 1) && high % 2 == Bit(f.directory, 1);
  }

  lemma Nibbles(b: byte, high: nat, low: nat)
    requires low < 16 && b == 16 * high + low
    ensures b % 16 == low && b / 16 == high && b / 8 % 2 == low / 8
  {
  }

  /** Which records a call stops at, by their bytes: a record that is not deleted and whose attributes are
      neither those of a long-name record nor those of a label. A zero first byte ends the directory. */
  lemma StopsExactly(recs: seq<Record>, i: nat, l: Lfn, f: Flags)
    requires |l.parts| == MAX_PARTS && i < |recs| && recs[i][11] == AttrByte(f)
    ensures recs[i][0] == 0x00 ==> ScanFrom(recs, i, l) == Miss(true)
    ensures recs[i][0] != 0x00 ==>
              (ScanFrom(recs, i, l).Hit? && ScanFrom(recs, i, l).next == i + 1 <==> recs[i][0] != 0xE5 && Lists(f))
  {
    FlagsRead(recs[i], f);
    ScanAdvances(recs, i + 1, Skip(l, recs[i]));
  }

  /** A deleted record changes nothing; a label forgets what long name there was. */
  lemma GoesOn(recs: seq<Record>, i: nat, l: Lfn, f: Flags)
    requires |l.parts| == MAX_PARTS && i < |recs| && recs[i][0] != 0x00
    ensures recs[i][0] == 0xE5 ==> ScanFrom(recs, i, l) == ScanFrom(recs, i + 1, l)
    ensures recs[i][0] != 0xE5 && recs[i][11] == AttrByte(f) && f.volume && !f.directory && !LongMark(f) ==>
              ScanFrom(recs, i, l) == ScanFrom(recs, i + 1, l.(found := 0, sum := 0))
  {
    if recs[i][11] == AttrByte(f) {
      FlagsRead(recs[i], f);
    }
  }

  // ----- a short record -----

  /** `times` are the bytes between the attributes and the high word of the cluster, `written` those between
      it and the low word. */
  datatype ShortEntry = ShortEntry(base: seq<byte>, extension: seq<byte>, flags: Flags, times: seq<byte>,
                                   written: seq<byte>, cluster: u32, size: u32)

  predicate NameBytes(s: seq<byte>, n: nat) {
    |s| <= n && forall i :: 0 <= i < |s| ==> s[i] != 0x00 && s[i] != 0x20
  }

  /** A name of the 8.3 form; its first byte would mark a deleted record if it were 0xE5. */
  predicate Plain(e: ShortEntry) {
    && e.base != [] && e.base[0] != 0xE5 && NameBytes(e.base, 8) && NameBytes(e.extension, 3)
    && |e.times| == 8 && |e.written| == 4
  }

  function Padded(s: seq<byte>, n: nat): (r: seq<byte>)
    requires |s| <= n
    ensures |r| == n
  {
    s + seq(n - |s|, _ => 0x20)
  }

  function NameField(e: ShortEntry): (name: seq<byte>)
    requires Plain(e)
    ensures |name| == 11
  {
    Padded(e.base, 8) + Padded(e.extension, 3)
  }

  /** The 32 bytes of section 6. */
  function WriteShort(e: ShortEntry): Record
    requires Plain(e)
  {
    NameField(e) + [AttrByte(e.flags)] + e.times + Write16(e.cluster / 0x1_0000)
    + e.written + Write16(e.cluster % 0x1_0000) + Write32(e.size)
  }

  /** The name as a path gives it. */
  function DottedName(e: ShortEntry): seq<byte> {
    if e.extension == [] then e.base else e.base + [0x2E] + e.extension
  }

  /** What the entry says, under the name it is listed by. */
  function InfoWritten(e: ShortEntry, name: seq<byte>): FileInfo {
    FileInfo(name, e.cluster, e.size, AttrByte(e.flags), e.flags.directory)
  }

  lemma FieldsAt(e: ShortEntry)
    requires Plain(e)
    ensures var r := WriteShort(e);
            && r[..11] == NameField(e) && r[0] == e.base[0] && r[11] == AttrByte(e.flags)
            && r[20..22] == Write16(e.cluster / 0x1_0000) && r[26..28] == Write16(e.cluster % 0x1_0000)
            && r[28..32] == Write32(e.size)
  {
  }

  /** Cluster, size, attributes and the directory bit of a written record are those that were written. */
  lemma FieldsRead(e: ShortEntry, name: seq<byte>)
    requires Plain(e)
    ensures Named(name, WriteShort(e)) == InfoWritten(e, name)
  {
    var r := WriteShort(e);
    FieldsAt(e);
    HalfAt(r, 20, e.cluster / 0x1_0000);
    HalfAt(r, 26, e.cluster % 0x1_0000);
    WordAt(r, 28, e.size);
    FlagsRead(r, e.flags);
  }

  lemma {:induction false} BlanksEnd(s: seq<byte>, n: nat)
    requires NameBytes(s, n)
    ensures BeforeSpace(Padded(s, n)) == s
    decreases |s|
  {
    var p := Padded(s, n);
    if s != [] {
      assert NameBytes(s[1..], n - 1);
      assert p[1..] == Padded(s[1..], n - 1);
      BlanksEnd(s[1..], n - 1);
    }
  }

  lemma {:induction false} NoNulWhole(s: seq<byte>)
    requires 0 !in s
    ensures CString(s) == s
  {
    if s != [] {
      assert s[0] in s;
      NoNulWhole(s[1..]);
    }
  }

  /** The 8.3 name of a written record: base, dot, extension, or the base alone. */
  lemma ShortNameRead(e: ShortEntry)
    requires Plain(e)
    ensures ShortName(NameField(e)) == DottedName(e)
  {
    BlanksEnd(e.base, 8);
    BlanksEnd(e.extension, 3);
    NameHalves(NameField(e), e.base, e.extension);
    NameOf(NameField(e), e.base, e.extension);
  }

  lemma NameOf(name: seq<byte>, base: seq<byte>, extension: seq<byte>)
    requires |name| == 11 && BeforeSpace(name[..8]) == base && BeforeSpace(name[8..]) == extension
    requires 0 !in base && 0 !in extension && (name[8] == 0x20 <==> extension == [])
    ensures ShortName(name) == if extension == [] then base else base + [0x2E] + extension
  {
    var chars := if extension == [] then base else base + [0x2E] + extension;
    assert ShortChars(name) == chars;
    NoNulWhole(chars);
  }

  lemma NameHalves(name: seq<byte>, base: seq<byte>, extension: seq<byte>)
    requires NameBytes(base, 8) && NameBytes(extension, 3) && name == Padded(base, 8) + Padded(extension, 3)
    ensures name[..8] == Padded(base, 8) && name[8..] == Padded(extension, 3)
    ensures name[8] == 0x20 <==> extension == []
  {
    assert name[8] == Padded(extension, 3)[0];
  }

  /** A written record that lists, with no long name pending, is reported with exactly what was written. */
  lemma PlainScanned(recs: seq<Record>, i: nat, l: Lfn, e: ShortEntry)
    requires Plain(e) && Lists(e.flags) && i < |recs| && recs[i] == WriteShort(e)
    requires |l.parts| == MAX_PARTS && l.sum == 0
    ensures ScanFrom(recs, i, l) == Hit(InfoWritten(e, DottedName(e)), i + 1)
  {
    FieldsAt(e);
    FlagsRead(recs[i], e.flags);
    ShortNameRead(e);
    FieldsRead(e, DottedName(e));
  }

  // ----- the checksum -----

  /** The sum of section 7.2, over the bytes written so far: 0 to start with, then a rotation to the right and
      the next byte, in eight bits. */
  function SectionSum(name: seq<byte>): byte {
    if name == [] then 0 else
      var sum := SectionSum(name[..|name| - 1]);
      (sum % 2 * 0x80 + sum / 2 + name[|name| - 1]) % 0x100
  }

  lemma Rotation(s: bv8)
    ensures s.RotateRight(1) as int == (s as int) % 2 * 0x80 + (s as int) / 2
  {
    assert s == s / 2 * 2 + s % 2;
  }

  lemma {:induction false} SumGoesOn(sum: byte, name: seq<byte>)
    requires name != []
    ensures ChecksumFrom(sum, name) == Rotate(ChecksumFrom(sum, name[..|name| - 1]), name[|name| - 1])
    decreases |name|
  {
    if |name| > 1 {
      SumGoesOn(Rotate(sum, name[0]), name[1..]);
      assert name[1..][..|name| - 2] == name[..|name| - 1][1..];
    } else {
      assert name[1..] == [];
    }
  }

  lemma {:induction false} SumFromZero(name: seq<byte>)
    ensures ChecksumFrom(0, name) == SectionSum(name)
    decreases |name|
  {
    if name != [] {
      var rest, last := name[..|name| - 1], name[|name| - 1];
      SumFromZero(rest);
      SumGoesOn(0, name);
      SumStep(name, rest, last);
    }
  }

  lemma SumStep(name: seq<byte>, rest: seq<byte>, last: byte)
    requires name != [] && rest == name[..|name| - 1] && last == name[|name| - 1]
    ensures SectionSum(name) == Rotate(SectionSum(rest), last)
  {
  }

  /** What the scan compares is that sum. */
  lemma SumIsSection(name: seq<byte>)
    ensures Checksum(name) == SectionSum(name)
  {
    SumFromZero(name);
  }
}

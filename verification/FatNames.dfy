/** Directory records and the names they give files (src/driver/fs/FAT32.c: fat_sfn_to_string,
    fat_sfn_checksum, fat_lfn_to_utf8 and the name assembly of fat_read_next_dir_entry; Microsoft FAT
    Specification, sections 6 and 7). Strings are C strings: byte sequences without the final NUL. */
module FatNames {
  import opened Bytes

  type Record = r: seq<byte> | |r| == 32 witness seq(32, _ => 0)

  const SPACE: byte := 0x20
  const DOT: byte := 0x2E
  const QUESTION: byte := 0x3F
  const MAX_NAME: nat := 255
  const MAX_PARTS: nat := 20

  // ----- kinds of record -----

  predicate IsEnd(r: Record) { r[0] == 0x00 }

  predicate IsDeleted(r: Record) { r[0] == 0xE5 }

  /** All four attribute bits of a long-name record. */
  predicate IsLong(r: Record) { r[11] % 16 == 0x0F }

  predicate IsDirectory(r: Record) { r[11] / 16 % 2 == 1 }

  predicate IsLabel(r: Record) { r[11] / 8 % 2 == 1 && !IsDirectory(r) }

  /** A record that names a file or directory. */
  predicate IsShort(r: Record) {
    !IsEnd(r) && !IsDeleted(r) && !IsLong(r) && !IsLabel(r)
  }

  // ----- short names -----

  /** The bytes before the first space. */
  function BeforeSpace(s: seq<byte>): (r: seq<byte>)
    ensures |r| <= |s| && r == s[..|r|] && SPACE !in r && (|r| < |s| ==> s[|r|] == SPACE)
  {
    if s == [] || s[0] == SPACE then [] else [s[0]] + BeforeSpace(s[1..])
  }

  /** The string a C reader sees in a buffer: the bytes before the first NUL. */
  function CString(s: seq<byte>): (r: seq<byte>)
    ensures |r| <= |s| && r == s[..|r|] && 0 !in r && (|r| < |s| ==> s[|r|] == 0)
  {
    if s == [] || s[0] == 0 then [] else [s[0]] + CString(s[1..])
  }

  /** The characters fat_sfn_to_string writes for the eleven name bytes. */
  function ShortChars(name: seq<byte>): seq<byte>
    requires |name| == 11
  {
    BeforeSpace(name[..8]) + if name[8] == SPACE then [] else [DOT] + BeforeSpace(name[8..])
  }

  function ShortName(name: seq<byte>): seq<byte>
    requires |name| == 11
  {
    CString(ShortChars(name))
  }

  /** One step of the checksum: rotate right, add. */
  function Rotate(sum: byte, b: byte): byte {
    (sum % 2 * 0x80 + sum / 2 + b) % 0x100
  }

  function ChecksumFrom(sum: byte, name: seq<byte>): byte
    decreases |name|
  {
    if name == [] then sum else ChecksumFrom(Rotate(sum, name[0]), name[1..])
  }

  /** The checksum that ties long-name records to their short record (section 7.2). */
  function Checksum(name: seq<byte>): byte {
    ChecksumFrom(0, name)
  }

  // ----- long names -----

  /** n UTF-16 units of a record, from byte o on. */
  function Units(r: Record, o: nat, n: nat): (u: seq<u16>)
    requires o + 2 * n <= 32
    ensures |u| == n && forall i :: 0 <= i < n ==> u[i] == Le16(r, o + 2 * i)
  {
    seq(n, i requires 0 <= i < n => Le16(r, o + 2 * i))
  }

  function Narrow(u: u16): byte {
    if u < 0x80 then u else QUESTION
  }

  predicate Stops(u: u16) {
    u == 0 || u == 0xFFFF
  }

  /** fat_lfn_to_utf8: characters up to the terminator or padding, '?' for what is not ASCII. */
  function LongChars(units: seq<u16>): (s: seq<byte>)
    ensures |s| <= |units| && 0 !in s
  {
    if units == [] || Stops(units[0]) then [] else [Narrow(units[0])] + LongChars(units[1..])
  }

  /** The three runs of characters of a long-name record, one behind the other. */
  function PartName(r: Record): (s: seq<byte>)
    ensures |s| <= 13 && 0 !in s
  {
    LongChars(Units(r, 1, 5)) + LongChars(Units(r, 14, 6)) + LongChars(Units(r, 28, 2))
  }

  /** What the scan remembers of a long name: the part buffers, lfn_parts_found and lfn_checksum. */
  datatype Lfn = Lfn(parts: seq<seq<byte>>, found: nat, sum: byte)

  function NoParts(): (p: seq<seq<byte>>)
    ensures |p| == MAX_PARTS && forall i :: 0 <= i < MAX_PARTS ==> p[i] == []
  {
    seq(MAX_PARTS, _ => [])
  }

  function NoLfn(): Lfn {
    Lfn(NoParts(), 0, 0)
  }

  predicate IsLast(r: Record) { r[0] / 0x40 % 2 == 1 }

  /** The record's number with the last-record flag taken off. */
  function Number(r: Record): nat {
    if IsLast(r) then r[0] - 0x40 else r[0]
  }

  function Forget(l: Lfn): Lfn {
    l.(found := 0, sum := 0)
  }

  /** A long-name record. */
  function LfnStep(l: Lfn, r: Record): Lfn
    requires |l.parts| == MAX_PARTS
  {
    var k := Number(r);
    if k == 0 || k > MAX_PARTS || (!IsLast(r) && l.sum == 0) then
      Forget(l)
    else
      Lfn(l.parts[k - 1 := PartName(r)], (l.found + 1) % 0x100, if IsLast(r) then r[13] else l.sum)
  }

  function Cut(s: seq<byte>): (r: seq<byte>)
    ensures |r| <= MAX_NAME && r == s[..Min(|s|, MAX_NAME)]
  {
    s[..Min(|s|, MAX_NAME)]
  }

  /** The strncat loop over the first n part buffers: never more than 255 characters. */
  function Joined(parts: seq<seq<byte>>, n: nat): (s: seq<byte>)
    requires n <= |parts|
    ensures |s| <= MAX_NAME
  {
    if n == 0 then [] else Cut(Joined(parts, n - 1) + parts[n - 1])
  }

  /** fat_file_info_t */
  datatype FileInfo = FileInfo(name: seq<byte>, cluster: u32, size: u32, attributes: byte, isDirectory: bool)

  /** The long name, if one has been collected and its checksum is that of the short name. */
  function NameFor(l: Lfn, r: Record): seq<byte>
    requires |l.parts| == MAX_PARTS
  {
    if l.sum != 0 && Checksum(r[..11]) == l.sum then Joined(l.parts, Min(l.found, MAX_PARTS)) else ShortName(r[..11])
  }

  function FirstCluster(r: Record): u32 {
    Le16(r, 20) * TWO16 + Le16(r, 26)
  }

  function InfoFor(l: Lfn, r: Record): FileInfo
    requires |l.parts| == MAX_PARTS
  {
    Named(NameFor(l, r), r)
  }

  function Named(name: seq<byte>, r: Record): FileInfo {
    FileInfo(name, FirstCluster(r), Le32(r, 28), r[11], IsDirectory(r))
  }

  // ----- scanning a directory -----

  /** What a skipped record does to a pending long name. */
  function Skip(l: Lfn, r: Record): Lfn
    requires |l.parts| == MAX_PARTS
  {
    if IsDeleted(r) then l else if IsLong(r) then LfnStep(l, r) else Forget(l)
  }

  datatype Scan = Hit(info: FileInfo, next: nat) | Miss(err: bool)

  /** One call of fat_read_next_dir_entry on the flat list of records: from record i on, to the next short
      record that is no label. A miss says whether the end marker was found (true) or the records ran out
      (false). */
  function ScanFrom(recs: seq<Record>, i: nat, l: Lfn): Scan
    requires |l.parts| == MAX_PARTS
    decreases |recs| - i
  {
    if i >= |recs| then Miss(false)
    else if IsEnd(recs[i]) then Miss(true)
    else if IsShort(recs[i]) then Hit(InfoFor(l, recs[i]), i + 1)
    else ScanFrom(recs, i + 1, Skip(l, recs[i]))
  }

  lemma {:induction false} ScanAdvances(recs: seq<Record>, i: nat, l: Lfn)
    requires |l.parts| == MAX_PARTS
    ensures ScanFrom(recs, i, l).Hit? ==> i < ScanFrom(recs, i, l).next <= |recs|
    decreases |recs| - i
  {
    if i < |recs| && !IsEnd(recs[i]) && !IsShort(recs[i]) {
      ScanAdvances(recs, i + 1, Skip(l, recs[i]));
    }
  }

  /** All calls from record i on, each starting afresh. */
  function ListFrom(recs: seq<Record>, i: nat): seq<FileInfo>
    decreases |recs| - i
  {
    ScanAdvances(recs, i, NoLfn());
    match ScanFrom(recs, i, NoLfn())
    case Hit(info, next) => [info] + ListFrom(recs, next)
    case Miss(_) => []
  }
}

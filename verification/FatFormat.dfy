/** The master boot record, the boot sector and the allocation table written byte by byte (Microsoft FAT
    Specification, sections 3 and 4; the classic partition table), and what mounting reads in them. The layout
    is stated by the order of the fields. */
module FatFormat {
  import opened Bytes
  import opened Disk
  import opened FatVolume
  import opened FatGeometry
  import opened FatTable
  import opened FatMount

  // ----- the partition table -----

  datatype Partition = Partition(status: byte, first: seq<byte>, kind: byte, last: seq<byte>, start: u32, total: u32)

  predicate Geometry(p: Partition) {
    |p.first| == 3 && |p.last| == 3
  }

  function WritePartition(p: Partition): (s: seq<byte>)
    requires Geometry(p)
    ensures |s| == 16
  {
    [p.status] + p.first + [p.kind] + p.last + Write32(p.start) + Write32(p.total)
  }

  /** 446 bytes of code, four partitions, the signature. */
  function WriteMbr(code: seq<byte>, p0: Partition, p1: Partition, p2: Partition, p3: Partition): Sector
    requires |code| == 446 && Geometry(p0) && Geometry(p1) && Geometry(p2) && Geometry(p3)
  {
    JoinMbr(code, WritePartition(p0), WritePartition(p1), WritePartition(p2), WritePartition(p3))
  }

  function JoinMbr(code: seq<byte>, a: seq<byte>, b: seq<byte>, c: seq<byte>, d: seq<byte>): (s: seq<byte>)
    requires |code| == 446 && |a| == |b| == |c| == |d| == 16
    ensures |s| == 512
  {
    code + a + b + c + d + [0x55, 0xAA]
  }

  lemma PartitionParts(s: seq<byte>, o: nat, p: Partition, first: seq<byte>, last: seq<byte>, start: seq<byte>,
                       total: seq<byte>)
    requires |first| == |last| == 3 && |start| == |total| == 4 && o + 16 <= |s|
    requires s[o..o + 16] == [p.status] + first + [p.kind] + last + start + total
    ensures s[o] == p.status && s[o + 4] == p.kind && s[o + 8..o + 12] == start && s[o + 12..o + 16] == total
  {
    var w := s[o..o + 16];
    assert w[0] == s[o] && w[4] == s[o + 4] && w[8..12] == start && w[12..16] == total;
    SubSlice(s, o, 16, 8, 12);
    SubSlice(s, o, 16, 12, 16);
  }

  /** What parseMBR looks at in a written entry. */
  lemma PartitionRead(s: seq<byte>, o: nat, p: Partition)
    requires Geometry(p) && o + 16 <= |s| && s[o..o + 16] == WritePartition(p)
    ensures s[o] == p.status && s[o + 4] == p.kind && Le32(s, o + 8) == p.start && Le32(s, o + 12) == p.total
  {
    PartitionParts(s, o, p, p.first, p.last, Write32(p.start), Write32(p.total));
    WordAt(s, o + 8, p.start);
    WordAt(s, o + 12, p.total);
  }

  lemma MbrParts(code: seq<byte>, a: seq<byte>, b: seq<byte>, c: seq<byte>, d: seq<byte>, end: seq<byte>, s: seq<byte>)
    requires |code| == 446 && |a| == |b| == |c| == |d| == 16 && |end| == 2 && s == code + a + b + c + d + end
    ensures var t := s[446..512];
            |t| == 66 && t[0..16] == a && t[16..32] == b && t[32..48] == c && t[48..64] == d && t[64..66] == end
  {
    assert s[446..462] == a && s[462..478] == b && s[478..494] == c && s[494..510] == d && s[510..512] == end;
    SubSlice(s, 446, 66, 0, 16);
    SubSlice(s, 446, 66, 16, 32);
    SubSlice(s, 446, 66, 32, 48);
    SubSlice(s, 446, 66, 48, 64);
    SubSlice(s, 446, 66, 64, 66);
  }

  /** An active FAT32 partition: the highest bit of the status, type 0x0B or 0x0C. */
  predicate Active(p: Partition) {
    p.status / 0x80 == 1 && (p.kind == 0x0B || p.kind == 0x0C)
  }

  predicate FourPartitions(ps: seq<Partition>) {
    |ps| == 4 && Geometry(ps[0]) && Geometry(ps[1]) && Geometry(ps[2]) && Geometry(ps[3])
  }

  /** The card's first sector is such a record. */
  ghost predicate HasMbr(card: Card, code: seq<byte>, ps: seq<Partition>) {
    && |card.sectors| > 0 && |code| == 446 && FourPartitions(ps)
    && card.sectors[0] == WriteMbr(code, ps[0], ps[1], ps[2], ps[3])
  }

  ghost predicate EntryIs(mbr: seq<byte>, k: nat, p: Partition)
    requires |mbr| == 66 && k < 4
  {
    && (Bootable(mbr, k) <==> Active(p))
    && Le32(mbr, 16 * k + 8) == p.start && Le32(mbr, 16 * k + 12) == p.total
  }

  lemma EntryWritten(mbr: seq<byte>, k: nat, p: Partition)
    requires |mbr| == 66 && k < 4 && Geometry(p) && mbr[16 * k..16 * k + 16] == WritePartition(p)
    ensures EntryIs(mbr, k, p)
  {
    PartitionRead(mbr, 16 * k, p);
  }

  lemma EntriesWritten(card: Card, code: seq<byte>, ps: seq<Partition>)
    requires HasMbr(card, code, ps)
    ensures var mbr := PartitionTable(card);
            && EntryIs(mbr, 0, ps[0]) && EntryIs(mbr, 1, ps[1]) && EntryIs(mbr, 2, ps[2]) && EntryIs(mbr, 3, ps[3])
            && mbr[64..66] == [0x55, 0xAA]
  {
    var mbr := PartitionTable(card);
    MbrParts(code, WritePartition(ps[0]), WritePartition(ps[1]), WritePartition(ps[2]), WritePartition(ps[3]),
             [0x55, 0xAA], card.sectors[0]);
    EntryWritten(mbr, 0, ps[0]);
    EntryWritten(mbr, 1, ps[1]);
    EntryWritten(mbr, 2, ps[2]);
    EntryWritten(mbr, 3, ps[3]);
  }

  /** The partition that is chosen from a written record is the first active one. */
  lemma MbrRead(card: Card, code: seq<byte>, ps: seq<Partition>, i: nat)
    requires HasMbr(card, code, ps) && i < 4
    ensures var mbr := PartitionTable(card);
            && Le32(mbr, 16 * i + 8) == ps[i].start && Le32(mbr, 16 * i + 12) == ps[i].total
            && (Chosen(mbr, i) <==> Active(ps[i]) && forall k :: 0 <= k < i ==> !Active(ps[k]))
  {
    var mbr := PartitionTable(card);
    EntriesWritten(card, code, ps);
    Signature(mbr);
    ChosenIs(mbr, ps, i);
  }

  lemma ChosenIs(mbr: seq<byte>, ps: seq<Partition>, i: nat)
    requires |mbr| == 66 && |ps| == 4 && Le16(mbr, 64) == 0xAA55 && i < 4
    requires EntryIs(mbr, 0, ps[0]) && EntryIs(mbr, 1, ps[1]) && EntryIs(mbr, 2, ps[2]) && EntryIs(mbr, 3, ps[3])
    ensures EntryIs(mbr, i, ps[i])
    ensures Chosen(mbr, i) <==> Active(ps[i]) && forall k :: 0 <= k < i ==> !Active(ps[k])
  {
    forall k | 0 <= k < 4 ensures Bootable(mbr, k) <==> Active(ps[k]) {
      assert k == 0 || k == 1 || k == 2 || k == 3;
    }
  }

  lemma Signature(mbr: seq<byte>)
    requires |mbr| == 66 && mbr[64..66] == [0x55, 0xAA]
    ensures Le16(mbr, 64) == 0xAA55
  {
    assert mbr[64] == mbr[64..66][0] && mbr[65] == mbr[64..66][1];
  }

  // ----- the boot sector -----

  /** The fields that the reader uses, and what lies between them. */
  datatype Boot = Boot(
    jump: seq<byte>, bytesPerSector: u16, sectorsPerCluster: byte, reserved: u16, numFats: byte,
    legacy: seq<byte>, fatSize: u32, modes: seq<byte>, root: u32, rest: seq<byte>)

  /** Jump and name take eleven bytes; from the root entry count to the 32-bit sector count there are
      nineteen, flags and version take four. */
  predicate Shape(b: Boot) {
    |b.jump| == 11 && |b.legacy| == 19 && |b.modes| == 4 && |b.rest| == 464
  }

  function WriteBoot(b: Boot): Sector
    requires Shape(b)
  {
    b.jump + Write16(b.bytesPerSector) + [b.sectorsPerCluster] + Write16(b.reserved) + [b.numFats] + b.legacy
    + Write32(b.fatSize) + b.modes + Write32(b.root) + b.rest
  }

  lemma BootParts(s: seq<byte>, jump: seq<byte>, bps: seq<byte>, spc: byte, reserved: seq<byte>, numFats: byte,
                  legacy: seq<byte>, fatSize: seq<byte>, modes: seq<byte>, root: seq<byte>, rest: seq<byte>)
    requires |jump| == 11 && |bps| == |reserved| == 2 && |legacy| == 19 && |fatSize| == |modes| == |root| == 4
    requires |rest| == 464 && s == jump + bps + [spc] + reserved + [numFats] + legacy + fatSize + modes + root + rest
    ensures |s| == 512
    ensures var t := s[11..52];
            && t[0..2] == bps && t[2] == spc && t[3..5] == reserved && t[5] == numFats
            && t[25..29] == fatSize && t[33..37] == root
  {
    assert s[11..13] == bps && s[13] == spc && s[14..16] == reserved && s[16] == numFats;
    assert s[36..40] == fatSize && s[44..48] == root;
    SubSlice(s, 11, 41, 0, 2);
    SubSlice(s, 11, 41, 3, 5);
    SubSlice(s, 11, 41, 25, 29);
    SubSlice(s, 11, 41, 33, 37);
  }

  lemma BootFields(b: Boot, t: seq<byte>)
    requires Shape(b) && t == WriteBoot(b)[11..52]
    ensures Le16(t, 0) == b.bytesPerSector && t[2] == b.sectorsPerCluster && Le16(t, 3) == b.reserved
    ensures t[5] == b.numFats && Le32(t, 25) == b.fatSize && Le32(t, 33) == b.root
  {
    BootParts(WriteBoot(b), b.jump, Write16(b.bytesPerSector), b.sectorsPerCluster, Write16(b.reserved), b.numFats,
              b.legacy, Write32(b.fatSize), b.modes, Write32(b.root), b.rest);
    HalfAt(t, 0, b.bytesPerSector);
    HalfAt(t, 3, b.reserved);
    WordAt(t, 25, b.fatSize);
    WordAt(t, 33, b.root);
  }

  /** The numbers of a boot sector that make sense for a partition on a card: 512-byte sectors, tables and
      clusters that fit it, and tables with an entry for every cluster. */
  predicate Sensible(b: Boot, start: u32, total: u32, sectors: nat) {
    && b.bytesPerSector == 512 && b.sectorsPerCluster >= 1 && b.numFats >= 1
    && var meta := b.reserved + b.numFats * b.fatSize;
       && meta < total && start + total <= sectors <= 0x1_0000_0000
       && 4 * ((total - meta) / b.sectorsPerCluster + 2) <= 512 * b.fatSize
       && (total - meta) / b.sectorsPerCluster + 2 <= 0x0FFF_FFF7
  }

  /** The volume read from a written boot sector: its tables begin behind the reserved sectors, its clusters
      behind the tables, and they are as many as fit into the rest of the partition. */
  lemma BootRead(card: Card, b: Boot, start: u32, total: u32)
    requires Shape(b) && start < |card.sectors| && card.sectors[start] == WriteBoot(b)
    requires Sensible(b, start, total, |card.sectors|)
    ensures GoodBpb(BootData(card, start), start, total, |card.sectors|)
    ensures var v := ParseBpb(BootData(card, start), start, total);
            && v.startLba == start && v.totalSectors == total && v.root == b.root
            && v.bytesPerSector == 512 && v.sectorsPerCluster == b.sectorsPerCluster
            && v.bytesPerCluster == 512 * b.sectorsPerCluster
            && v.firstFat == start + b.reserved
            && v.dataStart == start + b.reserved + b.numFats * b.fatSize
            && v.totalClusters == (total - (b.reserved + b.numFats * b.fatSize)) / b.sectorsPerCluster
  {
    var t := BootData(card, start);
    BootFields(b, t);
    RowsIsProduct(b.numFats, b.fatSize);
    LayoutNumbers(b.sectorsPerCluster, b.reserved, b.numFats, b.fatSize, b.root, start, total,
                  b.reserved + b.numFats * b.fatSize);
  }

  /** Mounting a card whose partition table and boot sector were so written gives that volume. */
  lemma VolumeAsWritten(card: Card, code: seq<byte>, ps: seq<Partition>, i: nat, b: Boot)
    requires HasMbr(card, code, ps) && i < 4
    requires Shape(b) && ps[i].start < |card.sectors| && card.sectors[ps[i].start] == WriteBoot(b)
    requires Sensible(b, ps[i].start, ps[i].total, |card.sectors|)
    ensures GoodPartition(card, i)
    ensures var v := VolumeOf(card, i);
            && v.startLba == ps[i].start && v.root == b.root && v.sectorsPerCluster == b.sectorsPerCluster
            && v.firstFat == ps[i].start + b.reserved
            && v.dataStart == ps[i].start + b.reserved + b.numFats * b.fatSize
  {
    MbrRead(card, code, ps, i);
    BootRead(card, b, ps[i].start, ps[i].total);
  }

  // ----- the allocation table -----

  /** An entry written in four bytes, with four bits that mean nothing on top: what is read is the lower 28
      bits. */
  lemma EntryRead(card: Card, v: Volume, c: nat, e: nat, top: nat)
    requires FatFits(card, v) && e < 0x1000_0000 && top < 16 && 4 * c + 4 <= |FatBytes(card, v)|
    requires FatBytes(card, v)[4 * c..4 * c + 4] == Write32(0x1000_0000 * top + e)
    ensures Entry(card, v, c) == e
  {
    WordAt(FatBytes(card, v), 4 * c, 0x1000_0000 * top + e);
    assert (0x1000_0000 * top + e) % 0x1000_0000 == e;
  }

  /** What an entry means: a chain ends from 0x0FFFFFF8 on, 0x0FFFFFF7 is a bad cluster, 0 a free one. */
  lemma FollowRead(e: nat)
    requires e < 0x1000_0000
    ensures Follow(e) == if 0x0FFF_FFF8 <= e then (EndOfChain, 0)
                         else if e == 0x0FFF_FFF7 then (BadClusterMarker, 0)
                         else if e == 0x0000_0000 then (InvalidCluster, 0)
                         else (Success, e)
  {
  }
}

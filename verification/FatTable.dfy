/** Mounting a volume and following its allocation table (src/driver/fs/FAT32.c: parseMBR, parseBPB,
    getNextCluster). */
module FatTable {
  import opened Bytes
  import opened Disk
  import opened FatVolume
  import opened FatGeometry

  /** getNextCluster: exactly what the table's entry says, unless the read fails. */
  method GetNextCluster(card: Card, v: Volume, c: u32) returns (err: FatError, next: u32)
    requires Consistent(v, card)
    ensures !InRange(v, c) ==> err == InvalidCluster
    ensures InRange(v, c) ==>
              FatFits(card, v) && (err == ReadFail || (err, next) == Follow(Entry(card, v, c)))
    ensures InRange(v, c) && card.reliable ==> err != ReadFail
  {
    next := 0;
    if c < 2 || c >= v.totalClusters + 2 {
      return InvalidCluster, 0;
    }
    var entryOffset := c * 4;
    var lba := v.firstFat + entryOffset / v.bytesPerSector;
    var offset := entryOffset % v.bytesPerSector;
    EntryBytes(v, card, c);
    var buffer := new byte[4];
    var ok := card.ReadPartial(lba, offset, buffer, 0, 4);
    if !ok {
      return ReadFail, 0;
    }
    assert buffer[..] == card.sectors[lba][offset..offset + 4];
    Le32OfSlice(card.sectors[lba], offset);
    var value := Le32(buffer[..], 0) % 0x1000_0000;
    if EOC <= value {
      return EndOfChain, 0;
    } else if value == BAD_CLUSTER {
      return BadClusterMarker, 0;
    } else if value == 0 {
      return InvalidCluster, 0;
    } else {
      return Success, value;
    }
  }

  // ----- mounting -----

  /** Partition entry i of the 66 bytes read from the end of the master boot record is an active FAT32
      partition. */
  predicate Bootable(mbr: seq<byte>, i: nat)
    requires |mbr| == 66 && i < 4
  {
    mbr[16 * i] >= 0x80 && (mbr[16 * i + 4] == 0x0B || mbr[16 * i + 4] == 0x0C)
  }

  /** The entry parseMBR chooses: the first such entry, if the signature is right. */
  predicate Chosen(mbr: seq<byte>, i: nat)
    requires |mbr| == 66
  {
    i < 4 && Le16(mbr, 64) == 0xAA55 && Bootable(mbr, i) && forall k :: 0 <= k < i ==> !Bootable(mbr, k)
  }

  /** parseMBR on those bytes. */
  method ParseMbr(mbr: seq<byte>) returns (found: bool, start: u32, total: u32, ghost entry: nat)
    requires |mbr| == 66
    ensures found ==> Chosen(mbr, entry) && start == Le32(mbr, 16 * entry + 8) && total == Le32(mbr, 16 * entry + 12)
    ensures !found ==> forall i :: 0 <= i < 4 ==> !Chosen(mbr, i)
  {
    if Le16(mbr, 64) != 0xAA55 {
      return false, 0, 0, 0;
    }
    var i := 0;
    while i < 4
      invariant i <= 4 && forall k :: 0 <= k < i ==> !Bootable(mbr, k)
    {
      if Bootable(mbr, i) {
        return true, Le32(mbr, 16 * i + 8), Le32(mbr, 16 * i + 12), i;
      }
      i := i + 1;
    }
    return false, 0, 0, 0;
  }

  /** parseBPB on the 41 bytes from offset 11 of the volume's first sector, for a partition that starts at
      `start` and has `total` sectors. A zero cluster size (a division by zero) is left to the caller. */
  function ParseBpb(bpb: seq<byte>, start: u32, total: u32): Volume
    requires |bpb| == 41 && bpb[2] != 0
  {
    Layout(Le16(bpb, 0), bpb[2], Le16(bpb, 3), bpb[5], Le32(bpb, 25), Le32(bpb, 33), start, total)
  }

  /** The layout it computes. All sums, differences and products are 32-bit. */
  function Layout(bps: u16, spc: u8, reserved: u16, numFats: u8, fatSize: u32, root: u32, start: u32, total: u32)
    : Volume
    requires spc != 0
  {
    var tables := Wrap(numFats * fatSize);
    var firstFat := Wrap(start + reserved);
    Volume(start, bps, spc, reserved, numFats, fatSize, root, total,
           Wrap(total - Wrap(reserved + tables)) / spc, firstFat, Wrap(firstFat + tables), Wrap(spc * bps))
  }

  function Wrap(n: int): u32 {
    n % TWO32
  }

  lemma NoWrap(n: int)
    requires 0 <= n < TWO32
    ensures Wrap(n) == n
  {
  }

  /** Numbers that make sense give a consistent volume: the sums do not wrap, the tables and clusters fit
      the partition, the partition fits the card, and the table has an entry for every cluster. */
  lemma LayoutConsistent(spc: u8, reserved: u16, numFats: u8, fatSize: u32, root: u32, start: u32, total: u32,
                         meta: nat, card: Card)
    requires spc >= 1 && numFats >= 1 && meta == reserved + Rows(numFats, fatSize)
    requires meta < total && start + total <= |card.sectors| <= TWO32
    requires 4 * ((total - meta) / spc + 2) <= SECTOR * fatSize && (total - meta) / spc + 2 <= BAD_CLUSTER
    ensures Consistent(Layout(SECTOR, spc, reserved, numFats, fatSize, root, start, total), card)
  {
    RowsIsProduct(numFats, fatSize);
    var clusters := (total - meta) / spc;
    RowsIsProduct(clusters, spc);
    DivideRows(total - meta, spc);
    LayoutNumbers(spc, reserved, numFats, fatSize, root, start, total, meta);
  }

  lemma LayoutNumbers(spc: u8, reserved: u16, numFats: u8, fatSize: u32, root: u32, start: u32, total: u32, meta: nat)
    requires spc >= 1 && meta <= total && start + meta < TWO32 && meta >= reserved
    requires numFats * fatSize == meta - reserved
    ensures var v := Layout(SECTOR, spc, reserved, numFats, fatSize, root, start, total);
            && v.firstFat == start + reserved && v.dataStart == start + meta
            && v.totalClusters == (total - meta) / spc
            && v.bytesPerCluster == SECTOR * spc
  {
    NoWrap(meta - reserved);
    NoWrap(start + reserved);
    NoWrap(start + meta);
    NoWrap(meta);
    NoWrap(total - meta);
    NoWrap(spc * SECTOR);
  }

  /** The boot sector's numbers make sense, for a partition on a card of so many sectors. */
  predicate GoodBpb(bpb: seq<byte>, start: u32, total: u32, sectors: nat)
    requires |bpb| == 41
  {
    && Le16(bpb, 0) == SECTOR && bpb[2] >= 1 && bpb[5] >= 1
    && var meta := Le16(bpb, 3) + Rows(bpb[5], Le32(bpb, 25));
       && meta < total && start + total <= sectors <= TWO32
       && 4 * ((total - meta) / bpb[2] + 2) <= SECTOR * Le32(bpb, 25)
       && (total - meta) / bpb[2] + 2 <= BAD_CLUSTER
  }

  /** The same for the boot sector's bytes (Microsoft FAT Specification, section 3). */
  lemma BpbConsistent(bpb: seq<byte>, start: u32, total: u32, card: Card)
    requires |bpb| == 41 && GoodBpb(bpb, start, total, |card.sectors|)
    ensures Consistent(ParseBpb(bpb, start, total), card)
    ensures ParseBpb(bpb, start, total).root == Le32(bpb, 33)
  {
    LayoutConsistent(bpb[2], Le16(bpb, 3), bpb[5], Le32(bpb, 25), Le32(bpb, 33), start, total,
                     Le16(bpb, 3) + Rows(bpb[5], Le32(bpb, 25)), card);
  }

  lemma DivideRows(n: nat, k: nat)
    requires k > 0
    ensures n / k * k <= n
  {
  }
}

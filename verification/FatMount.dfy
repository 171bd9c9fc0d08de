/** Mounting and opening (src/driver/fs/FAT32.c: fat32_init, parseMBR, parseBPB, fat32_open). */
module FatMount {
  import opened Bytes
  import opened Disk
  import opened FatVolume
  import opened FatTable
  import opened FatHandle
  import opened FatFile
  import opened FatNames
  import opened FatPath

  // ----- what a card must hold -----

  /** The end of the master boot record: four partition entries and the signature. */
  function PartitionTable(card: Card): (mbr: seq<byte>)
    requires |card.sectors| > 0
    ensures |mbr| == 66
  {
    card.sectors[0][446..512]
  }

  /** The part of a volume's first sector that parseBPB reads. */
  function BootData(card: Card, start: nat): (bpb: seq<byte>)
    requires start < |card.sectors|
    ensures |bpb| == 41
  {
    card.sectors[start][11..52]
  }

  /** Partition i has a boot sector whose numbers make sense (Microsoft FAT Specification, section 3). */
  predicate GoodPartition(card: Card, i: nat)
    requires |card.sectors| > 0 && i < 4
  {
    var start, total := Le32(PartitionTable(card), 16 * i + 8), Le32(PartitionTable(card), 16 * i + 12);
    start < |card.sectors| && GoodBpb(BootData(card, start), start, total, |card.sectors|)
  }

  predicate Formatted(card: Card) {
    && |card.sectors| > 0
    && forall i :: 0 <= i < 4 && Chosen(PartitionTable(card), i) ==> GoodPartition(card, i)
  }

  /** The volume in partition i. */
  function VolumeOf(card: Card, i: nat): Volume
    requires |card.sectors| > 0 && i < 4 && GoodPartition(card, i)
  {
    var start := Le32(PartitionTable(card), 16 * i + 8);
    ParseBpb(BootData(card, start), start, Le32(PartitionTable(card), 16 * i + 12))
  }

  /** A volume with the start and the size of partition i, and all else as it was. */
  function Moved(v: Volume, card: Card, i: nat): Volume
    requires |card.sectors| > 0 && i < 4
  {
    v.(startLba := Le32(PartitionTable(card), 16 * i + 8), totalSectors := Le32(PartitionTable(card), 16 * i + 12))
  }

  // ----- mounting -----

  /** parseMBR */
  method FindPartition(card: Card) returns (ok: bool, start: u32, total: u32, ghost i: nat)
    requires |card.sectors| > 0
    ensures ok ==> Chosen(PartitionTable(card), i) && start == Le32(PartitionTable(card), 16 * i + 8)
                   && total == Le32(PartitionTable(card), 16 * i + 12)
    ensures !ok && card.reliable ==> forall k :: 0 <= k < 4 ==> !Chosen(PartitionTable(card), k)
  {
    start, total, i := 0, 0, 0;
    var buffer := new byte[66];
    ok := card.ReadPartial(0, 446, buffer, 0, 66);
    if ok {
      assert buffer[..] == PartitionTable(card);
      ok, start, total, i := ParseMbr(buffer[..]);
    }
  }

  /** parseBPB */
  method ReadVolume(card: Card, start: u32, total: u32) returns (ok: bool, v: Volume)
    requires start < |card.sectors| && GoodBpb(BootData(card, start), start, total, |card.sectors|)
    ensures ok ==> v == ParseBpb(BootData(card, start), start, total) && Consistent(v, card)
    ensures !ok ==> !card.reliable
  {
    var buffer := new byte[41];
    ok := card.ReadPartial(start, 0x0B, buffer, 0, 41);
    BpbConsistent(BootData(card, start), start, total, card);
    assert ok ==> buffer[..] == BootData(card, start);
    v := if ok then ParseBpb(buffer[..], start, total) else Volume(0, 0, 0, 0, 0, 0, 0, 0, 0, 0, 0, 0);
  }

  /** fat32_init: the volume of the first active FAT32 partition, and sixteen free handles. When the boot
      sector cannot be read, parseMBR has already overwritten two fields of the old volume. */
  method Mount(d: Driver) returns (ok: bool)
    requires d.Table() && Formatted(d.card)
    modifies d, d.handles
    ensures ok ==> d.Valid() && forall i :: 0 <= i < MAX_OPEN_FILES ==> d.handles[i].isFree
    ensures ok ==> exists i :: 0 <= i < 4 && Chosen(PartitionTable(d.card), i) && VolumeOf(d.card, i) == d.vol
    ensures !ok ==> d.mounted == old(d.mounted) && d.handles[..] == old(d.handles[..])
    ensures !ok ==> d.vol == old(d.vol)
                    || exists i :: && 0 <= i < 4 && Chosen(PartitionTable(d.card), i)
                                   && d.vol == Moved(old(d.vol), d.card, i)
    ensures !ok && (!d.mounted || d.vol == old(d.vol)) ==> d.Table()
    ensures !ok && d.card.reliable ==> forall i :: 0 <= i < 4 ==> !Chosen(PartitionTable(d.card), i)
  {
    var start, total, v;
    ghost var i;
    ok, start, total, i := FindPartition(d.card);
    if !ok {
      return;
    }
    assert GoodPartition(d.card, i);
    d.vol := d.vol.(totalSectors := total, startLba := start);
    assert d.vol == Moved(old(d.vol), d.card, i);
    ok, v := ReadVolume(d.card, start, total);
    if ok {
      assert v == VolumeOf(d.card, i);
      d.vol := v;
      d.mounted := true;
      FreeSlots(d);
    }
  }

  method FreeSlots(d: Driver)
    requires d.Table() && d.mounted
    modifies d.handles
    ensures d.Valid() && forall i :: 0 <= i < MAX_OPEN_FILES ==> d.handles[i].isFree
  {
    var i := 0;
    while i < MAX_OPEN_FILES
      invariant 0 <= i <= MAX_OPEN_FILES && forall k :: 0 <= k < i ==> d.handles[k].isFree
    {
      d.handles[i] := d.handles[i].(isFree := true);
      i := i + 1;
    }
    forall k | 0 <= k < MAX_OPEN_FILES ensures d.SlotOk(k) {
    }
  }

  // ----- opening -----

  /** The file that a directory entry describes is stored completely: an empty file needs no chain. */
  ghost predicate Stored(card: Card, v: Volume, info: FileInfo) {
    info.size > 0 ==>
      HasChain(card, v, info.cluster) && info.size <= |ChainBytes(card, v, ChainOf(card, v, info.cluster))|
  }

  ghost function StoredBytes(card: Card, v: Volume, info: FileInfo): seq<byte>
    requires Stored(card, v, info)
  {
    if info.size == 0 then [] else Contents(card, v, ChainOf(card, v, info.cluster), info.size)
  }

  /** The path is in the domain of get_file, and what it names is stored completely. */
  ghost predicate Openable(card: Card, v: Volume, path: seq<byte>) {
    && |path| > 0 && 0 !in path && Walkable(card, v, v.root, Components(path[1..]))
    && (match Resolve(card, v, v.root, Components(path[1..]))
        case Found(info) => Stored(card, v, info)
        case Failed(_) => true)
  }

  /** What the path names. */
  ghost function Target(card: Card, v: Volume, path: seq<byte>): Outcome
    requires Openable(card, v, path)
  {
    Resolve(card, v, v.root, Components(path[1..]))
  }

  /** fat32_open: a handle at the start of the named file, in the lowest free slot. Before mounting it
      fails (fat_init_root_dir_iterator refuses). */
  method OpenFile(d: Driver, path: seq<byte>, mode: u8) returns (id: u32)
    requires d.Usable() && (d.mounted ==> Openable(d.card, d.vol, path))
    modifies d`chains, d.handles
    ensures d.Usable() && d.OthersKept(id) && (id < MAX_OPEN_FILES ==> d.mounted)
    ensures id < MAX_OPEN_FILES || id == TWO32 - 1
    ensures id < MAX_OPEN_FILES ==>
              && old(d.handles[id].isFree) && old(d.TakenBelow(id))
              && Target(d.card, d.vol, path).Found? && d.Open(id)
              && var info := Target(d.card, d.vol, path).info;
                 && d.handles[id] == Handle(info.cluster, info.cluster, 0, info.size, 0, false, mode)
                 && FileOk(d.card, d.vol, d.chains[id], d.handles[id])
                 && d.FileBytes(id) == StoredBytes(d.card, d.vol, info)
                 && d.chains == old(d.chains)[id := d.chains[id]]
    ensures id == TWO32 - 1 ==> d.chains == old(d.chains)
    ensures id == TWO32 - 1 && d.mounted ==>
              !d.card.reliable || Target(d.card, d.vol, path).Failed? || old(d.TakenBelow(MAX_OPEN_FILES))
  {
    if !d.mounted {
      return TWO32 - 1;
    }
    var err, info := GetFile(d.card, d.vol, path);
    if err != Success {
      return TWO32 - 1;
    }
    ghost var ch := if info.size > 0 then ChainOf(d.card, d.vol, info.cluster) else [];
    id := d.Install(info.cluster, info.size, mode, ch);
    if id < MAX_OPEN_FILES {
      assert d.SlotOk(id);
    }
  }
}

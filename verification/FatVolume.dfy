/** A mounted FAT32 volume of src/driver/fs/FAT32.c: its layout, its allocation table, its cluster chains
    (Microsoft FAT Specification, sections 3 and 4). */
module FatVolume {
  import opened Bytes
  import opened Disk

  /** fat_error_t, and the raw marker getNextCluster returns for a bad cluster. */
  datatype FatError =
    | Success | ReadFail | InvalidCluster | BadFatEntry | EndOfChain | NotInitialized | NoMoreEntries | FileNotFound
    | BadClusterMarker

  /** fat32_volume_info_t, the fields the reader uses. */
  datatype Volume = Volume(
    startLba: u32,
    bytesPerSector: u16,
    sectorsPerCluster: u8,
    reserved: u16,
    numFats: u8,
    fatSize: u32,
    root: u32,
    totalSectors: u32,
    totalClusters: u32,
    firstFat: u32,
    dataStart: u32,
    bytesPerCluster: u32)

  const EOC: nat := 0x0FFF_FFF8
  const BAD_CLUSTER: nat := 0x0FFF_FFF7

  /** What the reader relies on without checking: 512-byte sectors, a layout without overflow that fits
      the card, a table long enough for every cluster, and cluster numbers below the reserved 28-bit
      values (Microsoft FAT Specification, section 4). */
  ghost predicate Consistent(v: Volume, card: Card) {
    && v.bytesPerSector == SECTOR && 1 <= v.sectorsPerCluster
    && v.bytesPerCluster == SECTOR * v.sectorsPerCluster
    && 1 <= v.numFats
    && v.firstFat == v.startLba + v.reserved
    && v.dataStart == v.firstFat + Rows(v.numFats, v.fatSize)
    && v.dataStart <= v.startLba + v.totalSectors <= |card.sectors| <= TWO32
    && v.dataStart + Rows(v.totalClusters, v.sectorsPerCluster) <= v.startLba + v.totalSectors
    && 4 * (v.totalClusters + 2) <= SECTOR * v.fatSize
    && v.totalClusters + 2 <= BAD_CLUSTER
  }

  /** n rows of k: the product n * k, built up by addition (FatGeometry.RowsIsProduct). */
  function Rows(n: nat, k: nat): nat {
    if n == 0 then 0 else Rows(n - 1, k) + k
  }

  predicate InRange(v: Volume, c: nat) {
    2 <= c < v.totalClusters + 2
  }

  /** fatClusterToLba, with the wrap-around of 32-bit arithmetic. */
  function ClusterToLba(v: Volume, c: nat): u32 {
    if c < 2 then 0 else (v.dataStart + Rows(c - 2, v.sectorsPerCluster)) % TWO32
  }

  /** The first copy of the allocation table, as bytes. */
  ghost function FatBytes(card: Card, v: Volume): seq<byte>
    requires v.firstFat + v.fatSize <= |card.sectors|
  {
    Flat(card.sectors[v.firstFat..v.firstFat + v.fatSize])
  }

  /** Entry c of the table: 28 bits, little-endian (Microsoft FAT Specification, section 4.1). */
  ghost function Entry(card: Card, v: Volume, c: nat): nat
    requires v.firstFat + v.fatSize <= |card.sectors|
  {
    if 4 * c + 4 <= |FatBytes(card, v)| then Le32(FatBytes(card, v), 4 * c) % 0x1000_0000 else 0
  }

  /** What following entry e gives: the next cluster, or why there is none. */
  function Follow(e: nat): (FatError, nat) {
    if EOC <= e then (EndOfChain, 0)
    else if e == BAD_CLUSTER then (BadClusterMarker, 0)
    else if e == 0 then (InvalidCluster, 0)
    else (Success, e)
  }

  // ----- chains -----

  /** Cluster i of the chain is followed by cluster i + 1, or ends the chain if it is the last. */
  ghost predicate LinkedAt(card: Card, v: Volume, ch: seq<nat>, i: nat)
    requires i < |ch| && v.firstFat + v.fatSize <= |card.sectors|
  {
    && InRange(v, ch[i])
    && (if i + 1 < |ch| then Entry(card, v, ch[i]) == ch[i + 1] else Entry(card, v, ch[i]) >= EOC)
  }

  /** The clusters of a file or directory, in order, up to the end-of-chain mark. */
  ghost predicate Chain(card: Card, v: Volume, ch: seq<nat>) {
    Consistent(v, card) && FatFits(card, v)
    && |ch| > 0 && forall i :: 0 <= i < |ch| ==> LinkedAt(card, v, ch, i)
  }

  ghost predicate FatFits(card: Card, v: Volume) {
    v.firstFat + v.fatSize <= |card.sectors|
  }

  /** The sectors of a list of clusters, in order. */
  ghost function ChainSectors(card: Card, v: Volume, ch: seq<nat>): seq<Sector>
    requires forall c :: c in ch ==> ClusterToLba(v, c) + v.sectorsPerCluster <= |card.sectors|
  {
    if ch == [] then [] else
      assert ch[0] in ch;
      var lba := ClusterToLba(v, ch[0]);
      card.sectors[lba..lba + v.sectorsPerCluster] + ChainSectors(card, v, ch[1..])
  }

  ghost predicate OnCard(card: Card, v: Volume, ch: seq<nat>) {
    forall c :: c in ch ==> ClusterToLba(v, c) + v.sectorsPerCluster <= |card.sectors|
  }

  /** The content of a chain: its sectors' bytes. */
  ghost function ChainBytes(card: Card, v: Volume, ch: seq<nat>): seq<byte>
    requires OnCard(card, v, ch)
  {
    Flat(ChainSectors(card, v, ch))
  }
}

/** From the bytes of a root directory to an open file: what get_file and fat32_open of src/driver/fs/FAT32.c
    make of a directory that was written record by record. */
module FatStored {
  import opened Bytes
  import opened Disk
  import opened FatVolume
  import opened FatNames
  import opened FatRecords
  import opened FatNameWriting
  import opened FatListing
  import opened FatHandle
  import opened FatFile
  import opened FatPath
  import opened FatTree
  import opened FatMount

  /** The root directory holds these entries, and no two of them go by the same name. */
  ghost predicate RootHolds(card: Card, v: Volume, es: seq<DirEntry>, after: seq<Record>) {
    && HasChain(card, v, v.root) && AllStorable(es) && (after == [] || after[0][0] == 0x00)
    && RecordsOf(card, v, v.root) == EncodeDirectory(es) + after
    && forall i, j :: 0 <= i < j < |es| ==> InfoOf(es[i]).name != InfoOf(es[j]).name
  }

  /** Entry k is a file whose name a path can hold. */
  predicate FileEntry(es: seq<DirEntry>, k: nat) {
    k < |es| && !es[k].short.flags.directory && 0x2F !in InfoOf(es[k]).name
  }

  lemma NameFits(e: DirEntry)
    requires Storable(e)
    ensures 0 !in InfoOf(e).name && |InfoOf(e).name| <= 255
  {
  }

  /** The listing is what was written, with unique names. */
  lemma ListedWritten(card: Card, v: Volume, es: seq<DirEntry>, after: seq<Record>, files: seq<FileInfo>)
    requires RootHolds(card, v, es, after) && files == ListFrom(RecordsOf(card, v, v.root), 0)
    ensures |files| == |es| && (forall k :: 0 <= k < |es| ==> files[k] == InfoOf(es[k])) && UniqueNames(files)
  {
    DirectoryRoundTrip(es, after);
    assert files == InfosOf(es);
    forall i, j | 0 <= i < j < |files| ensures files[i].name != files[j].name {
      assert files[i] == InfoOf(es[i]) && files[j] == InfoOf(es[j]);
    }
  }

  lemma SearchWritten(card: Card, v: Volume, files: seq<FileInfo>, k: nat, f: FileInfo)
    requires HasChain(card, v, v.root) && files == ListFrom(RecordsOf(card, v, v.root), 0)
    requires UniqueNames(files) && k < |files| && files[k] == f && !f.isDirectory
    ensures Search(card, v, v.root, f.name, true) == Outcome.Found(f)
  {
    assert files[k] in files;
    PickFinds(files, Marked(RecordsOf(card, v, v.root), 0), f, true);
  }

  /** The path of an entry leads to it: to its name, cluster, size and attributes as they were written. */
  lemma ResolveWritten(card: Card, v: Volume, es: seq<DirEntry>, after: seq<Record>, k: nat, name: seq<byte>)
    requires RootHolds(card, v, es, after) && FileEntry(es, k) && name == InfoOf(es[k]).name
    ensures Walkable(card, v, v.root, Components(name))
    ensures Resolve(card, v, v.root, Components(name)) == Outcome.Found(InfoOf(es[k]))
  {
    var files := ListFrom(RecordsOf(card, v, v.root), 0);
    assert Storable(es[k]);
    NameFits(es[k]);
    ListedWritten(card, v, es, after, files);
    SearchWritten(card, v, files, k, InfoOf(es[k]));
    LastComponent(name);
    assert Cut(name) == name;
  }

  /** The path of entry k: a slash and its name. */
  function PathOf(es: seq<DirEntry>, k: nat): seq<byte>
    requires k < |es|
  {
    [0x2F] + InfoOf(es[k]).name
  }

  /** get_file finds the entry, unless a read fails. */
  method FindWritten(card: Card, v: Volume, path: seq<byte>,
                     ghost es: seq<DirEntry>, ghost after: seq<Record>, ghost k: nat)
    returns (err: FatError, info: FileInfo)
    requires RootHolds(card, v, es, after) && FileEntry(es, k) && path == PathOf(es, k)
    ensures err == ReadFail ==> !card.reliable
    ensures err != ReadFail ==> err == Success && info == InfoOf(es[k])
    ensures err == Success ==> info.cluster == es[k].short.cluster && info.size == es[k].short.size
  {
    PathStarts(es, k);
    ResolveWritten(card, v, es, after, k, InfoOf(es[k]).name);
    err, info := GetFile(card, v, path);
  }

  lemma PathStarts(es: seq<DirEntry>, k: nat)
    requires AllStorable(es) && k < |es|
    ensures var path := PathOf(es, k); |path| > 0 && path[1..] == InfoOf(es[k]).name && 0 !in path
  {
    assert Storable(es[k]);
    NameFits(es[k]);
  }

  /** fat32_open puts a handle at the entry's cluster, with the entry's size; it refuses only if a read fails or
      all slots are taken. */
  method OpenWritten(d: Driver, path: seq<byte>, mode: u8,
                     ghost es: seq<DirEntry>, ghost after: seq<Record>, ghost k: nat)
    returns (id: u32)
    requires d.Valid() && RootHolds(d.card, d.vol, es, after) && FileEntry(es, k) && path == PathOf(es, k)
    requires Stored(d.card, d.vol, InfoOf(es[k]))
    modifies d`chains, d.handles
    ensures id < MAX_OPEN_FILES ==>
              && d.handles[id].start == d.handles[id].cluster == es[k].short.cluster
              && d.handles[id].size == es[k].short.size && d.handles[id].pos == 0 && !d.handles[id].isFree
    ensures id >= MAX_OPEN_FILES ==> !d.card.reliable || old(d.TakenBelow(MAX_OPEN_FILES))
  {
    PathStarts(es, k);
    ResolveWritten(d.card, d.vol, es, after, k, InfoOf(es[k]).name);
    id := OpenFile(d, path, mode);
  }
}
